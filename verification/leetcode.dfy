/** The LeetCode content script: reading a submission off the problem page
    and the guard around handing it to the background worker. The page is
    abstracted to the texts the script's selectors find: for each selector
    in its list, the `textContent` of the first matching element, or `None`
    when nothing matches. */
module LeetCode {
  import opened Wrappers
  import opened Text
  import opened Submissions
  import opened Formatter
  import opened Watch

  /** Two detections of the same problem closer than this (ms) are one. */
  const Window := 30000
  const UnknownProblem := "Unknown Problem"
  const ProblemsMarker := "/problems/"

  // ---------------------------------------------------------------------
  // Deduplication

  /** `isNewSubmission`, with `last` the previously handed-on submission. */
  predicate IsNew(last: Option<Submission>, s: Submission) {
    last.None? || last.value.title != s.title || Abs(s.timestamp - last.value.timestamp) > Window
  }

  /** The same title is suppressed exactly within 30 seconds either side of
      the previous detection; a different title, or no previous one, always
      passes. */
  lemma {:induction false} DedupWindow(last: Option<Submission>, s: Submission)
    ensures last.None? ==> IsNew(last, s)
    ensures last.Some? && last.value.title != s.title ==> IsNew(last, s)
    ensures last.Some? && last.value.title == s.title ==>
              (IsNew(last, s) <==> s.timestamp < last.value.timestamp - Window
                                   || s.timestamp > last.value.timestamp + Window)
  {
  }

  // ---------------------------------------------------------------------
  // Page predicates

  /** `isProblemPage`. */
  predicate IsProblemPage(path: string) {
    Contains(path, ProblemsMarker) && !Contains(path, "/submissions/")
  }

  /** `containsAcceptedStatus` on an element's text, class name and inline
      colour (missing text or class read as ""). */
  predicate ContainsAcceptedStatus(text: string, className: string, color: string) {
    (Contains(text, "Accepted") || Contains(text, "Success"))
    && (Contains(className, "success") || Contains(className, "accepted")
        || Contains(className, "green") || Contains(color, "green"))
  }

  /** A problem page is recognised, and its submissions list is not. */
  lemma ProblemPageExamples()
    ensures IsProblemPage("/problems/two-sum/")
    ensures !IsProblemPage("/problems/two-sum/submissions/123/")
    ensures !IsProblemPage("/contest/")
  {
    ProblemPath();
    SubmissionsPath();
    ContestPath();
  }

  lemma ProblemPath()
    ensures IsProblemPage("/problems/two-sum/")
  {
    var p := "/problems/two-sum/";
    assert OccursAt(p, ProblemsMarker, 0);
    forall i | 0 <= i <= |p| ensures !OccursAt(p, "/submissions/", i) {
      if i + 13 <= |p| {
        assert p[i..i + 13][0] != '/' || p[i..i + 13][1] != 's';
      }
    }
  }

  lemma SubmissionsPath()
    ensures !IsProblemPage("/problems/two-sum/submissions/123/")
  {
    var q := "/problems/two-sum" + "/submissions/" + "123/";
    assert q[17..30] == "/submissions/";
    assert OccursAt(q, "/submissions/", 17);
    assert q == "/problems/two-sum/submissions/123/";
  }

  lemma ContestPath()
    ensures !IsProblemPage("/contest/")
  {
    forall i | 0 <= i <= 9 ensures !OccursAt("/contest/", ProblemsMarker, i) {
    }
  }

  /** An accepted verdict needs both a text marker and a success styling. */
  lemma AcceptedStatusExamples()
    ensures ContainsAcceptedStatus("Accepted", "text-green-s", "")
    ensures !ContainsAcceptedStatus("Accepted", "", "")
    ensures !ContainsAcceptedStatus("", "text-green-s", "green")
  {
    assert OccursAt("Accepted", "Accepted", 0);
    assert OccursAt("text-green-s", "green", 5);
  }

  // ---------------------------------------------------------------------
  // Title from the URL

  /** `/problems/` at `i` followed by at least one character other than
      `/`: where `/\/problems\/([^\/]+)/` can match. */
  predicate SlugAt(path: string, i: nat) {
    OccursAt(path, ProblemsMarker, i) && i + 10 < |path| && path[i + 10] != '/'
  }

  predicate NotSlash(c: char) { c != '/' }

  /** The run of non-`/` characters starting at `from`. */
  function SlugFrom(path: string, from: nat): string
    requires from <= |path|
  {
    path[from..][..Span(path[from..], NotSlash)]
  }

  /** The capture group of the leftmost match of `/\/problems\/([^\/]+)/`. */
  function Slug(path: string): (slug: Option<string>)
    ensures slug.Some? ==> slug.value != [] && forall i :: 0 <= i < |slug.value| ==> slug.value[i] != '/'
    ensures slug.None? <==> forall i :: 0 <= i <= |path| ==> !SlugAt(path, i)
    ensures slug.Some? ==> exists i: nat :: SlugAt(path, i) && (forall j :: 0 <= j < i ==> !SlugAt(path, j))
                                       && slug.value == SlugFrom(path, i + 10)
  {
    var p := (i: nat) => SlugAt(path, i);
    assert forall i: nat :: p(i) == SlugAt(path, i);
    match FirstIndex(0, |path|, p)
    case None => None
    case Some(i) => Some(SlugFrom(path, i + 10))
  }

  /** `\b\w`: a word character with no word character before it. */
  predicate WordStart(s: string, i: nat)
    requires i < |s|
  {
    IsWordChar(s[i]) && (i == 0 || !IsWordChar(s[i - 1]))
  }

  /** `.replace(/\b\w/g, l => l.toUpperCase())`. */
  function Capitalize(s: string): (r: string)
    ensures |r| == |s|
    ensures forall i :: 0 <= i < |s| ==> r[i] == (if WordStart(s, i) then UpperChar(s[i]) else s[i])
  {
    seq(|s|, i requires 0 <= i < |s| => if WordStart(s, i) then UpperChar(s[i]) else s[i])
  }

  /** The title read from the URL: hyphens become spaces and each word
      starts with a capital; `Unknown Problem` when the path has no slug. */
  function SlugTitle(path: string): (title: string)
    ensures Slug(path).None? ==> title == UnknownProblem
    ensures Slug(path).Some? ==> |title| == |Slug(path).value|
    ensures Slug(path).Some? ==> forall i :: 0 <= i < |title| ==> title[i] != '-' && title[i] != '/'
    ensures Slug(path).Some? ==> forall i :: 0 <= i < |title| && IsLowerAscii(title[i]) ==> !WordStart(title, i)
    ensures Slug(path).Some? ==> var spaced := ReplaceChar(Slug(path).value, '-', ' ');
              forall i :: 0 <= i < |title| && !WordStart(spaced, i) ==> title[i] == spaced[i]
  {
    match Slug(path)
    case None => UnknownProblem
    case Some(slug) => Capitalize(ReplaceChar(slug, '-', ' '))
  }

  /** The slug LeetCode would use for a title: spaces to hyphens, lower case. */
  function ToSlug(title: string): string {
    Lower(ReplaceChar(title, ' ', '-'))
  }

  predicate IsSlugChar(c: char) {
    IsLowerAscii(c) || IsDigit(c) || c == '-'
  }

  /** For a slug of lower-case letters, digits and hyphens, the title read
      from `/problems/{slug}/…` turns back into the slug. */
  lemma {:induction false} SlugTitleRoundTrip(slug: string, rest: string)
    requires slug != [] && forall i :: 0 <= i < |slug| ==> IsSlugChar(slug[i])
    requires rest == [] || rest[0] == '/'
    ensures Slug(ProblemsMarker + slug + rest) == Some(slug)
    ensures ToSlug(SlugTitle(ProblemsMarker + slug + rest)) == slug
  {
    SlugOfPath(slug, rest);
    SlugOfTitle(slug);
  }

  /** The slug is read back from `/problems/{slug}/…`. */
  lemma {:induction false} SlugOfPath(slug: string, rest: string)
    requires slug != [] && forall i :: 0 <= i < |slug| ==> slug[i] != '/'
    requires rest == [] || rest[0] == '/'
    ensures Slug(ProblemsMarker + slug + rest) == Some(slug)
  {
    var path := ProblemsMarker + slug + rest;
    assert path[..10] == ProblemsMarker;
    assert OccursAt(path, ProblemsMarker, 0);
    assert path[10] == slug[0];
    var p := (i: nat) => SlugAt(path, i);
    assert p(0);
    FirstIndexAt(0, |path|, p, 0);
    var tail := path[10..];
    assert tail == slug + rest;
    assert Span(tail, NotSlash) == |slug| by {
      assert forall i :: 0 <= i < |slug| ==> tail[i] == slug[i];
      SpanExact(tail, |slug|);
    }
    assert tail[..|slug|] == slug;
  }

  /** Capitalising the spaced slug and turning it back gives the slug. */
  lemma {:induction false} SlugOfTitle(slug: string)
    requires forall i :: 0 <= i < |slug| ==> IsSlugChar(slug[i])
    ensures ToSlug(Capitalize(ReplaceChar(slug, '-', ' '))) == slug
  {
    var spaced := ReplaceChar(slug, '-', ' ');
    var title := Capitalize(spaced);
    forall i | 0 <= i < |slug| ensures ToSlug(title)[i] == slug[i] {
      if slug[i] == '-' {
        assert spaced[i] == ' ' && !IsWordChar(' ');
      } else {
        assert spaced[i] == slug[i];
      }
    }
  }

  /** `Span` stops at the first character other than non-slash. */
  lemma {:induction false} SpanExact(s: string, n: nat)
    requires n <= |s|
    requires forall i :: 0 <= i < n ==> s[i] != '/'
    requires n == |s| || s[n] == '/'
    ensures Span(s, NotSlash) == n
  {
  }

  // ---------------------------------------------------------------------
  // First-match-wins readers over selector lists

  predicate NonBlankAt(texts: seq<Option<string>>, i: nat) {
    i < |texts| && texts[i].Some? && Trim(texts[i].value) != ""
  }

  /** The trimmed text of the first element whose text is not blank. */
  function FirstNonBlank(texts: seq<Option<string>>): (r: Option<string>)
    ensures r.Some? <==> exists i :: 0 <= i < |texts| && NonBlankAt(texts, i)
    ensures r.Some? ==> r.value != ""
  {
    var p := (i: nat) => NonBlankAt(texts, i);
    assert forall i: nat :: p(i) == NonBlankAt(texts, i);
    match FirstIndex(0, |texts|, p)
    case None => None
    case Some(i) => Some(Trim(texts[i].value))
  }

  /** The title: a non-blank page heading wins over the URL. */
  function Title(path: string, headings: seq<Option<string>>): (title: string)
    ensures title != "" || Slug(path).Some?
    ensures FirstNonBlank(headings).Some? ==> title == FirstNonBlank(headings).value
    ensures FirstNonBlank(headings).None? ==> title == SlugTitle(path)
  {
    FirstNonBlank(headings).GetOr(SlugTitle(path))
  }

  function ClassifyDifficulty(text: string): (d: string) {
    if Contains(text, "easy") then "easy" else if Contains(text, "hard") then "hard" else "medium"
  }

  predicate MentionsDifficulty(text: string) {
    Contains(text, "easy") || Contains(text, "hard") || Contains(text, "medium")
  }

  predicate DifficultyAt(texts: seq<Option<string>>, i: nat) {
    i < |texts| && texts[i].Some? && MentionsDifficulty(Trim(Lower(texts[i].value)))
  }

  /** The difficulty: the first element whose lower-cased text names a
      level decides, `easy` over `hard` over `medium`; `medium` otherwise. */
  function Difficulty(texts: seq<Option<string>>): (d: string)
    ensures d == "easy" || d == "medium" || d == "hard"
  {
    match FirstIndex(0, |texts|, (i: nat) => DifficultyAt(texts, i))
    case None => "medium"
    case Some(i) => ClassifyDifficulty(Trim(Lower(texts[i].value)))
  }

  /** With no element naming a level the default is kept. */
  lemma {:induction false} DifficultyDefault(texts: seq<Option<string>>)
    requires forall i :: 0 <= i < |texts| ==> !DifficultyAt(texts, i)
    ensures Difficulty(texts) == "medium"
  {
    assert !DifficultyAt(texts, |texts|);
  }

  /** The first element naming a level decides; elements before it that
      name none are passed over. */
  lemma {:induction false} DifficultyFirstMatch(texts: seq<Option<string>>, i: nat)
    requires i < |texts| && DifficultyAt(texts, i)
    requires forall j :: 0 <= j < i ==> !DifficultyAt(texts, j)
    ensures Difficulty(texts) == ClassifyDifficulty(Trim(Lower(texts[i].value)))
  {
    var p := (k: nat) => DifficultyAt(texts, k);
    assert forall k: nat :: p(k) == DifficultyAt(texts, k);
    var r := FirstIndex(0, |texts|, p);
    assert r.Some?;
    assert r.value == i;
  }

  /** The language named by a selector's text, tested in the script's
      order; `None` leaves the default. */
  function ClassifyLanguage(text: string): (r: Option<string>)
    ensures r.Some? ==> r.value in {"python", "java", "javascript", "cpp", "go", "rust"}
    ensures r.Some? ==> Contains(text, if r.value == "cpp" then (if Contains(text, "c++") then "c++" else "cpp") else r.value)
    ensures r.None? <==> !(Contains(text, "python") || Contains(text, "java") || Contains(text, "javascript")
                           || Contains(text, "c++") || Contains(text, "cpp") || Contains(text, "go")
                           || Contains(text, "rust"))
    ensures r == Some("python") <==> Contains(text, "python")
    ensures r == Some("java") <==> !Contains(text, "python") && Contains(text, "java")
    ensures r == Some("cpp") <==> !Contains(text, "python") && !Contains(text, "java")
                                  && !Contains(text, "javascript") && (Contains(text, "c++") || Contains(text, "cpp"))
    ensures r == Some("go") <==> !Contains(text, "python") && !Contains(text, "java") && !Contains(text, "javascript")
                                 && !Contains(text, "c++") && !Contains(text, "cpp") && Contains(text, "go")
    ensures r == Some("rust") <==> !Contains(text, "python") && !Contains(text, "java") && !Contains(text, "javascript")
                                   && !Contains(text, "c++") && !Contains(text, "cpp") && !Contains(text, "go")
                                   && Contains(text, "rust")
  {
    if Contains(text, "python") then Some("python")
    else if Contains(text, "java") then Some("java")
    else if Contains(text, "javascript") then Some("javascript")
    else if Contains(text, "c++") || Contains(text, "cpp") then Some("cpp")
    else if Contains(text, "go") then Some("go")
    else if Contains(text, "rust") then Some("rust")
    else None
  }

  predicate PresentAt(texts: seq<Option<string>>, i: nat) {
    i < |texts| && texts[i].Some?
  }

  /** The language: only the first element found is read, `cpp` by
      default. */
  function Language(texts: seq<Option<string>>): (lang: string)
    ensures lang in {"python", "java", "cpp", "go", "rust"}
    ensures (forall i :: 0 <= i < |texts| ==> texts[i].None?) ==> lang == "cpp"
  {
    var p := (i: nat) => PresentAt(texts, i);
    assert forall i: nat :: p(i) == PresentAt(texts, i);
    match FirstIndex(0, |texts|, p)
    case None => "cpp"
    case Some(i) =>
      var text := Lower(texts[i].value);
      NeverJavaScript(text);
      ClassifyLanguage(text).GetOr("cpp")
  }

  /** JavaScript is reported as Java, because `java` is tested first. */
  lemma {:induction false} JavaScriptReadsAsJava(text: string)
    requires Contains(text, "javascript") && !Contains(text, "python")
    ensures ClassifyLanguage(text) == Some("java")
  {
    assert "java" + "script" == "javascript";
    ContainsPrefix(text, "java", "script");
  }

  /** The `javascript` branch is unreachable. */
  lemma {:induction false} NeverJavaScript(text: string)
    ensures ClassifyLanguage(text) != Some("javascript")
  {
    if Contains(text, "javascript") {
      assert "java" + "script" == "javascript";
      ContainsPrefix(text, "java", "script");
    }
  }

  /** The first element found ends the search, wherever it is and even
      when its text names no language. */
  lemma {:induction false} FirstElementDecides(texts: seq<Option<string>>, i: nat)
    requires PresentAt(texts, i) && forall j :: 0 <= j < i ==> !PresentAt(texts, j)
    ensures Language(texts) == ClassifyLanguage(Lower(texts[i].value)).GetOr("cpp")
  {
    var p := (k: nat) => PresentAt(texts, k);
    assert forall k: nat :: p(k) == PresentAt(texts, k);
    FirstIndexAt(0, |texts|, p, i);
  }

  // ---------------------------------------------------------------------
  // Code

  function FallbackCode(language: string): string {
    "// Code extraction failed for " + language + "\n// Please check the submission manually"
  }

  /** The code: the trimmed text of the first non-blank code element, else
      the editor's lines joined with newlines, else the placeholder. */
  function Code(texts: seq<Option<string>>, viewLines: seq<string>, language: string): (code: string)
    ensures code != ""
    ensures FirstNonBlank(texts).Some? ==> code == FirstNonBlank(texts).value
    ensures FirstNonBlank(texts).None? && Join(viewLines, "\n") != "" ==> code == Join(viewLines, "\n")
    ensures FirstNonBlank(texts).None? && Join(viewLines, "\n") == "" ==> code == FallbackCode(language)
  {
    var found := if FirstNonBlank(texts).Some? then FirstNonBlank(texts).value
                 else if |viewLines| > 0 then Join(viewLines, "\n")
                 else "";
    if found != "" then found else FallbackCode(language)
  }

  // ---------------------------------------------------------------------
  // URL

  /** `href.split('?')[0]`. */
  function PageUrl(href: string): (url: string)
    ensures |url| <= |href| && url == href[..|url|]
    ensures forall i :: 0 <= i < |url| ==> url[i] != '?'
    ensures |url| < |href| ==> href[|url|] == '?'
  {
    Split(href, '?')[0]
  }

  // ---------------------------------------------------------------------
  // Extraction

  /** What the script's selectors find on the page. */
  datatype Page = Page(
    path: string,
    href: string,
    headings: seq<Option<string>>,
    difficultyTexts: seq<Option<string>>,
    languageTexts: seq<Option<string>>,
    codeTexts: seq<Option<string>>,
    viewLines: seq<string>)

  /** `extractSubmissionData`, stamped with the detection time. */
  function Extract(page: Page, now: int): (s: Submission)
    ensures s.platform == "leetcode" && s.timestamp == now
    ensures s.difficulty.Some? && s.contestId.None? && s.problemIndex.None? && s.division.None?
    ensures s.code != ""
    ensures s.title == Title(page.path, page.headings) && s.url == PageUrl(page.href)
    ensures s.difficulty == Some(Difficulty(page.difficultyTexts))
    ensures s.language == Language(page.languageTexts)
    ensures s.code == Code(page.codeTexts, page.viewLines, s.language)
  {
    var language := Language(page.languageTexts);
    Submission("leetcode", Title(page.path, page.headings), language,
               Code(page.codeTexts, page.viewLines, language), PageUrl(page.href), now,
               Some(Difficulty(page.difficultyTexts)), None, None, None)
  }

  /** Every LeetCode submission gets a path under its difficulty, and a
      real extension: no language the script reports falls back to
      `txt`. */
  lemma {:induction false} ExtractedPath(page: Page, now: int)
    ensures var s := Extract(page, now);
            exists d, ext :: d in {"easy", "medium", "hard"} && ext in {"py", "java", "cpp", "go", "rs"}
              && FilePath(s) == Success("leetcode/" + d + "/" + Sanitize(s.title) + "." + ext)
  {
    var s := Extract(page, now);
    var d := s.difficulty.value;
    assert Truthy(s.difficulty);
    KnownLanguage(s.language);
    assert FilePath(s) == Success("leetcode/" + d + "/" + Sanitize(s.title) + "." + Extension(s.language));
  }

  lemma KnownLanguage(lang: string)
    requires lang in {"python", "java", "cpp", "go", "rust"}
    ensures Extension(lang) in {"py", "java", "cpp", "go", "rs"}
  {
    assert Lower(lang) == lang;
  }

  // ---------------------------------------------------------------------
  // Guard

  /** What can happen to the watcher: a detection reaching
      `handleAcceptedSubmission` with the extraction's outcome, or the
      worker's response arriving. */
  datatype Event = Detected(candidate: Result<Submission>) | Responded

  /** `handleAcceptedSubmission` and the `sendMessage` callback. */
  function Step(w: Watcher, e: Event): (v: Watcher)
    ensures e.Detected? && w.isProcessing ==> v == w
    ensures e.Detected? && !w.isProcessing && e.candidate.Success? && IsNew(w.last, e.candidate.value) ==>
              v.last == Some(e.candidate.value) && v.sent == w.sent + [e.candidate.value] && v.isProcessing
    ensures e.Detected? && !w.isProcessing && !(e.candidate.Success? && IsNew(w.last, e.candidate.value)) ==>
              v == w
    ensures e.Responded? ==> v == Respond(w)
  {
    match e
    case Responded => Respond(w)
    case Detected(candidate) =>
      if w.isProcessing then w
      else match candidate
        case Failure(_) => w.(isProcessing := false)
        case Success(s) =>
          if IsNew(w.last, s) then Send(w, s).(last := Some(s))
          else w.(isProcessing := false)
  }

  function Run(w: Watcher, events: seq<Event>): Watcher
    decreases |events|
  {
    if events == [] then w else Run(Step(w, events[0]), events[1..])
  }

  /** The flag is set exactly while one callback is pending, so the
      watcher never stays busy without a callback to clear it; and the
      remembered submission is the last one sent. */
  predicate Consistent(w: Watcher) {
    && (w.isProcessing <==> w.outstanding == 1)
    && w.outstanding <= 1
    && (w.last.None? <==> w.sent == [])
    && (w.sent != [] ==> w.last == Some(w.sent[|w.sent| - 1]))
    && (forall i :: 0 < i < |w.sent| ==> IsNew(Some(w.sent[i - 1]), w.sent[i]))
  }

  lemma {:induction false} StepConsistent(w: Watcher, e: Event)
    requires Consistent(w)
    ensures Consistent(Step(w, e))
  {
    var v := Step(w, e);
    if e.Detected? && !w.isProcessing && e.candidate.Success? && IsNew(w.last, e.candidate.value) {
      var s := e.candidate.value;
      assert v.sent == w.sent + [s];
      forall i | 0 < i < |v.sent| ensures IsNew(Some(v.sent[i - 1]), v.sent[i]) {
        if i < |w.sent| {
          assert v.sent[i - 1] == w.sent[i - 1] && v.sent[i] == w.sent[i];
        }
      }
    }
  }

  /** From a fresh watcher, any sequence of detections and responses keeps
      it consistent: never stuck, and every submission sent is new
      relative to the one sent before it. */
  lemma {:induction false} RunConsistent(w: Watcher, events: seq<Event>)
    requires Consistent(w)
    ensures Consistent(Run(w, events))
    ensures !Stuck(Run(w, events))
    decreases |events|
  {
    if events != [] {
      StepConsistent(w, events[0]);
      RunConsistent(Step(w, events[0]), events[1..]);
    }
  }

  lemma InitialConsistent()
    ensures Consistent(Initial)
  {
  }
}
