/** The Codeforces content script: recognising an accepted row on a status
    page, reading the problem and submission it names, fetching the code,
    and the guard around handing the submission to the background worker.
    The page is abstracted to texts and link targets; the one network read
    (the submission page) is a parameter. */
module Codeforces {
  import opened Wrappers
  import opened Text
  import opened Submissions
  import opened Formatter
  import opened Watch

  /** Two detections of the same problem closer than this (ms) are one. */
  const Window := 10000
  const InvalidProblemUrl := "Invalid problem URL"
  const NoSubmissionId := "// No submission ID"
  const UnableToExtract := "// Unable to extract code"
  const NoMatchTypeError := "Cannot read properties of null (reading '1')"
  const Origin := "https://codeforces.com"

  // ---------------------------------------------------------------------
  // Deduplication

  /** `isNewSubmission`: the key is contest and problem, not the title. */
  predicate IsNew(last: Option<Submission>, s: Submission) {
    || last.None?
    || s.contestId != last.value.contestId
    || s.problemIndex != last.value.problemIndex
    || Abs(s.timestamp - last.value.timestamp) > Window
  }

  /** The same problem is suppressed exactly within 10 seconds either side
      of the previous detection, whatever the titles say. */
  lemma {:induction false} DedupWindow(last: Submission, s: Submission, title: string)
    ensures IsNew(Some(last), s) == IsNew(Some(last), s.(title := title))
    ensures s.contestId == last.contestId && s.problemIndex == last.problemIndex ==>
              (IsNew(Some(last), s) <==> s.timestamp < last.timestamp - Window
                                         || s.timestamp > last.timestamp + Window)
  {
  }

  // ---------------------------------------------------------------------
  // Division

  /** `guessDivision`: by `parseInt` of the contest id; `NaN` fails both
      comparisons and reads as `div3`. */
  function GuessDivision(contestId: string): (division: string)
    ensures division in {"div1", "div2", "div3"}
    ensures ParseInt(contestId).None? ==> division == "div3"
  {
    var id := ParseInt(contestId);
    if id.Some? && id.value >= 1900 then "div1"
    else if id.Some? && id.value >= 1200 then "div2"
    else "div3"
  }

  /** For a rendered contest number the thresholds are 1900 and 1200, and
      an empty id is `div3`. */
  lemma {:induction false} DivisionThresholds(n: nat)
    ensures GuessDivision(NatToDecimal(n)) == if n >= 1900 then "div1" else if n >= 1200 then "div2" else "div3"
    ensures GuessDivision("") == "div3"
  {
    ParseIntRendered(n);
    assert GuessDivision(NatToDecimal(n)) == if n >= 1900 then "div1" else if n >= 1200 then "div2" else "div3";
    assert ParseInt("").None?;
  }

  // ---------------------------------------------------------------------
  // Pattern matching on URLs

  /** The maximal run of digits starting at `i`. */
  function DigitsFrom(s: string, i: nat): (d: string)
    requires i <= |s|
    ensures AllDigits(d) && |d| <= |s| - i && d == s[i..i + |d|]
    ensures i + |d| < |s| ==> !IsDigit(s[i + |d|])
  {
    s[i..][..Span(s[i..], IsDigit)]
  }

  /** `[A-Z]\d?` at `i`, greedy on the digit. */
  function IndexFrom(s: string, i: nat): (idx: string)
    requires i < |s| && IsUpperAscii(s[i])
    ensures 1 <= |idx| <= 2 && i + |idx| <= |s| && idx == s[i..i + |idx|] && IsUpperAscii(idx[0])
    ensures |idx| == 2 <==> i + 1 < |s| && IsDigit(s[i + 1])
  {
    if i + 1 < |s| && IsDigit(s[i + 1]) then s[i..i + 2] else s[i..i + 1]
  }

  /** Where `/contest\/(\d+)/` can match. */
  predicate ContestAt(s: string, i: nat) {
    OccursAt(s, "contest/", i) && i + 8 < |s| && IsDigit(s[i + 8])
  }

  /** Where `/problem\/([A-Z]\d?)/` can match. */
  predicate ProblemAt(s: string, i: nat) {
    OccursAt(s, "problem/", i) && i + 8 < |s| && IsUpperAscii(s[i + 8])
  }

  /** Where `/problemset\/problem\/(\d+)/` can match. */
  predicate ProblemsetContestAt(s: string, i: nat) {
    OccursAt(s, "problemset/problem/", i) && i + 19 < |s| && IsDigit(s[i + 19])
  }

  /** Where `/problemset\/problem\/\d+\/([A-Z]\d?)/` can match: the digit run
      is maximal, since a shorter one leaves a digit where `/` is needed. */
  predicate ProblemsetIndexAt(s: string, i: nat) {
    ProblemsetContestAt(s, i)
    && var j := i + 19 + |DigitsFrom(s, i + 19)|;
       j + 1 < |s| && s[j] == '/' && IsUpperAscii(s[j + 1])
  }

  /** `/contest\/(\d+)/`: the digits after the leftmost `contest/` that is
      followed by one. */
  function ContestMatch(s: string): (r: Option<string>)
    ensures r.Some? ==> r.value != [] && AllDigits(r.value)
    ensures r.None? <==> forall i :: 0 <= i <= |s| ==> !ContestAt(s, i)
    ensures r.Some? ==> exists i: nat :: ContestAt(s, i) && (forall j :: 0 <= j < i ==> !ContestAt(s, j))
                                    && r.value == DigitsFrom(s, i + 8)
  {
    var p := (i: nat) => ContestAt(s, i);
    assert forall i: nat :: p(i) == ContestAt(s, i);
    match FirstIndex(0, |s|, p)
    case None => None
    case Some(i) => Some(DigitsFrom(s, i + 8))
  }

  /** `/problem\/([A-Z]\d?)/`: the index after the leftmost `problem/` that
      is followed by a capital. */
  function ProblemMatch(s: string): (r: Option<string>)
    ensures r.Some? ==> 1 <= |r.value| <= 2 && IsUpperAscii(r.value[0])
    ensures r.None? <==> forall i :: 0 <= i <= |s| ==> !ProblemAt(s, i)
    ensures r.Some? ==> exists i: nat :: ProblemAt(s, i) && (forall j :: 0 <= j < i ==> !ProblemAt(s, j))
                                    && r.value == IndexFrom(s, i + 8)
  {
    var p := (i: nat) => ProblemAt(s, i);
    assert forall i: nat :: p(i) == ProblemAt(s, i);
    match FirstIndex(0, |s|, p)
    case None => None
    case Some(i) => Some(IndexFrom(s, i + 8))
  }

  /** `/problemset\/problem\/(\d+)/`: the digits after the leftmost
      `problemset/problem/` followed by one. */
  function ProblemsetContestMatch(s: string): (r: Option<string>)
    ensures r.Some? ==> r.value != [] && AllDigits(r.value)
    ensures r.None? <==> forall i :: 0 <= i <= |s| ==> !ProblemsetContestAt(s, i)
    ensures r.Some? ==> exists i: nat :: ProblemsetContestAt(s, i) && (forall j :: 0 <= j < i ==> !ProblemsetContestAt(s, j))
                                    && r.value == DigitsFrom(s, i + 19)
  {
    var p := (i: nat) => ProblemsetContestAt(s, i);
    assert forall i: nat :: p(i) == ProblemsetContestAt(s, i);
    match FirstIndex(0, |s|, p)
    case None => None
    case Some(i) => Some(DigitsFrom(s, i + 19))
  }

  /** The leftmost place the contest form can match is the one captured. */
  lemma {:induction false} ContestMatchAt(s: string, i: nat)
    requires ContestAt(s, i) && forall j :: 0 <= j < i ==> !ContestAt(s, j)
    ensures ContestMatch(s) == Some(DigitsFrom(s, i + 8))
  {
    var k: nat :| ContestAt(s, k) && (forall j :: 0 <= j < k ==> !ContestAt(s, j))
                  && ContestMatch(s).value == DigitsFrom(s, k + 8);
    assert !(k < i) && !(i < k);
  }

  /** The leftmost place the problem form can match is the one captured. */
  lemma {:induction false} ProblemMatchAt(s: string, i: nat)
    requires ProblemAt(s, i) && forall j :: 0 <= j < i ==> !ProblemAt(s, j)
    ensures ProblemMatch(s) == Some(IndexFrom(s, i + 8))
  {
    var k: nat :| ProblemAt(s, k) && (forall j :: 0 <= j < k ==> !ProblemAt(s, j))
                  && ProblemMatch(s).value == IndexFrom(s, k + 8);
    assert !(k < i) && !(i < k);
  }

  /** Where the index of the problemset form starts, for a match at `i`. */
  function ProblemsetIndexStart(s: string, i: nat): (k: nat)
    requires ProblemsetIndexAt(s, i)
    ensures 0 < k < |s| && IsUpperAscii(s[k]) && s[k - 1] == '/'
  {
    i + 19 + |DigitsFrom(s, i + 19)| + 1
  }

  /** `/problemset\/problem\/\d+\/([A-Z]\d?)/`: the index after the digits
      and slash of the leftmost match. */
  function ProblemsetIndexMatch(s: string): (r: Option<string>)
    ensures r.Some? ==> 1 <= |r.value| <= 2 && IsUpperAscii(r.value[0])
    ensures r.None? <==> forall i :: 0 <= i <= |s| ==> !ProblemsetIndexAt(s, i)
    ensures r.Some? ==> exists i: nat :: ProblemsetIndexAt(s, i) && (forall j :: 0 <= j < i ==> !ProblemsetIndexAt(s, j))
                                    && r.value == IndexFrom(s, ProblemsetIndexStart(s, i))
  {
    var p := (i: nat) => ProblemsetIndexAt(s, i);
    assert forall i: nat :: p(i) == ProblemsetIndexAt(s, i);
    match FirstIndex(0, |s|, p)
    case None => None
    case Some(i) => Some(IndexFrom(s, ProblemsetIndexStart(s, i)))
  }

  /** What the script knows about a problem. `problemIndex` is `undefined`
      when it was read from a page with no heading. */
  datatype ProblemInfo = ProblemInfo(contestId: string, problemIndex: Option<string>, division: string, title: string)

  /** `parseProblemInfo`: the contest form of the link, else the problemset
      form, else `Invalid problem URL`. */
  function ParseProblemInfo(href: string, text: string): (r: Result<ProblemInfo>)
    ensures r.Failure? ==> r.error == InvalidProblemUrl
    ensures r.Success? ==> var info := r.value;
              && info.contestId != [] && AllDigits(info.contestId)
              && info.problemIndex.Some? && 1 <= |info.problemIndex.value| <= 2
              && IsUpperAscii(info.problemIndex.value[0])
              && info.division == GuessDivision(info.contestId)
              && info.title == Trim(text)
    ensures r.Success? <==> (ContestMatch(href).Some? && ProblemMatch(href).Some?)
                            || (ProblemsetContestMatch(href).Some? && ProblemsetIndexMatch(href).Some?)
    ensures ContestMatch(href).Some? && ProblemMatch(href).Some? ==>
              r.Success? && r.value.contestId == ContestMatch(href).value
              && r.value.problemIndex == ProblemMatch(href)
    ensures (ContestMatch(href).None? || ProblemMatch(href).None?) && r.Success? ==>
              r.value.contestId == ProblemsetContestMatch(href).value
              && r.value.problemIndex == ProblemsetIndexMatch(href)
  {
    var c1, p1 := ContestMatch(href), ProblemMatch(href);
    var c := if c1.None? || p1.None? then ProblemsetContestMatch(href) else c1;
    var p := if c1.None? || p1.None? then ProblemsetIndexMatch(href) else p1;
    if c.None? || p.None? then Failure(InvalidProblemUrl)
    else Success(ProblemInfo(c.value, p, GuessDivision(c.value), Trim(text)))
  }

  // ---------------------------------------------------------------------
  // The problem from the current page

  /** Where `/\/contest\/(\d+)\/submission\/\d+/` can match. */
  predicate ContestSubmissionAt(s: string, i: nat) {
    OccursAt(s, "/contest/", i) && i + 9 <= |s|
    && var d := DigitsFrom(s, i + 9);
       d != [] && OccursAt(s, "/submission/", i + 9 + |d|)
       && i + 9 + |d| + 12 < |s| && IsDigit(s[i + 9 + |d| + 12])
  }

  /** The contest of `/\/contest\/(\d+)\/submission\/\d+/` at its leftmost
      match, `""` when the path has none. */
  function ContestFromPath(pathname: string): (contestId: string)
    ensures AllDigits(contestId)
  {
    var p := (i: nat) => ContestSubmissionAt(pathname, i);
    assert forall i: nat :: p(i) == ContestSubmissionAt(pathname, i);
    match FirstIndex(0, |pathname|, p)
    case None => ""
    case Some(i) => DigitsFrom(pathname, i + 9)
  }

  /** The leftmost `/contest/{c}/submission/{d}` in the path supplies the
      contest `c`, which is never empty. */
  lemma {:induction false} ContestFromPathAt(pathname: string, i: nat)
    requires ContestSubmissionAt(pathname, i)
    requires forall j :: 0 <= j < i ==> !ContestSubmissionAt(pathname, j)
    ensures ContestFromPath(pathname) == DigitsFrom(pathname, i + 9) != ""
  {
    var p := (k: nat) => ContestSubmissionAt(pathname, k);
    assert forall k: nat :: p(k) == ContestSubmissionAt(pathname, k);
    FirstIndexAt(0, |pathname|, p, i);
  }

  /** A path with no `/contest/{c}/submission/{d}` gives the empty contest. */
  lemma {:induction false} ContestFromPathNone(pathname: string)
    requires forall i :: 0 <= i <= |pathname| ==> !ContestSubmissionAt(pathname, i)
    ensures ContestFromPath(pathname) == ""
  {
    var p := (k: nat) => ContestSubmissionAt(pathname, k);
    assert forall k: nat :: p(k) == ContestSubmissionAt(pathname, k);
    FirstIndexNone(0, |pathname|, p);
  }

  /** The heading: the statement's title when present and not blank, else
      the first `div.title`'s, else `undefined`; trimmed either way. */
  function Heading(statementTitle: Option<string>, divTitle: Option<string>): (h: Option<string>)
    ensures h.None? <==> divTitle.None? && (statementTitle.None? || Trim(statementTitle.value) == "")
    ensures statementTitle.Some? && Trim(statementTitle.value) != "" ==> h == Some(Trim(statementTitle.value))
    ensures (statementTitle.None? || Trim(statementTitle.value) == "") && divTitle.Some? ==>
              h == Some(Trim(divTitle.value))
  {
    if statementTitle.Some? && Trim(statementTitle.value) != "" then Some(Trim(statementTitle.value))
    else if divTitle.Some? then Some(Trim(divTitle.value))
    else None
  }

  /** `heading?.split(/\s+/)[0]`: the heading's first word. */
  function FirstWord(heading: Option<string>): (word: Option<string>)
    ensures word.None? <==> heading.None?
    ensures word.Some? ==> StartsWith(heading.value, word.value)
    ensures word.Some? ==> forall i :: 0 <= i < |word.value| ==> !IsSpace(word.value[i])
    ensures word.Some? && |word.value| < |heading.value| ==> IsSpace(heading.value[|word.value|])
  {
    if heading.Some? then Some(heading.value[..Span(heading.value, NotSpace)]) else None
  }

  /** `extractProblemFromCurrentPage`: the contest from the path, and the
      problem from the heading: its first word is the index and the whole
      heading the title, `Problem {index}` when the heading is blank or
      missing. */
  function ProblemFromPage(pathname: string, statementTitle: Option<string>, divTitle: Option<string>): (info: ProblemInfo)
    ensures AllDigits(info.contestId) && info.division == GuessDivision(info.contestId)
    ensures info.title != ""
    ensures info.problemIndex == FirstWord(Heading(statementTitle, divTitle))
    ensures info.contestId == ContestFromPath(pathname)
    ensures var h := Heading(statementTitle, divTitle);
            h.Some? && h.value != "" ==> info.title == h.value
    ensures Heading(statementTitle, divTitle) == Some("") ==> info.title == "Problem "
    ensures Heading(statementTitle, divTitle).None? ==> info.title == "Problem undefined"
  {
    assert "Problem " + "undefined" == "Problem undefined";
    var contestId := ContestFromPath(pathname);
    var heading := Heading(statementTitle, divTitle);
    var problemIndex := FirstWord(heading);
    var title := if Truthy(heading) then heading.value else "Problem " + Interpolate(problemIndex);
    ProblemInfo(contestId, problemIndex, GuessDivision(contestId), title)
  }

  // ---------------------------------------------------------------------
  // Status-table rows

  /** `isRecentSubmission`; the Russian keyword is "a minute ago". */
  predicate IsRecent(text: string) {
    var t := Lower(text);
    Contains(t, "just now") || Contains(t, "seconds ago") || Contains(t, "1 minute ago")
    || Contains(t, "минуту назад")
  }

  datatype Link = Link(href: string, text: string)

  /** A table cell: its text, the first submission link in it, and the first
      problem or contest link in it. */
  datatype Cell = Cell(text: string, submissionLink: Option<string>, problemLink: Option<Link>)

  /** A table row: its cells and its whole text. */
  datatype Row = Row(cells: seq<Cell>, text: string)

  /** A row with at least four cells, one reading `Accepted` and one
      recent. */
  predicate RecentAccepted(rows: seq<Row>, i: nat) {
    i < |rows| && |rows[i].cells| >= 4
    && (exists k :: 0 <= k < |rows[i].cells| && Contains(Trim(rows[i].cells[k].text), "Accepted"))
    && (exists k :: 0 <= k < |rows[i].cells| && IsRecent(Trim(rows[i].cells[k].text)))
  }

  predicate MentionsAccepted(rows: seq<Row>, i: nat) {
    i < |rows| && Contains(rows[i].text, "Accepted")
  }

  function TailStart(n: nat): nat {
    if n >= 10 then n - 10 else 0
  }

  /** `findAcceptedSubmission`, as the index of the row found. */
  function FindAccepted(rows: seq<Row>): (r: Option<nat>)
    ensures r.Some? ==> r.value < |rows|
    ensures r.Some? ==> RecentAccepted(rows, r.value)
                        || (TailStart(|rows|) <= r.value && MentionsAccepted(rows, r.value))
  {
    var p := (i: nat) => RecentAccepted(rows, i);
    assert forall i: nat :: p(i) == RecentAccepted(rows, i);
    match FirstIndex(0, |rows|, p)
    case Some(i) => Some(i)
    case None =>
      var q := (i: nat) => MentionsAccepted(rows, i);
      assert forall i: nat :: q(i) == MentionsAccepted(rows, i);
      FirstIndex(TailStart(|rows|), |rows|, q)
  }

  /** The first recent accepted row wins wherever it is; without one, the
      first of the last ten rows mentioning `Accepted`, even a short one;
      and without either, nothing. */
  lemma {:induction false} FindAcceptedChoice(rows: seq<Row>, i: nat)
    requires i < |rows|
    ensures RecentAccepted(rows, i) && (forall j :: 0 <= j < i ==> !RecentAccepted(rows, j))
            ==> FindAccepted(rows) == Some(i)
    ensures (forall j :: 0 <= j < |rows| ==> !RecentAccepted(rows, j))
            && TailStart(|rows|) <= i && MentionsAccepted(rows, i)
            && (forall j :: TailStart(|rows|) <= j < i ==> !MentionsAccepted(rows, j))
            ==> FindAccepted(rows) == Some(i)
  {
    if RecentAccepted(rows, i) && (forall j :: 0 <= j < i ==> !RecentAccepted(rows, j)) {
      FindAcceptedRecent(rows, i);
    }
    if && (forall j :: 0 <= j < |rows| ==> !RecentAccepted(rows, j))
       && TailStart(|rows|) <= i && MentionsAccepted(rows, i)
       && (forall j :: TailStart(|rows|) <= j < i ==> !MentionsAccepted(rows, j))
    {
      FindAcceptedTail(rows, i);
    }
  }

  lemma {:induction false} FindAcceptedRecent(rows: seq<Row>, i: nat)
    requires RecentAccepted(rows, i) && forall j :: 0 <= j < i ==> !RecentAccepted(rows, j)
    ensures FindAccepted(rows) == Some(i)
  {
    var p := (k: nat) => RecentAccepted(rows, k);
    assert forall k: nat :: p(k) == RecentAccepted(rows, k);
    FirstIndexAt(0, |rows|, p, i);
  }

  lemma {:induction false} FindAcceptedTail(rows: seq<Row>, i: nat)
    requires forall j :: 0 <= j < |rows| ==> !RecentAccepted(rows, j)
    requires TailStart(|rows|) <= i && MentionsAccepted(rows, i)
    requires forall j :: TailStart(|rows|) <= j < i ==> !MentionsAccepted(rows, j)
    ensures FindAccepted(rows) == Some(i)
  {
    var p := (k: nat) => RecentAccepted(rows, k);
    assert forall k: nat :: p(k) == RecentAccepted(rows, k);
    assert !p(|rows|);
    FirstIndexNone(0, |rows|, p);
    var q := (k: nat) => MentionsAccepted(rows, k);
    assert forall k: nat :: q(k) == MentionsAccepted(rows, k);
    FirstIndexAt(TailStart(|rows|), |rows|, q, i);
  }

  /** No recent accepted row and no `Accepted` among the last ten rows:
      nothing is found, however many older rows were accepted. */
  lemma {:induction false} FindAcceptedNone(rows: seq<Row>)
    requires forall j :: 0 <= j < |rows| ==> !RecentAccepted(rows, j)
    requires forall j :: TailStart(|rows|) <= j < |rows| ==> !MentionsAccepted(rows, j)
    ensures FindAccepted(rows).None?
  {
    var p := (k: nat) => RecentAccepted(rows, k);
    assert forall k: nat :: p(k) == RecentAccepted(rows, k);
    assert !p(|rows|);
    FirstIndexNone(0, |rows|, p);
    var q := (k: nat) => MentionsAccepted(rows, k);
    assert forall k: nat :: q(k) == MentionsAccepted(rows, k);
    assert !q(|rows|);
    FirstIndexNone(TailStart(|rows|), |rows|, q);
  }

  // ---------------------------------------------------------------------
  // Language

  /** `detectLanguageFromPage` on the lower-cased page text. */
  function DetectLanguage(text: string): (r: Option<string>)
    ensures r.Some? ==> r.value in {"cpp", "java", "python", "go", "rust", "javascript"}
    ensures var t := Lower(text);
      r.None? <==> !(Contains(t, "c++") || Contains(t, "java") || Contains(t, "python")
                     || Contains(t, "go") || Contains(t, "rust") || Contains(t, "javascript"))
    ensures var t := Lower(text);
      r == Some("cpp") <==> Contains(t, "c++")
    ensures var t := Lower(text);
      r == Some("java") <==> !Contains(t, "c++") && Contains(t, "java")
    ensures var t := Lower(text);
      r == Some("python") <==> !Contains(t, "c++") && !Contains(t, "java") && Contains(t, "python")
    ensures var t := Lower(text);
      r == Some("go") <==> !Contains(t, "c++") && !Contains(t, "java") && !Contains(t, "python")
                           && Contains(t, "go")
    ensures var t := Lower(text);
      r == Some("rust") <==> !Contains(t, "c++") && !Contains(t, "java") && !Contains(t, "python")
                             && !Contains(t, "go") && Contains(t, "rust")
  {
    var t := Lower(text);
    if Contains(t, "c++") then Some("cpp")
    else if Contains(t, "java") then Some("java")
    else if Contains(t, "python") then Some("python")
    else if Contains(t, "go") then Some("go")
    else if Contains(t, "rust") then Some("rust")
    else if Contains(t, "javascript") then Some("javascript")
    else None
  }

  /** The `javascript` answer is unreachable: any text containing it
      contains `java`. */
  lemma {:induction false} NeverJavaScript(text: string)
    ensures DetectLanguage(text) != Some("javascript")
  {
    if Contains(Lower(text), "javascript") {
      assert "java" + "script" == "javascript";
      ContainsPrefix(Lower(text), "java", "script");
    }
  }

  /** The language a submission carries: the detected one, `cpp` when none
      is detected; always one with its own file extension. */
  function Language(text: string): (lang: string)
    ensures lang in {"cpp", "java", "python", "go", "rust"}
    ensures DetectLanguage(text).None? ==> lang == "cpp"
    ensures DetectLanguage(text).Some? ==> lang == DetectLanguage(text).value
  {
    NeverJavaScript(text);
    DetectLanguage(text).GetOr("cpp")
  }

  // ---------------------------------------------------------------------
  // Code

  /** The submission page as fetched: the text of its code block (the
      `pre#program-source-text`, else the first `pre`), or the fetch's
      error. */
  datatype CodePage = Fetched(block: Option<string>) | FetchFailed(error: string)

  /** The `k`-th `/`-separated segment of a path, `undefined` past the end. */
  function Segment(path: string, k: nat): Option<string> {
    var parts := Split(path, '/');
    if k < |parts| then Some(parts[k]) else None
  }

  /** The page `fetchSubmissionCode` asks for: the contest is the third
      segment of the current path, whatever page that is. */
  function CodeUrl(pathname: string, sid: string): string {
    Origin + "/contest/" + Interpolate(Segment(pathname, 2)) + "/submission/" + sid
  }

  /** `fetchSubmissionCode`: the request it sends, if any. */
  function CodeRequest(pathname: string, sid: Option<string>): (url: Option<string>)
    ensures url.Some? <==> Truthy(sid)
  {
    if Truthy(sid) then Some(CodeUrl(pathname, sid.value)) else None
  }

  /** `fetchSubmissionCode`: the trimmed code block, or a placeholder when
      there is no id or no non-blank block; a failed fetch rejects. */
  function FetchCode(sid: Option<string>, page: CodePage): (r: Result<string>)
    ensures !Truthy(sid) ==> r == Success(NoSubmissionId)
    ensures Truthy(sid) && page.FetchFailed? ==> r == Failure(page.error)
    ensures r.Success? ==> r.value != ""
    ensures Truthy(sid) && page.Fetched? ==>
              r == Success(if page.block.Some? && Trim(page.block.value) != "" then Trim(page.block.value)
                           else UnableToExtract)
  {
    if !Truthy(sid) then Success(NoSubmissionId)
    else match page
      case FetchFailed(e) => Failure(e)
      case Fetched(block) =>
        var code := if block.Some? then Trim(block.value) else "";
        Success(if code != "" then code else UnableToExtract)
  }

  // ---------------------------------------------------------------------
  // Extraction

  /** The parts of the current page the script reads. */
  datatype Page = Page(pathname: string, href: string, statementTitle: Option<string>,
                       divTitle: Option<string>, bodyText: string)

  /** The last `/`-separated segment: `href.split('/').pop()`. */
  function LastSegment(href: string): (seg: string)
    ensures forall i :: 0 <= i < |seg| ==> seg[i] != '/'
    ensures seg == href <==> forall i :: 0 <= i < |href| ==> href[i] != '/'
  {
    var parts := Split(href, '/');
    parts[|parts| - 1]
  }

  /** Cell `k` holds a submission link whose last segment is `sid`, and no
      later cell holds one. */
  predicate IdFrom(cells: seq<Cell>, k: nat, sid: string) {
    && k < |cells| && cells[k].submissionLink.Some?
    && sid == LastSegment(cells[k].submissionLink.value)
    && forall j :: k < j < |cells| ==> cells[j].submissionLink.None?
  }

  predicate NoIdLink(cells: seq<Cell>) {
    forall k :: 0 <= k < |cells| ==> cells[k].submissionLink.None?
  }

  /** The submission id: from the last cell holding a submission link, as
      each such cell overwrites the previous one. */
  function SubmissionId(cells: seq<Cell>): (sid: Option<string>)
    ensures sid.None? <==> NoIdLink(cells)
    ensures sid.Some? ==> exists k :: IdFrom(cells, k, sid.value)
    decreases |cells|
  {
    if cells == [] then None
    else
      var last := cells[|cells| - 1];
      if last.submissionLink.Some? then
        assert IdFrom(cells, |cells| - 1, LastSegment(last.submissionLink.value));
        Some(LastSegment(last.submissionLink.value))
      else
        var sid := SubmissionId(cells[..|cells| - 1]);
        assert cells == cells[..|cells| - 1] + [last];
        SubmissionIdExtends(cells[..|cells| - 1], last, sid);
        sid
  }

  /** A cell without a submission link added at the end leaves the id as
      the earlier cells give it. */
  lemma {:induction false} SubmissionIdExtends(init: seq<Cell>, last: Cell, sid: Option<string>)
    requires last.submissionLink.None?
    requires sid.None? <==> NoIdLink(init)
    requires sid.Some? ==> exists k :: IdFrom(init, k, sid.value)
    ensures sid.None? <==> NoIdLink(init + [last])
    ensures sid.Some? ==> exists k :: IdFrom(init + [last], k, sid.value)
  {
    var cells := init + [last];
    assert forall k :: 0 <= k < |init| ==> cells[k] == init[k];
    if sid.Some? {
      var k :| IdFrom(init, k, sid.value);
      assert IdFrom(cells, k, sid.value);
    }
  }

  predicate ProblemLinkAt(cells: seq<Cell>, i: nat) {
    i < |cells| && cells[i].problemLink.Some?
  }

  /** The problem: from the first cell holding a problem link (a link that
      does not parse rejects the whole extraction), else from the page. */
  function RowProblem(cells: seq<Cell>, page: Page): (r: Result<ProblemInfo>)
    ensures (forall k :: 0 <= k < |cells| ==> cells[k].problemLink.None?) ==>
              r == Success(ProblemFromPage(page.pathname, page.statementTitle, page.divTitle))
    ensures r.Failure? ==> r.error == InvalidProblemUrl
  {
    var p := (i: nat) => ProblemLinkAt(cells, i);
    assert forall i: nat :: p(i) == ProblemLinkAt(cells, i);
    match FirstIndex(0, |cells|, p)
    case None => Success(ProblemFromPage(page.pathname, page.statementTitle, page.divTitle))
    case Some(i) =>
      var link := cells[i].problemLink.value;
      ParseProblemInfo(link.href, link.text)
  }

  /** The first cell holding a problem link decides the problem: its link
      is parsed, and later links are never looked at. */
  lemma {:induction false} RowProblemFirstLink(cells: seq<Cell>, page: Page, i: nat)
    requires i < |cells| && cells[i].problemLink.Some?
    requires forall k :: 0 <= k < i ==> cells[k].problemLink.None?
    ensures RowProblem(cells, page) == ParseProblemInfo(cells[i].problemLink.value.href, cells[i].problemLink.value.text)
  {
    var p := (k: nat) => ProblemLinkAt(cells, k);
    assert forall k: nat :: p(k) == ProblemLinkAt(cells, k);
    FirstIndexAt(0, |cells|, p, i);
  }

  /** The canonical submission link when there is an id, else the page. */
  function SubmissionUrl(contestId: string, sid: Option<string>, href: string): (url: string)
    ensures !Truthy(sid) ==> url == href
    ensures Truthy(sid) ==> var prefix := Origin + "/contest/" + contestId + "/submission/";
              StartsWith(url, prefix) && url[|prefix|..] == sid.value
  {
    if Truthy(sid) then Origin + "/contest/" + contestId + "/submission/" + sid.value else href
  }

  function Assemble(info: ProblemInfo, language: string, code: string, url: string, now: int): (s: Submission)
    ensures s.platform == "codeforces" && s.difficulty.None?
  {
    Submission("codeforces", info.title, language, code, url, now,
               None, Some(info.contestId), info.problemIndex, Some(info.division))
  }

  /** `extractSubmissionData` for the row found. */
  function ExtractFromRow(row: Row, page: Page, code: CodePage, now: int): (r: Result<Submission>)
    ensures r.Success? ==> r.value.platform == "codeforces" && r.value.timestamp == now
    ensures r.Success? ==> r.value.code != "" && r.value.contestId.Some?
    ensures r.Success? ==> r.value.language in {"cpp", "java", "python", "go", "rust"}
    ensures r.Success? && !Truthy(SubmissionId(row.cells)) ==> r.value.url == page.href
    ensures r.Success? && Truthy(SubmissionId(row.cells)) ==>
              r.value.url == Origin + "/contest/" + r.value.contestId.value + "/submission/" + SubmissionId(row.cells).value
    ensures r.Success? <==> RowProblem(row.cells, page).Success? && FetchCode(SubmissionId(row.cells), code).Success?
    ensures RowProblem(row.cells, page).Failure? ==> r == Failure(InvalidProblemUrl)
    ensures RowProblem(row.cells, page).Success? && FetchCode(SubmissionId(row.cells), code).Failure? ==>
              r == Failure(FetchCode(SubmissionId(row.cells), code).error)
    ensures r.Success? ==> var info := RowProblem(row.cells, page).value;
              && r.value.title == info.title && r.value.contestId == Some(info.contestId)
              && r.value.problemIndex == info.problemIndex && r.value.division == Some(info.division)
              && r.value.code == FetchCode(SubmissionId(row.cells), code).value
              && r.value.language == Language(page.bodyText)
  {
    var sid := SubmissionId(row.cells);
    var info :- RowProblem(row.cells, page);
    var text :- FetchCode(sid, code);
    Success(Assemble(info, Language(page.bodyText), text, SubmissionUrl(info.contestId, sid, page.href), now))
  }

  /** A row whose problem link parses gives a submission the worker can
      file: `codeforces/{division}/contest_{id}/{index}.{ext}`. */
  lemma {:induction false} RowWithLinkHasPath(row: Row, page: Page, code: CodePage, now: int, i: nat)
    requires i < |row.cells| && row.cells[i].problemLink.Some?
    ensures var r := ExtractFromRow(row, page, code, now);
            r.Success? ==> FilePath(r.value).Success?
  {
    if ExtractFromRow(row, page, code, now).Success? {
      var p := (k: nat) => ProblemLinkAt(row.cells, k);
      assert forall k: nat :: p(k) == ProblemLinkAt(row.cells, k);
      assert p(i);
      var info := RowProblem(row.cells, page);
      assert info.Success?;
      assert info.value.problemIndex.Some?;
    }
  }

  /** A row with no problem link on a page with no heading gives a
      submission without a problem index, which the worker then fails to
      file. */
  lemma {:induction false} RowWithoutProblemFails(row: Row, page: Page, code: CodePage, now: int)
    requires forall k :: 0 <= k < |row.cells| ==> row.cells[k].problemLink.None?
    requires page.statementTitle.None? && page.divTitle.None?
    ensures var r := ExtractFromRow(row, page, code, now);
            r.Success? ==> r.value.title == "Problem undefined" && FilePath(r.value) == Failure(ProblemIndexTypeError)
  {
  }

  /** Where `/\/submission\/(\d+)/` can match. */
  predicate SubmissionAt(s: string, i: nat) {
    OccursAt(s, "/submission/", i) && i + 12 < |s| && IsDigit(s[i + 12])
  }

  /** `/\/submission\/(\d+)/`: the digits after the leftmost `/submission/`
      followed by one. */
  function SubmissionMatch(pathname: string): (sid: Option<string>)
    ensures sid.Some? ==> sid.value != [] && AllDigits(sid.value)
    ensures sid.None? <==> forall i :: 0 <= i <= |pathname| ==> !SubmissionAt(pathname, i)
    ensures sid.Some? ==>
              exists i: nat :: SubmissionAt(pathname, i) && (forall j :: 0 <= j < i ==> !SubmissionAt(pathname, j))
                               && sid.value == DigitsFrom(pathname, i + 12)
  {
    var p := (i: nat) => SubmissionAt(pathname, i);
    assert forall i: nat :: p(i) == SubmissionAt(pathname, i);
    match FirstIndex(0, |pathname|, p)
    case None => None
    case Some(i) => Some(DigitsFrom(pathname, i + 12))
  }

  /** `isSubmissionPage`. */
  predicate IsSubmissionPage(pathname: string) {
    SubmissionMatch(pathname).Some?
  }

  /** `isStatusPage`. */
  predicate IsStatusPage(pathname: string) {
    Contains(pathname, "/status") || Contains(pathname, "/my") || Contains(pathname, "/submissions")
  }

  /** The submission of `handleSingleSubmissionPage`: the id from the
      path, the problem from the page, the page's own URL. */
  function ExtractFromSubmissionPage(page: Page, code: CodePage, now: int): (r: Result<Submission>)
    ensures !IsSubmissionPage(page.pathname) ==> r == Failure(NoMatchTypeError)
    ensures IsSubmissionPage(page.pathname) && code.FetchFailed? ==> r == Failure(code.error)
    ensures r.Success? ==> r.value.url == page.href
    ensures r.Success? ==> r.value.platform == "codeforces" && r.value.timestamp == now
  {
    match SubmissionMatch(page.pathname)
    case None => Failure(NoMatchTypeError)
    case Some(sid) =>
      var text :- FetchCode(Some(sid), code);
      var info := ProblemFromPage(page.pathname, page.statementTitle, page.divTitle);
      Success(Assemble(info, Language(page.bodyText), text, page.href, now))
  }

  /** A submission page whose code page was fetched always yields a
      submission, and its fields are the page's problem, the fetched code
      and the detected language. */
  lemma SubmissionPageFields(page: Page, code: CodePage, now: int)
    ensures var r := ExtractFromSubmissionPage(page, code, now);
            r.Success? <==> IsSubmissionPage(page.pathname) && code.Fetched?
    ensures var r := ExtractFromSubmissionPage(page, code, now);
            r.Success? ==> var info := ProblemFromPage(page.pathname, page.statementTitle, page.divTitle);
              && r.value.title == info.title && r.value.contestId == Some(info.contestId)
              && r.value.problemIndex == info.problemIndex && r.value.division == Some(info.division)
              && r.value.code == FetchCode(SubmissionMatch(page.pathname), code).value
              && r.value.language == Language(page.bodyText)
  {
  }

  // ---------------------------------------------------------------------
  // Guard

  /** What can happen to the watcher: the status-page poll handing a row's
      extraction outcome to `handleAcceptedSubmission`, a submission page
      being handled, or the worker's response arriving. */
  datatype Event =
    | Detected(candidate: Result<Submission>)
    | Opened(candidate: Result<Submission>)
    | Responded

  /** `handleAcceptedSubmission`, `handleSingleSubmissionPage` and their
      `sendMessage` callbacks. A duplicate detection returns with the flag
      still set and no callback to clear it. */
  function Step(w: Watcher, e: Event): (v: Watcher)
    ensures !e.Responded? && w.isProcessing ==> v == w
    ensures e.Detected? && !w.isProcessing && e.candidate.Success? ==>
              (IsNew(w.last, e.candidate.value) <==>
                 (v.sent == w.sent + [e.candidate.value] && v.last == Some(e.candidate.value)
                  && v.outstanding == w.outstanding + 1))
    ensures e.Detected? && !w.isProcessing && e.candidate.Success? && !IsNew(w.last, e.candidate.value) ==>
              v == w.(isProcessing := true)
    ensures e.Detected? && !w.isProcessing && e.candidate.Success? && IsNew(w.last, e.candidate.value) ==>
              v == Send(w, e.candidate.value).(last := Some(e.candidate.value))
    ensures e.Opened? && !w.isProcessing && e.candidate.Success? ==>
              v == Send(w, e.candidate.value) && v.last == w.last
    ensures !e.Responded? && !w.isProcessing && e.candidate.Failure? ==> v == w
    ensures e.Responded? ==> v == Respond(w)
  {
    match e
    case Responded => Respond(w)
    case Detected(candidate) =>
      if w.isProcessing then w
      else (match candidate
        case Failure(_) => w.(isProcessing := false)
        case Success(s) =>
          if !IsNew(w.last, s) then w.(isProcessing := true)
          else Send(w, s).(last := Some(s)))
    case Opened(candidate) =>
      if w.isProcessing then w
      else match candidate
        case Failure(_) => w.(isProcessing := false)
        case Success(s) => Send(w, s)
  }

  function Run(w: Watcher, events: seq<Event>): Watcher
    decreases |events|
  {
    if events == [] then w else Run(Step(w, events[0]), events[1..])
  }

  /** At most one callback pending, and the flag held while one is. */
  predicate Sane(w: Watcher) {
    w.outstanding <= 1 && (w.outstanding == 1 ==> w.isProcessing)
  }

  lemma {:induction false} StepSane(w: Watcher, e: Event)
    requires Sane(w)
    ensures Sane(Step(w, e))
  {
  }

  /** A duplicate detection on an idle watcher leaves it stuck. */
  lemma {:induction false} DuplicateSticks(w: Watcher, s: Submission)
    requires !w.isProcessing && w.outstanding == 0 && !IsNew(w.last, s)
    ensures Stuck(Step(w, Detected(Success(s))))
  {
  }

  /** Once stuck, the watcher ignores everything: nothing more is ever sent
      from this page. */
  lemma {:induction false} StuckForever(w: Watcher, events: seq<Event>)
    requires Stuck(w)
    ensures Run(w, events) == w
    decreases |events|
  {
    if events != [] {
      assert Step(w, events[0]) == w;
      StuckForever(w, events[1..]);
    }
  }

  /** The stuck state is reached by the same problem being detected again
      within the window after the first was handed on and answered: the
      poll finds the row again, stamped with a later time. */
  lemma {:induction false} StuckReachable(s: Submission, again: Submission)
    requires again.contestId == s.contestId && again.problemIndex == s.problemIndex
    requires Abs(again.timestamp - s.timestamp) <= Window
    ensures var w := Run(Initial, [Detected(Success(s)), Responded, Detected(Success(again))]);
            Stuck(w) && w.sent == [s]
  {
    var e := [Detected(Success(s)), Responded, Detected(Success(again))];
    var w1 := Step(Initial, e[0]);
    assert w1 == Watcher(true, Some(s), 1, [s]);
    var w2 := Step(w1, e[1]);
    assert w2 == Watcher(false, Some(s), 0, [s]);
    assert !IsNew(Some(s), again);
    var w3 := Step(w2, e[2]);
    assert Stuck(w3) && w3.sent == [s];
    assert Run(Initial, e) == Run(w1, e[1..]);
    assert Run(w1, e[1..]) == Run(w2, e[2..]);
    assert Run(w2, e[2..]) == Run(w3, e[3..]);
  }

  /** A link `/contest/{c}/problem/{x}`: the contest form matches, so its
      contest and index are the ones taken. */
  lemma {:induction false} ContestLinkParses(c: string, x: string, text: string)
    requires c != [] && AllDigits(c)
    requires 1 <= |x| <= 2 && IsUpperAscii(x[0]) && (|x| == 2 ==> IsDigit(x[1]))
    ensures ParseProblemInfo("/contest/" + c + "/problem/" + x, text)
            == Success(ProblemInfo(c, Some(x), GuessDivision(c), Trim(text)))
  {
    ContestLinkContest(c, x);
    ContestLinkProblem(c, x);
  }

  /** One character that differs rules an occurrence out. */
  lemma {:induction false} MismatchAt(s: string, p: string, i: nat, k: nat)
    requires k < |p| && (i + k < |s| ==> s[i + k] != p[k])
    ensures !OccursAt(s, p, i)
  {
    if i + |p| <= |s| {
      assert s[i..i + |p|][k] != p[k];
    }
  }

  lemma {:induction false} ContestLinkContest(c: string, x: string)
    requires c != [] && AllDigits(c)
    requires |x| >= 1
    ensures ContestMatch("/contest/" + c + "/problem/" + x) == Some(c)
  {
    var s := "/contest/" + c + "/problem/" + x;
    ContestFormAtOne(c, x);
    ContestMatchAt(s, 1);
    ContestDigits(c, x);
  }

  /** In `/contest/{c}/…` the contest form matches first at position 1. */
  lemma {:induction false} ContestFormAtOne(c: string, x: string)
    requires c != [] && AllDigits(c)
    ensures var s := "/contest/" + c + "/problem/" + x;
            ContestAt(s, 1) && forall j :: 0 <= j < 1 ==> !ContestAt(s, j)
  {
    var s := "/contest/" + c + "/problem/" + x;
    assert s[1..9] == "contest/";
    MismatchAt(s, "contest/", 0, 0);
  }

  /** In `/contest/{c}/…` the digits after `contest/` are `c`. */
  lemma {:induction false} ContestDigits(c: string, x: string)
    requires AllDigits(c)
    ensures var s := "/contest/" + c + "/problem/" + x;
            9 <= |s| && DigitsFrom(s, 9) == c
  {
    var s := "/contest/" + c + "/problem/" + x;
    assert s[9..9 + |c|] == c;
    DigitsBeforeSlash(s, 9, c);
  }

  /** The digit run at `i` is `d` when `d` is followed by a slash there. */
  lemma {:induction false} DigitsBeforeSlash(s: string, i: nat, d: string)
    requires AllDigits(d) && i + |d| < |s| && s[i..i + |d|] == d && s[i + |d|] == '/'
    ensures DigitsFrom(s, i) == d
  {
    var r := DigitsFrom(s, i);
    assert forall k :: 0 <= k < |d| ==> s[i + k] == d[k];
    assert |r| == |d|;
  }

  lemma {:induction false} ContestLinkProblem(c: string, x: string)
    requires AllDigits(c)
    requires 1 <= |x| <= 2 && IsUpperAscii(x[0]) && (|x| == 2 ==> IsDigit(x[1]))
    ensures ProblemMatch("/contest/" + c + "/problem/" + x) == Some(x)
  {
    var s := "/contest/" + c + "/problem/" + x;
    ProblemFormAt(c, x);
    NoProblemBefore(c, x);
    ProblemMatchAt(s, 10 + |c|);
  }

  /** In `/contest/{c}/problem/{x}` the problem form matches at `problem/`,
      capturing `x`. */
  lemma {:induction false} ProblemFormAt(c: string, x: string)
    requires 1 <= |x| <= 2 && IsUpperAscii(x[0]) && (|x| == 2 ==> IsDigit(x[1]))
    ensures var s := "/contest/" + c + "/problem/" + x;
            ProblemAt(s, 10 + |c|) && IndexFrom(s, 18 + |c|) == x
  {
    var s := "/contest/" + c + "/problem/" + x;
    var k := 10 + |c|;
    assert s[k..k + 8] == "problem/";
    assert s[k + 8..] == x;
  }

  /** No `problem/` starts inside `/contest/{c}/`. */
  lemma {:induction false} NoProblemBefore(c: string, x: string)
    requires AllDigits(c)
    ensures var s := "/contest/" + c + "/problem/" + x;
            forall j :: 0 <= j < 10 + |c| ==> !ProblemAt(s, j)
  {
    var s := "/contest/" + c + "/problem/" + x;
    forall j: nat | j < 10 + |c| ensures !ProblemAt(s, j) {
      assert s[j] != 'p' by {
        if j < 9 { assert j == 0 || j == 1 || j == 2 || j == 3 || j == 4 || j == 5 || j == 6 || j == 7 || j == 8; }
      }
      MismatchAt(s, "problem/", j, 0);
    }
  }

  /** Problem C2 of contest 1234, a Division 2 contest. */
  lemma {:induction false} ContestLinkExample(text: string)
    ensures ParseProblemInfo("/contest/1234/problem/C2", text)
            == Success(ProblemInfo("1234", Some("C2"), "div2", Trim(text)))
  {
    assert "/contest/" + "1234" + "/problem/" + "C2" == "/contest/1234/problem/C2";
    ContestLinkParses("1234", "C2", text);
    Rendered1234();
    DivisionThresholds(1234);
  }

  lemma {:induction false} Rendered1234()
    ensures NatToDecimal(1234) == "1234"
  {
    assert NatToDecimal(1) == "1";
    assert NatToDecimal(12) == NatToDecimal(1) + "2" == "12";
    assert NatToDecimal(123) == NatToDecimal(12) + "3" == "123";
    assert NatToDecimal(1234) == NatToDecimal(123) + "4" == "1234";
  }

  /** A link with no `problem/` in it matches neither problem form, so it
      is rejected whatever contest it names. */
  lemma {:induction false} NoProblemSegmentRejects(href: string, text: string)
    requires forall i :: 0 <= i <= |href| ==> !OccursAt(href, "problem/", i)
    ensures ParseProblemInfo(href, text) == Failure(InvalidProblemUrl)
  {
    NoProblemMatch(href);
    NoProblemsetMatch(href);
  }

  lemma {:induction false} NoProblemMatch(href: string)
    requires forall i :: 0 <= i <= |href| ==> !OccursAt(href, "problem/", i)
    ensures ProblemMatch(href).None?
  {
  }

  lemma {:induction false} NoProblemsetMatch(href: string)
    requires forall i :: 0 <= i <= |href| ==> !OccursAt(href, "problem/", i)
    ensures ProblemsetContestMatch(href).None?
  {
    forall i: nat | i <= |href| ensures !ProblemsetContestAt(href, i) {
      ProblemInsideProblemset(href, i);
    }
  }

  /** `problemset/problem/` holds `problem/` eleven characters in. */
  lemma {:induction false} ProblemInsideProblemset(s: string, i: nat)
    requires !OccursAt(s, "problem/", i + 11)
    ensures !OccursAt(s, "problemset/problem/", i)
  {
    if i + 19 <= |s| {
      assert s[i..i + 19][11..] == s[i + 11..i + 19];
      assert "problemset/problem/"[11..] == "problem/";
    }
  }

  /** The selector for a cell's problem link also accepts any link holding
      `/contest/`, so a submission link `/contest/{c}/submission/{id}` that
      comes before the problem's own link is the one parsed, and the row is
      rejected. */
  lemma {:induction false} SubmissionLinkRejected(c: string, id: string, text: string)
    requires AllDigits(c) && AllDigits(id)
    ensures ParseProblemInfo("/contest/" + c + "/submission/" + id, text) == Failure(InvalidProblemUrl)
  {
    var s := "/contest/" + c + "/submission/" + id;
    forall i: nat | i <= |s| ensures !OccursAt(s, "problem/", i) {
      assert i < |s| ==> s[i] != 'p' by {
        if i < 9 {
          assert i == 0 || i == 1 || i == 2 || i == 3 || i == 4 || i == 5 || i == 6 || i == 7 || i == 8;
        } else if 9 + |c| <= i < 21 + |c| {
          var m := i - 9 - |c|;
          assert s[i] == "/submission/"[m];
          assert m == 0 || m == 1 || m == 2 || m == 3 || m == 4 || m == 5 || m == 6 || m == 7 || m == 8 || m == 9 || m == 10 || m == 11;
        }
      }
      MismatchAt(s, "problem/", i, 0);
    }
    NoProblemSegmentRejects(s, text);
  }
}
