/** The pure half of the background worker (`GitHubService` in
    public/background.js): the repository path a submission is written to and
    the file content written there. */
module Formatter {
  import opened Wrappers
  import opened Text
  import opened Submissions

  // ---------------------------------------------------------------------
  // Title sanitiser: lower-case, drop everything outside `[a-z0-9\s]`, turn
  // each whitespace run into `_`, collapse `_` runs, drop one leading and one
  // trailing `_`.

  /** The characters the first replacement keeps, `[a-z0-9\s]`. */
  predicate IsKept(c: char) { IsLowerAscii(c) || IsDigit(c) || IsSpace(c) }

  predicate IsAlnum(c: char) { IsLowerAscii(c) || IsDigit(c) }

  predicate IsUnderscore(c: char) { c == '_' }

  predicate NotUnderscore(c: char) { c != '_' }

  predicate NotSpace(c: char) { !IsSpace(c) }

  /** The alphabet of a sanitised title, `[a-z0-9_]`. */
  predicate IsNameChar(c: char) { IsAlnum(c) || c == '_' }

  predicate NoDoubleUnderscore(s: string) {
    forall i :: 0 <= i < |s| - 1 ==> !(s[i] == '_' && s[i + 1] == '_')
  }

  /** The characters of `s` that satisfy `p`, in order. */
  function Filter(s: string, p: char -> bool): (r: string)
    ensures |r| <= |s|
    ensures forall i :: 0 <= i < |r| ==> p(r[i])
    decreases |s|
  {
    if s == [] then [] else (if p(s[0]) then [s[0]] else []) + Filter(s[1..], p)
  }

  lemma {:induction false} FilterAppend(a: string, b: string, p: char -> bool)
    ensures Filter(a + b, p) == Filter(a, p) + Filter(b, p)
    decreases |a|
  {
    if a == [] {
      assert a + b == b;
    } else {
      assert (a + b)[1..] == a[1..] + b;
      FilterAppend(a[1..], b, p);
    }
  }

  lemma {:induction false} FilterNone(s: string, p: char -> bool)
    requires forall i :: 0 <= i < |s| ==> !p(s[i])
    ensures Filter(s, p) == []
    decreases |s|
  {
    if s != [] {
      FilterNone(s[1..], p);
    }
  }

  /** `.replace(/\s+/g, '_')`. */
  function SpacesToUnderscore(s: string): (r: string)
    ensures |r| <= |s|
    decreases |s|
  {
    if s == [] then []
    else if IsSpace(s[0]) then
      var n := Span(s, IsSpace);
      ['_'] + SpacesToUnderscore(s[n..])
    else [s[0]] + SpacesToUnderscore(s[1..])
  }

  /** A whitespace run becomes one underscore; any other character is kept. */
  lemma SpacedHead(s: string)
    requires |s| > 0
    ensures var r := SpacesToUnderscore(s);
            |r| > 0 && r[0] == (if IsSpace(s[0]) then '_' else s[0])
  {
  }

  lemma {:induction false} SpacedNameChars(s: string)
    requires forall i :: 0 <= i < |s| ==> IsKept(s[i])
    ensures forall i :: 0 <= i < |SpacesToUnderscore(s)| ==> IsNameChar(SpacesToUnderscore(s)[i])
    decreases |s|
  {
    if s != [] {
      var n := if IsSpace(s[0]) then Span(s, IsSpace) else 1;
      SpacedNameChars(s[n..]);
      assert SpacesToUnderscore(s) == [if IsSpace(s[0]) then '_' else s[0]] + SpacesToUnderscore(s[n..]);
    }
  }

  lemma {:induction false} SpacedNoDouble(s: string)
    requires forall i :: 0 <= i < |s| ==> s[i] != '_'
    ensures NoDoubleUnderscore(SpacesToUnderscore(s))
    decreases |s|
  {
    if s != [] {
      var n := if IsSpace(s[0]) then Span(s, IsSpace) else 1;
      var rest := SpacesToUnderscore(s[n..]);
      SpacedNoDouble(s[n..]);
      assert SpacesToUnderscore(s) == [if IsSpace(s[0]) then '_' else s[0]] + rest;
      if IsSpace(s[0]) && n < |s| {
        SpacedHead(s[n..]);
      }
      ConsNoDouble(if IsSpace(s[0]) then '_' else s[0], rest);
    }
  }

  /** Putting a character in front keeps a string free of `__` unless both
      it and the string's first character are underscores. */
  lemma ConsNoDouble(c: char, t: string)
    requires NoDoubleUnderscore(t)
    requires c == '_' && |t| > 0 ==> t[0] != '_'
    ensures NoDoubleUnderscore([c] + t)
  {
    var u := [c] + t;
    assert forall i :: 1 <= i < |u| ==> u[i] == t[i - 1];
  }

  /** `.replace(/_+/g, '_')`. */
  function CollapseUnderscores(s: string): (r: string)
    ensures |r| <= |s|
    decreases |s|
  {
    if s == [] then []
    else if s[0] == '_' then
      var n := Span(s, IsUnderscore);
      ['_'] + CollapseUnderscores(s[n..])
    else [s[0]] + CollapseUnderscores(s[1..])
  }

  lemma CollapsedHead(s: string)
    requires |s| > 0
    ensures var r := CollapseUnderscores(s);
            |r| > 0 && r[0] == s[0]
  {
  }

  lemma {:induction false} CollapsedNameChars(s: string)
    requires forall i :: 0 <= i < |s| ==> IsNameChar(s[i])
    ensures forall i :: 0 <= i < |CollapseUnderscores(s)| ==> IsNameChar(CollapseUnderscores(s)[i])
    decreases |s|
  {
    if s != [] {
      var n := if s[0] == '_' then Span(s, IsUnderscore) else 1;
      CollapsedNameChars(s[n..]);
      assert CollapseUnderscores(s) == [s[0]] + CollapseUnderscores(s[n..]);
    }
  }

  lemma {:induction false} CollapsedNoDouble(s: string)
    ensures NoDoubleUnderscore(CollapseUnderscores(s))
    decreases |s|
  {
    if s != [] {
      var n := if s[0] == '_' then Span(s, IsUnderscore) else 1;
      var rest := CollapseUnderscores(s[n..]);
      CollapsedNoDouble(s[n..]);
      assert CollapseUnderscores(s) == [s[0]] + rest;
      if s[0] == '_' && n < |s| {
        CollapsedHead(s[n..]);
      }
      ConsNoDouble(s[0], rest);
    }
  }

  /** Without `__` there is nothing to collapse. */
  lemma {:induction false} CollapseFixed(s: string)
    requires NoDoubleUnderscore(s)
    ensures CollapseUnderscores(s) == s
    decreases |s|
  {
    if s != [] {
      if s[0] == '_' {
        assert Span(s, IsUnderscore) == 1;
      }
      assert NoDoubleUnderscore(s[1..]);
      CollapseFixed(s[1..]);
    }
  }

  /** `.replace(/^_|_$/g, '')`: one leading and one trailing underscore go. */
  function TrimUnderscore(s: string): (r: string)
    ensures |r| <= |s|
  {
    var t := if |s| > 0 && s[0] == '_' then s[1..] else s;
    if |t| > 0 && t[|t| - 1] == '_' then t[..|t| - 1] else t
  }

  lemma TrimmedEnds(s: string)
    requires NoDoubleUnderscore(s)
    ensures var r := TrimUnderscore(s);
            NoDoubleUnderscore(r) && (r == [] || (r[0] != '_' && r[|r| - 1] != '_'))
  {
  }

  lemma TrimmedNameChars(s: string)
    requires forall i :: 0 <= i < |s| ==> IsNameChar(s[i])
    ensures forall i :: 0 <= i < |TrimUnderscore(s)| ==> IsNameChar(TrimUnderscore(s)[i])
  {
  }

  /** Trimming deletes underscores only. */
  lemma {:induction false} TrimmedContent(s: string)
    ensures Filter(TrimUnderscore(s), NotUnderscore) == Filter(s, NotUnderscore)
  {
    var t := if |s| > 0 && s[0] == '_' then s[1..] else s;
    if |s| > 0 && s[0] == '_' {
      assert Filter(s, NotUnderscore) == Filter(s[1..], NotUnderscore);
    }
    if |t| > 0 && t[|t| - 1] == '_' {
      TrailingUnderscoreDropped(t);
    }
  }

  lemma {:induction false} TrailingUnderscoreDropped(t: string)
    requires |t| > 0 && t[|t| - 1] == '_'
    ensures Filter(t[..|t| - 1], NotUnderscore) == Filter(t, NotUnderscore)
  {
    var r := t[..|t| - 1];
    assert t == r + ['_'];
    FilterAppend(r, ['_'], NotUnderscore);
  }

  /** `sanitize` of `generateFilePath`. */
  function Sanitize(title: string): (r: string)
    ensures forall i :: 0 <= i < |r| ==> IsNameChar(r[i])
    ensures NoDoubleUnderscore(r)
    ensures r == [] || (r[0] != '_' && r[|r| - 1] != '_')
  {
    var kept := Filter(Lower(title), IsKept);
    var spaced := SpacesToUnderscore(kept);
    var collapsed := CollapseUnderscores(spaced);
    SpacedNameChars(kept);
    CollapsedNameChars(spaced);
    CollapsedNoDouble(spaced);
    TrimmedNameChars(collapsed);
    TrimmedEnds(collapsed);
    TrimUnderscore(collapsed)
  }

  lemma {:induction false} KeptWithoutSpaces(s: string)
    ensures Filter(Filter(s, IsKept), NotSpace) == Filter(s, IsAlnum)
    decreases |s|
  {
    if s != [] {
      KeptWithoutSpaces(s[1..]);
      var head := if IsKept(s[0]) then [s[0]] else [];
      FilterAppend(head, Filter(s[1..], IsKept), NotSpace);
    }
  }

  lemma {:induction false} UnderscoresStandForSpaces(s: string)
    requires forall i :: 0 <= i < |s| ==> s[i] != '_'
    ensures Filter(SpacesToUnderscore(s), NotUnderscore) == Filter(s, NotSpace)
    decreases |s|
  {
    if s != [] {
      if IsSpace(s[0]) {
        var n := Span(s, IsSpace);
        UnderscoresStandForSpaces(s[n..]);
        SpaceRunDropped(s);
      } else {
        UnderscoresStandForSpaces(s[1..]);
        FilterAppend([s[0]], SpacesToUnderscore(s[1..]), NotUnderscore);
      }
    }
  }

  /** A leading whitespace run leaves no trace once spaces and underscores
      are deleted. */
  lemma {:induction false} SpaceRunDropped(s: string)
    requires |s| > 0 && IsSpace(s[0])
    ensures var n := Span(s, IsSpace);
            && Filter(s, NotSpace) == Filter(s[n..], NotSpace)
            && Filter(SpacesToUnderscore(s), NotUnderscore) == Filter(SpacesToUnderscore(s[n..]), NotUnderscore)
  {
    var n := Span(s, IsSpace);
    var run, rest := s[..n], s[n..];
    assert s == run + rest;
    FilterAppend(run, rest, NotSpace);
    FilterNone(run, NotSpace);
    FilterAppend(['_'], SpacesToUnderscore(rest), NotUnderscore);
  }

  /** Deleting the underscores of a sanitised title leaves exactly the
      lower-cased letters and digits of the original title: sanitising only
      inserts separators where whitespace was. */
  lemma {:induction false} SanitizeContent(title: string)
    ensures Filter(Sanitize(title), NotUnderscore) == Filter(Lower(title), IsAlnum)
  {
    var kept := Filter(Lower(title), IsKept);
    var spaced := SpacesToUnderscore(kept);
    assert forall i :: 0 <= i < |kept| ==> kept[i] != '_';
    UnderscoresStandForSpaces(kept);
    KeptWithoutSpaces(Lower(title));
    SpacedNoDouble(kept);
    CollapseFixed(spaced);
    TrimmedContent(spaced);
  }

  lemma {:induction false} FilterAll(s: string, p: char -> bool)
    requires forall i :: 0 <= i < |s| ==> p(s[i])
    ensures Filter(s, p) == s
    decreases |s|
  {
    if s != [] {
      FilterAll(s[1..], p);
    }
  }

  lemma {:induction false} KeptWithoutSpacesIsAlnum(s: string)
    requires forall i :: 0 <= i < |s| ==> !IsSpace(s[i])
    ensures Filter(s, IsKept) == Filter(s, IsAlnum)
    decreases |s|
  {
    if s != [] {
      KeptWithoutSpacesIsAlnum(s[1..]);
    }
  }

  lemma {:induction false} SpacesToUnderscoreNoSpace(s: string)
    requires forall i :: 0 <= i < |s| ==> !IsSpace(s[i])
    ensures SpacesToUnderscore(s) == s
    decreases |s|
  {
    if s != [] {
      SpacesToUnderscoreNoSpace(s[1..]);
    }
  }

  /** A title without whitespace sanitises to its lower-cased letters and
      digits: every other character, underscores included, is dropped. */
  lemma {:induction false} SanitizeWithoutSpaces(title: string)
    requires forall i :: 0 <= i < |title| ==> !IsSpace(title[i])
    ensures Sanitize(title) == Filter(Lower(title), IsAlnum)
  {
    var low := Lower(title);
    assert forall i :: 0 <= i < |low| ==> !IsSpace(low[i]);
    KeptWithoutSpacesIsAlnum(low);
    AlnumSanitizesToItself(Filter(low, IsAlnum));
  }

  /** Letters and digits alone pass the underscore rewriting unchanged. */
  lemma {:induction false} AlnumSanitizesToItself(s: string)
    requires forall i :: 0 <= i < |s| ==> IsAlnum(s[i])
    ensures TrimUnderscore(CollapseUnderscores(SpacesToUnderscore(s))) == s
  {
    SpacesToUnderscoreNoSpace(s);
    assert NoDoubleUnderscore(s);
    CollapseFixed(s);
    assert TrimUnderscore(s) == s;
  }

  lemma {:induction false} SanitizeStages(t: string, u: string)
    requires Lower(t) == t && Filter(t, IsKept) == t && SpacesToUnderscore(t) == u
    requires CollapseUnderscores(u) == u && TrimUnderscore(u) == u
    ensures Sanitize(t) == u
  {
  }

  lemma {:induction false} JoinedIsKept(a: string, b: string)
    requires forall i :: 0 <= i < |a| ==> IsAlnum(a[i])
    requires forall i :: 0 <= i < |b| ==> IsAlnum(b[i])
    ensures Lower(a + " " + b) == a + " " + b
    ensures Filter(a + " " + b, IsKept) == a + " " + b
  {
    var t := a + " " + b;
    assert forall i :: 0 <= i < |t| ==> IsKept(t[i]);
    FilterAll(t, IsKept);
  }

  lemma {:induction false} JoinedIsClean(a: string, b: string)
    requires |a| > 0 && |b| > 0
    requires forall i :: 0 <= i < |a| ==> IsAlnum(a[i])
    requires forall i :: 0 <= i < |b| ==> IsAlnum(b[i])
    ensures CollapseUnderscores(a + "_" + b) == a + "_" + b
    ensures TrimUnderscore(a + "_" + b) == a + "_" + b
  {
    var u := a + "_" + b;
    JoinedNoDouble(a, b);
    CollapseFixed(u);
    assert u[0] == a[0] && u[|u| - 1] == b[|b| - 1];
  }

  lemma {:induction false} JoinedNoDouble(a: string, b: string)
    requires |b| > 0
    requires forall i :: 0 <= i < |a| ==> a[i] != '_'
    requires forall i :: 0 <= i < |b| ==> b[i] != '_'
    ensures NoDoubleUnderscore(a + "_" + b)
  {
    var u := a + "_" + b;
    forall i | 0 <= i < |u| - 1
      ensures !(u[i] == '_' && u[i + 1] == '_')
    {
      if i < |a| { assert u[i] == a[i]; }
      else if i == |a| { assert u[i + 1] == b[0]; }
      else { assert u[i] == b[i - |a| - 1]; }
    }
  }

  /** Two words joined by a space sanitise to the words joined by `_`. */
  lemma {:induction false} SanitizeJoinsWords(a: string, b: string)
    requires |a| > 0 && |b| > 0
    requires forall i :: 0 <= i < |a| ==> IsAlnum(a[i])
    requires forall i :: 0 <= i < |b| ==> IsAlnum(b[i])
    ensures Sanitize(a + " " + b) == a + "_" + b
  {
    JoinedIsKept(a, b);
    SpacesToUnderscoreJoin(a, b);
    JoinedIsClean(a, b);
    SanitizeStages(a + " " + b, a + "_" + b);
  }

  lemma {:induction false} UnderscoreJoinedAlnum(a: string, b: string)
    requires forall i :: 0 <= i < |a| ==> IsAlnum(a[i])
    requires forall i :: 0 <= i < |b| ==> IsAlnum(b[i])
    ensures forall i :: 0 <= i < |a + "_" + b| ==> !IsSpace((a + "_" + b)[i])
    ensures Filter(Lower(a + "_" + b), IsAlnum) == a + b
  {
    var u := a + "_" + b;
    assert forall i :: 0 <= i < |u| ==> IsNameChar(u[i]) by {
      forall i | 0 <= i < |u| ensures IsNameChar(u[i]) {
        if i < |a| { assert u[i] == a[i]; }
        else if i > |a| { assert u[i] == b[i - |a| - 1]; }
      }
    }
    LowerOfAlnum(u);
    FilterJoined(a, b);
  }

  lemma {:induction false} FilterJoined(a: string, b: string)
    requires forall i :: 0 <= i < |a| ==> IsAlnum(a[i])
    requires forall i :: 0 <= i < |b| ==> IsAlnum(b[i])
    ensures Filter(a + "_" + b, IsAlnum) == a + b
  {
    var sep: string := "_";
    var tail := sep + b;
    assert a + "_" + b == a + tail;
    FilterAppend(a, tail, IsAlnum);
    FilterAppend(sep, b, IsAlnum);
    FilterNone(sep, IsAlnum);
    FilterAll(a, IsAlnum);
    FilterAll(b, IsAlnum);
    assert Filter(tail, IsAlnum) == b;
  }

  /** Lower-casing leaves `[a-z0-9_]` text alone. */
  lemma {:induction false} LowerOfAlnum(u: string)
    requires forall i :: 0 <= i < |u| ==> IsNameChar(u[i])
    ensures Lower(u) == u
  {
  }

  /** Sanitising is not idempotent: a second pass deletes the underscore
      the first pass put between two words. */
  lemma {:induction false} SanitizeNotIdempotent(a: string, b: string)
    requires |a| > 0 && |b| > 0
    requires forall i :: 0 <= i < |a| ==> IsAlnum(a[i])
    requires forall i :: 0 <= i < |b| ==> IsAlnum(b[i])
    ensures Sanitize(Sanitize(a + " " + b)) == a + b
  {
    SanitizeJoinsWords(a, b);
    UnderscoreJoinedAlnum(a, b);
    SanitizeWithoutSpaces(a + "_" + b);
  }

  lemma {:induction false} SpacesToUnderscoreJoin(a: string, b: string)
    requires |b| > 0
    requires forall i :: 0 <= i < |a| ==> !IsSpace(a[i])
    requires forall i :: 0 <= i < |b| ==> !IsSpace(b[i])
    ensures SpacesToUnderscore(a + " " + b) == a + "_" + b
    decreases |a|
  {
    var t := a + " " + b;
    if a == [] {
      assert t == [' '] + b;
      assert Span(t, IsSpace) == 1 by {
        assert IsSpace(t[0]) && !IsSpace(t[1]);
      }
      assert t[1..] == b;
      assert SpacesToUnderscore(t) == ['_'] + SpacesToUnderscore(b);
      SpacesToUnderscoreNoSpace(b);
      assert a + "_" + b == ['_'] + b;
    } else {
      assert t[0] == a[0] && !IsSpace(t[0]);
      assert t[1..] == a[1..] + " " + b;
      assert SpacesToUnderscore(t) == [a[0]] + SpacesToUnderscore(a[1..] + " " + b);
      SpacesToUnderscoreJoin(a[1..], b);
      assert a + "_" + b == [a[0]] + (a[1..] + "_" + b);
    }
  }

  // ---------------------------------------------------------------------
  // Extension table

  const Extensions: map<string, string> := map[
    "cpp" := "cpp", "c++" := "cpp", "c++17" := "cpp", "c++20" := "cpp", "gnu c++" := "cpp",
    "python" := "py", "python3" := "py", "pypy" := "py", "pypy3" := "py",
    "java" := "java",
    "javascript" := "js", "node.js" := "js",
    "go" := "go",
    "rust" := "rs",
    "c" := "c",
    "c#" := "cs", "csharp" := "cs"
  ]

  /** `getExtension`: the table is looked up with the lower-cased language;
      a language not in the table gets `txt`. */
  function Extension(language: string): (ext: string)
    ensures ext in {"cpp", "py", "java", "js", "go", "rs", "c", "cs", "txt"}
    ensures ext == "txt" <==> Lower(language) !in Extensions
    ensures Lower(language) in Extensions ==> ext == Extensions[Lower(language)]
  {
    var key := Lower(language);
    if key in Extensions then Extensions[key] else "txt"
  }

  /** Every key of the table is lower-case, so each alias maps to its listed
      extension however it is capitalised. */
  lemma {:induction false} ExtensionAliases(language: string)
    requires language in Extensions
    ensures Extension(language) == Extensions[language]
    ensures Extension(Upper(language)) == Extensions[language]
  {
    KeyHasNoUpper(language);
    CaselessRoundTrip(language);
  }

  /** The table's keys are written in lower case. */
  lemma KeyHasNoUpper(language: string)
    requires language in Extensions
    ensures forall i :: 0 <= i < |language| ==> !IsUpperAscii(language[i])
  {
  }

  /** Text without capitals is its own lower case, and the lower case of
      its upper case. */
  lemma CaselessRoundTrip(s: string)
    requires forall i :: 0 <= i < |s| ==> !IsUpperAscii(s[i])
    ensures Lower(s) == s && Lower(Upper(s)) == s
  {
  }

  /** Case does not matter to the lookup. */
  lemma {:induction false} ExtensionIgnoresCase(language: string)
    ensures Extension(Lower(language)) == Extension(language)
  {
    LowerIdempotent(language);
  }

  // ---------------------------------------------------------------------
  // Path layout

  /** The message of the `TypeError` thrown by `undefined.toLowerCase()`. */
  const ProblemIndexTypeError := "Cannot read properties of undefined (reading 'toLowerCase')"

  /** `generateFilePath`. A Codeforces submission without a problem index
      throws, as `submission.problemIndex.toLowerCase()` does. */
  function FilePath(s: Submission): (r: Result<string>)
    ensures r.Failure? <==> s.platform == "codeforces" && s.problemIndex.None?
    ensures r.Failure? ==> r.error == ProblemIndexTypeError
  {
    var ext := Extension(s.language);
    if s.platform == "leetcode" then
      Success("leetcode/" + OrElse(s.difficulty, "medium") + "/" + Sanitize(s.title) + "." + ext)
    else if s.platform == "codeforces" then
      if s.problemIndex.None? then Failure(ProblemIndexTypeError)
      else
        Success("codeforces/" + OrElse(s.division, "div2") + "/contest_" + Interpolate(s.contestId)
                + "/" + Lower(s.problemIndex.value) + "." + ext)
    else
      Success(s.platform + "/" + Sanitize(s.title) + "." + ext)
  }

  predicate NoSlash(s: string) {
    forall i :: 0 <= i < |s| ==> s[i] != '/'
  }

  lemma {:induction false} SanitizeNoSlash(title: string)
    ensures NoSlash(Sanitize(title))
  {
    var t := Sanitize(title);
    assert forall i :: 0 <= i < |t| ==> IsNameChar(t[i]);
  }

  lemma {:induction false} ExtensionNoSlash(language: string)
    ensures NoSlash(Extension(language))
  {
  }

  /** The file name `{stem}.{ext}` holds no `/` when its parts hold none. */
  lemma {:induction false} FileNameNoSlash(stem: string, ext: string)
    requires NoSlash(stem) && NoSlash(ext)
    ensures NoSlash(stem + "." + ext)
  {
  }

  /** A LeetCode submission lands in `leetcode/{difficulty}/{file}`, where the
      difficulty directory defaults to `medium` and the file is the
      sanitised title with the language's extension. */
  lemma {:induction false} LeetCodePathShape(s: Submission)
    requires s.platform == "leetcode"
    requires NoSlash(OrElse(s.difficulty, "medium"))
    ensures FilePath(s).Success?
    ensures Split(FilePath(s).value, '/')
            == ["leetcode", OrElse(s.difficulty, "medium"), Sanitize(s.title) + "." + Extension(s.language)]
  {
    var d, t, e := OrElse(s.difficulty, "medium"), Sanitize(s.title), Extension(s.language);
    assert FilePath(s).value == "leetcode/" + d + "/" + t + "." + e;
    LeetCodeRegroup(d, t, e);
    SanitizeNoSlash(s.title);
    ExtensionNoSlash(s.language);
    FileNameNoSlash(t, e);
    assert NoSlash("leetcode");
    SplitThree("leetcode", d, t + "." + e);
  }

  lemma {:induction false} LeetCodeRegroup(d: string, t: string, e: string)
    ensures "leetcode/" + d + "/" + t + "." + e == "leetcode" + ['/'] + (d + ['/'] + (t + "." + e))
  {
    assert "leetcode/" == "leetcode" + ['/'];
  }

  /** A Codeforces submission lands in
      `codeforces/{division}/contest_{contestId}/{index}.{ext}`; its title
      plays no part. */
  lemma {:induction false} CodeforcesPathShape(s: Submission)
    requires s.platform == "codeforces" && s.problemIndex.Some?
    requires NoSlash(OrElse(s.division, "div2")) && NoSlash(Interpolate(s.contestId))
    requires NoSlash(s.problemIndex.value)
    ensures FilePath(s).Success?
    ensures Split(FilePath(s).value, '/')
            == ["codeforces", OrElse(s.division, "div2"), "contest_" + Interpolate(s.contestId),
                Lower(s.problemIndex.value) + "." + Extension(s.language)]
  {
    var d, id := OrElse(s.division, "div2"), Interpolate(s.contestId);
    var x, e := Lower(s.problemIndex.value), Extension(s.language);
    assert FilePath(s).value == "codeforces/" + d + "/contest_" + id + "/" + x + "." + e;
    CodeforcesRegroup(d, id, x, e);
    FileNameNoSlash(x, e);
    assert NoSlash("codeforces");
    assert NoSlash("contest_");
    NoSlashJoin("contest_", id);
    SplitFour("codeforces", d, "contest_" + id, x + "." + e);
  }

  lemma {:induction false} CodeforcesRegroup(d: string, id: string, x: string, e: string)
    ensures "codeforces/" + d + "/contest_" + id + "/" + x + "." + e
            == "codeforces" + ['/'] + (d + ['/'] + (("contest_" + id) + ['/'] + (x + "." + e)))
  {
    assert "codeforces/" == "codeforces" + ['/'];
    assert "/contest_" == ['/'] + "contest_";
  }

  lemma {:induction false} NoSlashJoin(a: string, b: string)
    requires NoSlash(a) && NoSlash(b)
    ensures NoSlash(a + b)
  {
    assert forall i :: 0 <= i < |a + b| ==> (a + b)[i] == if i < |a| then a[i] else b[i - |a|];
  }

  /** The title never affects a Codeforces path. */
  lemma {:induction false} CodeforcesPathIgnoresTitle(s: Submission, title: string)
    requires s.platform == "codeforces"
    ensures FilePath(s.(title := title)) == FilePath(s)
  {
  }

  /** Any other platform gets `{platform}/{file}`. */
  lemma {:induction false} OtherPathShape(s: Submission)
    requires s.platform != "leetcode" && s.platform != "codeforces" && NoSlash(s.platform)
    ensures FilePath(s).Success?
    ensures Split(FilePath(s).value, '/') == [s.platform, Sanitize(s.title) + "." + Extension(s.language)]
  {
    var t, e := Sanitize(s.title), Extension(s.language);
    assert FilePath(s).value == s.platform + "/" + t + "." + e;
    OtherRegroup(s.platform, t, e);
    SanitizeNoSlash(s.title);
    ExtensionNoSlash(s.language);
    FileNameNoSlash(t, e);
    SplitTwo(s.platform, t + "." + e);
  }

  lemma {:induction false} OtherRegroup(p: string, t: string, e: string)
    ensures p + "/" + t + "." + e == p + ['/'] + (t + "." + e)
  {
  }

  lemma {:induction false} SplitTwo(x: string, y: string)
    requires NoSlash(x) && NoSlash(y)
    ensures Split(x + ['/'] + y, '/') == [x, y]
  {
    SplitAfter(x, y, '/');
    SplitWhole(y, '/');
    ConsOne(x, y);
  }

  lemma {:induction false} SplitThree(x: string, y: string, z: string)
    requires NoSlash(x) && NoSlash(y) && NoSlash(z)
    ensures Split(x + ['/'] + (y + ['/'] + z), '/') == [x, y, z]
  {
    SplitAfter(x, y + ['/'] + z, '/');
    SplitTwo(y, z);
    ConsTwo(x, y, z);
  }

  lemma {:induction false} SplitFour(w: string, x: string, y: string, z: string)
    requires NoSlash(w) && NoSlash(x) && NoSlash(y) && NoSlash(z)
    ensures Split(w + ['/'] + (x + ['/'] + (y + ['/'] + z)), '/') == [w, x, y, z]
  {
    SplitAfter(w, x + ['/'] + (y + ['/'] + z), '/');
    SplitThree(x, y, z);
    ConsThree(w, x, y, z);
  }

  lemma ConsOne<T>(x: T, y: T)
    ensures [x] + [y] == [x, y]
  {
  }

  lemma ConsTwo<T>(x: T, y: T, z: T)
    ensures [x] + [y, z] == [x, y, z]
  {
  }

  lemma ConsThree<T>(w: T, x: T, y: T, z: T)
    ensures [w] + [x, y, z] == [w, x, y, z]
  {
  }

  lemma {:induction false} SplitWhole(a: string, c: char)
    requires forall i :: 0 <= i < |a| ==> a[i] != c
    ensures Split(a, c) == [a]
  {
    assert a[..|a|] == a;
  }

  lemma {:induction false} SplitAfter(a: string, b: string, c: char)
    requires forall i :: 0 <= i < |a| ==> a[i] != c
    ensures Split(a + [c] + b, c) == [a] + Split(b, c)
  {
    var s := a + [c] + b;
    assert IndexOf(s, c) == |a| by {
      assert s[|a|] == c;
      assert forall i :: 0 <= i < |a| ==> s[i] == a[i];
    }
    assert s[..|a|] == a;
    assert s[|a| + 1..] == b;
  }

  // ---------------------------------------------------------------------
  // File content

  /** The fields of the comment header, in the order they are written. */
  datatype Field = Platform | Difficulty | Contest | Problem | Language | ProblemUrl | Date | Author {

    /** The label written before the value. */
    function Label(): string {
      match this
      case Platform => "Platform"
      case Difficulty => "Difficulty"
      case Contest => "Contest"
      case Problem => "Problem"
      case Language => "Language"
      case ProblemUrl => "Problem URL"
      case Date => "Date"
      case Author => "Author"
    }

    function Rank(): nat {
      match this
      case Platform => 0
      case Difficulty => 1
      case Contest => 2
      case Problem => 3
      case Language => 4
      case ProblemUrl => 5
      case Date => 6
      case Author => 7
    }
  }

  /** One ` * {label}: {value}` line of the comment header. */
  datatype HeaderLine = HeaderLine(name: Field, value: string)

  predicate HasLabel(lines: seq<HeaderLine>, name: Field) {
    exists x :: x in lines && x.name == name
  }

  predicate Ascending(lines: seq<HeaderLine>) {
    forall i, j :: 0 <= i < j < |lines| ==> lines[i].name.Rank() < lines[j].name.Rank()
  }

  /** The lines whose flag is set, in order. */
  function Present(candidates: seq<(bool, HeaderLine)>): (lines: seq<HeaderLine>)
    ensures |lines| <= |candidates|
    decreases |candidates|
  {
    if candidates == [] then []
    else if candidates[0].0 then [candidates[0].1] + Present(candidates[1..])
    else Present(candidates[1..])
  }

  /** A line is written exactly when it is a candidate whose flag is set. */
  lemma {:induction false} PresentMembers(candidates: seq<(bool, HeaderLine)>, x: HeaderLine)
    ensures x in Present(candidates) <==> (true, x) in candidates
    decreases |candidates|
  {
    if candidates != [] {
      PresentMembers(candidates[1..], x);
      assert candidates == [candidates[0]] + candidates[1..];
    }
  }

  lemma {:induction false} PresentAscending(candidates: seq<(bool, HeaderLine)>)
    requires forall i, j :: 0 <= i < j < |candidates| ==> candidates[i].1.name.Rank() < candidates[j].1.name.Rank()
    ensures Ascending(Present(candidates))
    decreases |candidates|
  {
    if candidates != [] {
      PresentAscending(candidates[1..]);
      var rest := Present(candidates[1..]);
      forall x | x in rest
        ensures candidates[0].1.name.Rank() < x.name.Rank()
      {
        PresentMembers(candidates[1..], x);
        var j :| 0 <= j < |candidates[1..]| && candidates[1..][j] == (true, x);
        assert candidates[j + 1] == (true, x);
      }
      if candidates[0].0 {
        var lines := [candidates[0].1] + rest;
        forall i, j | 0 <= i < j < |lines|
          ensures lines[i].name.Rank() < lines[j].name.Rank()
        {
          assert lines[j] == rest[j - 1];
          if i > 0 { assert lines[i] == rest[i - 1]; }
        }
      }
    }
  }

  /** Every line the header may carry, in order, each with the condition
      under which `prepareFileContent` writes it. */
  function Candidates(s: Submission, date: string): seq<(bool, HeaderLine)> {
    [ (true, HeaderLine(Platform, Upper(s.platform))),
      (Truthy(s.difficulty), HeaderLine(Difficulty, s.difficulty.GetOr(""))),
      (Truthy(s.contestId), HeaderLine(Contest, s.contestId.GetOr(""))),
      (Truthy(s.problemIndex), HeaderLine(Problem, s.problemIndex.GetOr(""))),
      (s.language != "", HeaderLine(Language, s.language)),
      (s.url != "", HeaderLine(ProblemUrl, s.url)),
      (true, HeaderLine(Date, date)),
      (true, HeaderLine(Author, "CodeSync Extension")) ]
  }

  lemma {:induction false} PresentAppend(a: seq<(bool, HeaderLine)>, b: seq<(bool, HeaderLine)>)
    ensures Present(a + b) == Present(a) + Present(b)
    decreases |a|
  {
    if a != [] {
      assert (a + b)[1..] == a[1..] + b;
      PresentAppend(a[1..], b);
    } else {
      assert a + b == b;
    }
  }

  lemma {:induction false} PresentSingle(x: (bool, HeaderLine))
    ensures Present([x]) == if x.0 then [x.1] else []
  {
    assert [x][1..] == [];
  }

  /** A name held by exactly the `k`-th candidate labels a written line
      exactly when that candidate's flag is set. */
  lemma {:induction false} LabelPresence(c: seq<(bool, HeaderLine)>, k: nat)
    requires k < |c|
    requires forall j :: 0 <= j < |c| ==> c[j].1.name.Rank() == j
    ensures HasLabel(Present(c), c[k].1.name) <==> c[k].0
    ensures c[k].0 ==> c[k].1 in Present(c)
  {
    if c[k].0 {
      assert c[k] == (true, c[k].1);
      PresentMembers(c, c[k].1);
    }
    if HasLabel(Present(c), c[k].1.name) {
      var x :| x in Present(c) && x.name == c[k].1.name;
      PresentMembers(c, x);
      var j :| 0 <= j < |c| && c[j] == (true, x);
      assert x.name.Rank() == j;
    }
  }

  /** The labelled lines of the header. `date` is the ISO-8601 time the
      content is generated at. */
  function HeaderLines(s: Submission, date: string): (lines: seq<HeaderLine>)
    ensures |lines| >= 3
    ensures lines[0] == HeaderLine(Platform, Upper(s.platform))
    ensures lines[|lines| - 2] == HeaderLine(Date, date)
    ensures lines[|lines| - 1] == HeaderLine(Author, "CodeSync Extension")
    ensures Ascending(lines)
  {
    CandidatesShape(s, date);
    Present(Candidates(s, date))
  }

  lemma {:induction false} CandidatesShape(s: Submission, date: string)
    ensures |Present(Candidates(s, date))| >= 3
    ensures Present(Candidates(s, date))[0] == HeaderLine(Platform, Upper(s.platform))
    ensures Present(Candidates(s, date))[|Present(Candidates(s, date))| - 2] == HeaderLine(Date, date)
    ensures Present(Candidates(s, date))[|Present(Candidates(s, date))| - 1] == HeaderLine(Author, "CodeSync Extension")
    ensures Ascending(Present(Candidates(s, date)))
  {
    var c := Candidates(s, date);
    PresentAscending(c);
    CandidateFields(s, date);
    PresentFrame(c);
  }

  /** The eight candidates, field by field. */
  lemma CandidateFields(s: Submission, date: string)
    ensures var c := Candidates(s, date);
            && |c| == 8
            && c[0] == (true, HeaderLine(Platform, Upper(s.platform)))
            && c[1] == (Truthy(s.difficulty), HeaderLine(Difficulty, s.difficulty.GetOr("")))
            && c[2] == (Truthy(s.contestId), HeaderLine(Contest, s.contestId.GetOr("")))
            && c[3] == (Truthy(s.problemIndex), HeaderLine(Problem, s.problemIndex.GetOr("")))
            && c[4] == (s.language != "", HeaderLine(Language, s.language))
            && c[5] == (s.url != "", HeaderLine(ProblemUrl, s.url))
            && c[6] == (true, HeaderLine(Date, date))
            && c[7] == (true, HeaderLine(Author, "CodeSync Extension"))
  {
  }

  /** Eight candidates whose first and last two are always present keep
      those three at the ends. */
  lemma {:induction false} PresentFrame(c: seq<(bool, HeaderLine)>)
    requires |c| == 8 && c[0].0 && c[6].0 && c[7].0
    ensures var p := Present(c);
            |p| >= 3 && p[0] == c[0].1 && p[|p| - 2] == c[6].1 && p[|p| - 1] == c[7].1
  {
    var head, mid, tail := c[..1], c[1..6], c[6..];
    assert c == head + (mid + tail);
    PresentAppend(head, mid + tail);
    PresentAppend(mid, tail);
    assert head == [c[0]];
    PresentSingle(c[0]);
    assert tail == [c[6]] + [c[7]];
    PresentAppend([c[6]], [c[7]]);
    PresentSingle(c[6]);
    PresentSingle(c[7]);
    FrameIndex(c[0].1, Present(mid), c[6].1, c[7].1);
  }

  lemma FrameIndex<T>(a: T, mid: seq<T>, b: T, d: T)
    ensures var p := [a] + (mid + ([b] + [d]));
            |p| >= 3 && p[0] == a && p[|p| - 2] == b && p[|p| - 1] == d
  {
  }

  /** Each optional line is written, with the field's value, exactly when
      the field is truthy: an absent or empty field leaves no line. */
  lemma {:induction false} HeaderOptionalLines(s: Submission, date: string)
    ensures HasLabel(HeaderLines(s, date), Difficulty) <==> Truthy(s.difficulty)
    ensures Truthy(s.difficulty) ==> HeaderLine(Difficulty, s.difficulty.value) in HeaderLines(s, date)
    ensures HasLabel(HeaderLines(s, date), Contest) <==> Truthy(s.contestId)
    ensures Truthy(s.contestId) ==> HeaderLine(Contest, s.contestId.value) in HeaderLines(s, date)
    ensures HasLabel(HeaderLines(s, date), Problem) <==> Truthy(s.problemIndex)
    ensures Truthy(s.problemIndex) ==> HeaderLine(Problem, s.problemIndex.value) in HeaderLines(s, date)
    ensures HasLabel(HeaderLines(s, date), Language) <==> s.language != ""
    ensures s.language != "" ==> HeaderLine(Language, s.language) in HeaderLines(s, date)
    ensures HasLabel(HeaderLines(s, date), ProblemUrl) <==> s.url != ""
    ensures s.url != "" ==> HeaderLine(ProblemUrl, s.url) in HeaderLines(s, date)
  {
    CandidateFields(s, date);
    OptionalLine(s, date, 1, Difficulty, Truthy(s.difficulty), s.difficulty.GetOr(""));
    OptionalLine(s, date, 2, Contest, Truthy(s.contestId), s.contestId.GetOr(""));
    OptionalLine(s, date, 3, Problem, Truthy(s.problemIndex), s.problemIndex.GetOr(""));
    OptionalLine(s, date, 4, Language, s.language != "", s.language);
    OptionalLine(s, date, 5, ProblemUrl, s.url != "", s.url);
  }

  /** Candidate `k`, labelled `name` with `value` and present when `shown`,
      gives a header line exactly when it is present. */
  lemma {:induction false} OptionalLine(s: Submission, date: string, k: nat, name: Field, shown: bool, value: string)
    requires k < 8 && Candidates(s, date)[k] == (shown, HeaderLine(name, value))
    ensures HasLabel(HeaderLines(s, date), name) <==> shown
    ensures shown ==> HeaderLine(name, value) in HeaderLines(s, date)
  {
    CandidateLine(s, date, k);
  }

  /** Candidate `k` gives a header line exactly when it is present. */
  lemma {:induction false} CandidateLine(s: Submission, date: string, k: nat)
    requires k < 8
    ensures var c := Candidates(s, date)[k];
            && (HasLabel(HeaderLines(s, date), c.1.name) <==> c.0)
            && (c.0 ==> c.1 in HeaderLines(s, date))
  {
    var c := Candidates(s, date);
    CandidateRanks(s, date);
    LabelPresence(c, k);
  }

  lemma CandidateRanks(s: Submission, date: string)
    ensures var c := Candidates(s, date);
            |c| == 8 && forall j :: 0 <= j < |c| ==> c[j].1.name.Rank() == j
  {
  }

  function RenderLines(lines: seq<HeaderLine>): string {
    if lines == [] then ""
    else RenderLine(lines[0]) + RenderLines(lines[1..])
  }

  /** The comment block written above the code. */
  function Header(s: Submission, date: string): string {
    "/*\n * " + s.title + "\n" + RenderLines(HeaderLines(s, date)) + " */\n\n"
  }

  function RenderLine(line: HeaderLine): string {
    " * " + line.name.Label() + ": " + line.value + "\n"
  }

  /** `prepareFileContent`: the header, then the code exactly as extracted. */
  function FileContent(s: Submission, date: string): (r: string)
    ensures |r| > |s.code|
    ensures StartsWith(r, "/*\n * " + s.title + "\n" + RenderLine(HeaderLine(Platform, Upper(s.platform))))
    ensures r[|r| - |s.code|..] == s.code
  {
    HeaderStart(s, date);
    Framed(Header(s, date), "/*\n * " + s.title + "\n" + RenderLine(HeaderLine(Platform, Upper(s.platform))), s.code);
    Header(s, date) + s.code
  }

  /** The header opens with the title line and then the Platform line. */
  lemma {:induction false} HeaderStart(s: Submission, date: string)
    ensures StartsWith(Header(s, date), "/*\n * " + s.title + "\n" + RenderLine(HeaderLine(Platform, Upper(s.platform))))
  {
    var lines := HeaderLines(s, date);
    var p := "/*\n * " + s.title + "\n" + RenderLine(lines[0]);
    assert RenderLines(lines) == RenderLine(lines[0]) + RenderLines(lines[1..]);
    assert Header(s, date) == p + (RenderLines(lines[1..]) + " */\n\n");
    StartsWithAppend(p, RenderLines(lines[1..]) + " */\n\n");
  }

  lemma {:induction false} StartsWithAppend(p: string, q: string)
    ensures StartsWith(p + q, p)
  {
    assert (p + q)[..|p|] == p;
  }

  /** Text placed after a non-empty head that starts with `p` keeps `p` in
      front and ends the result. */
  lemma {:induction false} Framed(head: string, p: string, tail: string)
    requires StartsWith(head, p) && |head| > 0
    ensures |head + tail| > |tail|
    ensures StartsWith(head + tail, p)
    ensures (head + tail)[|head + tail| - |tail|..] == tail
  {
    assert (head + tail)[..|p|] == head[..|p|];
  }
}
