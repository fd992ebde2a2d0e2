/** The history tab of the popup: its compact "time ago" labels and the
    badge colours for platforms and difficulties. */
module HistoryView {
  import opened Wrappers
  import opened Text
  import opened Submissions
  import opened Elapsed
  import LeetCode
  import Codeforces

  /** `formatTimeAgo`: `{n}d ago`, `{n}h ago`, `{n}m ago` or `Just now`. */
  function FormatTimeAgo(now: int, timestamp: int): (text: string)
    ensures text == "Just now" <==> now - timestamp < Minute
  {
    match Classify(now - timestamp)
    case JustNow => "Just now"
    case Minutes(n) => Count(n, "m ago")
    case Hours(n) => Count(n, "h ago")
    case Days(n) => Count(n, "d ago")
  }

  /** A count followed by its unit. */
  function Count(n: nat, unit: string): (text: string)
    ensures text != "Just now" && |text| > 0 && IsDigit(text[0])
  {
    var t := NatToDecimal(n) + unit;
    assert t[0] == NatToDecimal(n)[0];
    t
  }

  /** Reads a compact label back into the age it shows. */
  function ParseTimeAgo(shown: string): Option<Age> {
    if shown == "Just now" then Some(JustNow)
    else
      var k := Span(shown, IsDigit);
      var digits, rest := shown[..k], shown[k..];
      if k == 0 then None
      else if rest == "m ago" then Some(Minutes(DecimalValue(digits)))
      else if rest == "h ago" then Some(Hours(DecimalValue(digits)))
      else if rest == "d ago" then Some(Days(DecimalValue(digits)))
      else None
  }

  /** The label determines the bucket and the whole count: reading it back
      gives exactly the rounded age. */
  lemma {:induction false} TimeAgoRoundTrip(now: int, timestamp: int)
    ensures ParseTimeAgo(FormatTimeAgo(now, timestamp)) == Some(Classify(now - timestamp))
  {
    var a := Classify(now - timestamp);
    if !a.JustNow? {
      var n := a.count;
      var unit := if a.Minutes? then "m ago" else if a.Hours? then "h ago" else "d ago";
      var shown := NatToDecimal(n) + unit;
      assert FormatTimeAgo(now, timestamp) == shown;
      LeadingNumber(n, unit);
      DecimalRoundTrip(n);
    }
  }

  const LeetCodeBadge := "bg-orange-100 text-orange-800 border-orange-200"
  const CodeforcesBadge := "bg-blue-100 text-blue-800 border-blue-200"
  const OtherBadge := "bg-gray-100 text-gray-800 border-gray-200"

  /** `getPlatformColor`: an exact, case-sensitive match. */
  function PlatformColor(platform: string): (color: string)
    ensures color == LeetCodeBadge <==> platform == "leetcode"
    ensures color == CodeforcesBadge <==> platform == "codeforces"
    ensures color == OtherBadge <==> platform != "leetcode" && platform != "codeforces"
  {
    if platform == "leetcode" then LeetCodeBadge
    else if platform == "codeforces" then CodeforcesBadge
    else OtherBadge
  }

  const EasyText := "text-green-600"
  const MediumText := "text-yellow-600"
  const HardText := "text-red-600"
  const OtherText := "text-gray-600"

  /** `getDifficultyColor`: on the lower-cased difficulty; an absent one
      matches no case. */
  function DifficultyColor(difficulty: Option<string>): (color: string) {
    match difficulty
    case None => OtherText
    case Some(d) =>
      var l := Lower(d);
      if l == "easy" then EasyText
      else if l == "medium" then MediumText
      else if l == "hard" then HardText
      else OtherText
  }

  /** Only `LowerChar` of a character matters to the difficulty colour, so
      any casing of the same word gets the same colour. */
  lemma {:induction false} DifficultyColorIgnoresCase(a: string, b: string)
    requires Lower(a) == Lower(b)
    ensures DifficultyColor(Some(a)) == DifficultyColor(Some(b))
  {
  }

  /** Upper-casing a difficulty does not change its colour. */
  lemma {:induction false} DifficultyColorOfUpper(d: string)
    ensures DifficultyColor(Some(Upper(d))) == DifficultyColor(Some(d))
  {
    assert Lower(Upper(d)) == Lower(d);
    DifficultyColorIgnoresCase(Upper(d), d);
  }

  /** The three levels get their own colours and nothing else does. */
  lemma {:induction false} DifficultyColorLevels(d: Option<string>)
    ensures DifficultyColor(d) == EasyText <==> d.Some? && Lower(d.value) == "easy"
    ensures DifficultyColor(d) == MediumText <==> d.Some? && Lower(d.value) == "medium"
    ensures DifficultyColor(d) == HardText <==> d.Some? && Lower(d.value) == "hard"
  {
  }

  /** Every LeetCode entry gets the orange badge and a level colour. */
  lemma {:induction false} LeetCodeBadges(page: LeetCode.Page, now: int)
    ensures var s := LeetCode.Extract(page, now);
            PlatformColor(s.platform) == LeetCodeBadge && DifficultyColor(s.difficulty) != OtherText
  {
    var s := LeetCode.Extract(page, now);
    var d := s.difficulty.value;
    assert d == "easy" || d == "medium" || d == "hard";
    LevelColour(d);
  }

  lemma {:induction false} LevelColour(d: string)
    requires d == "easy" || d == "medium" || d == "hard"
    ensures DifficultyColor(Some(d)) != OtherText
  {
    assert Lower(d) == d;
  }

  /** Every Codeforces entry gets the blue badge and the grey level colour,
      as it carries no difficulty. */
  lemma {:induction false} CodeforcesBadges(row: Codeforces.Row, page: Codeforces.Page,
                                            code: Codeforces.CodePage, now: int)
    ensures var r := Codeforces.ExtractFromRow(row, page, code, now);
            r.Success? ==> PlatformColor(r.value.platform) == CodeforcesBadge
                           && DifficultyColor(r.value.difficulty) == OtherText
  {
  }
}
