/** The dashboard tab of the popup: its spelled-out "time ago" label and
    the status summary it derives from the stored history. */
module Dashboard {
  import opened Wrappers
  import opened Text
  import opened Submissions
  import opened History
  import opened Elapsed
  import HistoryView

  /** The unit words after a count, singular or plural. */
  function Suffix(n: nat, unit: string): string {
    " " + unit + (if n > 1 then "s" else "") + " ago"
  }

  /** `{n} {unit}` with the unit pluralised exactly when `n > 1`. */
  function Counted(n: nat, unit: string): (text: string)
    ensures |text| > 0 && IsDigit(text[0]) && text != "Just now"
  {
    var t := NatToDecimal(n) + Suffix(n, unit);
    assert t[0] == NatToDecimal(n)[0];
    t
  }

  /** `formatTimeAgo`: `{n} day(s) ago`, `{n} hour(s) ago`,
      `{n} minute(s) ago` or `Just now`. */
  function FormatTimeAgo(now: int, timestamp: int): (text: string)
    ensures text == "Just now" <==> now - timestamp < Minute
  {
    match Classify(now - timestamp)
    case JustNow => "Just now"
    case Minutes(n) => Counted(n, "minute")
    case Hours(n) => Counted(n, "hour")
    case Days(n) => Counted(n, "day")
  }

  /** Reads a spelled-out label back into the age it shows; a unit whose
      plural does not agree with the count is not a label. */
  function ParseTimeAgo(shown: string): Option<Age> {
    if shown == "Just now" then Some(JustNow)
    else
      var k := Span(shown, IsDigit);
      var digits, rest := shown[..k], shown[k..];
      var n := DecimalValue(digits);
      if k == 0 then None
      else if rest == Suffix(n, "minute") then Some(Minutes(n))
      else if rest == Suffix(n, "hour") then Some(Hours(n))
      else if rest == Suffix(n, "day") then Some(Days(n))
      else None
  }

  /** The label determines the bucket and the count, and its plural agrees
      with the count: reading it back gives exactly the rounded age. */
  lemma {:induction false} TimeAgoRoundTrip(now: int, timestamp: int)
    ensures ParseTimeAgo(FormatTimeAgo(now, timestamp)) == Some(Classify(now - timestamp))
  {
    match Classify(now - timestamp)
    case JustNow =>
    case Minutes(n) =>
      CountedParts(n, "minute");
      assert Suffix(n, "minute")[1] == 'm';
    case Hours(n) =>
      CountedParts(n, "hour");
      assert Suffix(n, "hour")[1] == 'h' && Suffix(n, "minute")[1] == 'm';
    case Days(n) =>
      CountedParts(n, "day");
      assert Suffix(n, "day")[1] == 'd' && Suffix(n, "hour")[1] == 'h' && Suffix(n, "minute")[1] == 'm';
  }

  /** A spelled-out count splits back into its number and its suffix. */
  lemma {:induction false} CountedParts(n: nat, unit: string)
    ensures var t := Counted(n, unit);
            var k := Span(t, IsDigit);
            && t != "Just now" && k > 0
            && t[..k] == NatToDecimal(n) && DecimalValue(t[..k]) == n
            && t[k..] == Suffix(n, unit)
  {
    var rest := Suffix(n, unit);
    assert Counted(n, unit) == NatToDecimal(n) + rest;
    LeadingNumber(n, rest);
    DecimalRoundTrip(n);
  }

  /** The plural `s` appears exactly for counts above one. */
  lemma {:induction false} Plural(now: int, timestamp: int)
    requires now - timestamp >= Minute
    ensures var text := FormatTimeAgo(now, timestamp);
            |text| >= 5 && (text[|text| - 5] == 's' <==> Classify(now - timestamp).count > 1)
  {
    var a := Classify(now - timestamp);
    var unit := if a.Minutes? then "minute" else if a.Hours? then "hour" else "day";
    assert FormatTimeAgo(now, timestamp) == Counted(a.count, unit);
    SuffixPlural(a.count, unit);
    FifthFromEnd(NatToDecimal(a.count), Suffix(a.count, unit));
  }

  lemma FifthFromEnd(a: string, b: string)
    requires |b| >= 5
    ensures (a + b)[|a + b| - 5] == b[|b| - 5]
  {
  }

  lemma {:induction false} SuffixPlural(n: nat, unit: string)
    requires unit in {"minute", "hour", "day"}
    ensures var rest := Suffix(n, unit);
            |rest| >= 5 && (rest[|rest| - 5] == 's' <==> n > 1)
  {
    var rest := Suffix(n, unit);
    var head := " " + unit + (if n > 1 then "s" else "");
    assert rest == head + " ago";
    assert rest[|rest| - 5] == head[|head| - 1];
    if n <= 1 {
      assert head == " " + unit;
      assert head[|head| - 1] == unit[|unit| - 1];
    }
  }

  /** The summary the dashboard shows. */
  datatype Status = Status(lastSync: int, totalSubmissions: nat)

  /** `loadStatusInfo`: the number of stored entries, and the newest entry's
      timestamp unless there is none or it is 0, then the current time. */
  function LoadStatus(stored: Option<seq<Record>>, now: int): (status: Status)
    ensures status.totalSubmissions == |Load(stored)|
    ensures Load(stored) == [] ==> status.lastSync == now
    ensures Load(stored) != [] && Load(stored)[0].Timestamp() != 0 ==>
              status.lastSync == Load(stored)[0].Timestamp()
    ensures Load(stored) != [] && Load(stored)[0].Timestamp() == 0 ==> status.lastSync == now
  {
    var history := Load(stored);
    var lastSync := if history != [] && history[0].Timestamp() != 0 then history[0].Timestamp() else now;
    Status(lastSync, |history|)
  }

  /** Only the newest entry's timestamp and the number of entries matter:
      everything else in the history leaves the summary unchanged. */
  lemma {:induction false} OnlyHeadMatters(a: seq<Record>, b: seq<Record>, now: int)
    requires |a| == |b|
    requires a != [] ==> a[0].Timestamp() == b[0].Timestamp()
    ensures LoadStatus(Some(a), now) == LoadStatus(Some(b), now)
  {
  }

  /** After a push at a non-zero time, the dashboard reports that time as
      the last sync and one more entry, up to the 100-entry bound. */
  lemma {:induction false} StatusAfterPush(stored: Option<seq<Record>>, s: Submission, url: Option<string>,
                                           at: int, now: int)
    requires at != 0
    ensures LoadStatus(Some(AddToHistory(stored, MakeRecord(s, url, at))), now)
            == Status(at, Min(|Load(stored)| + 1, Limit))
  {
  }

  /** After clearing, the dashboard shows no entries and the current time. */
  lemma {:induction false} StatusAfterClear(now: int)
    ensures LoadStatus(Clear(), now) == Status(now, 0)
  {
  }

  /** The two views round the same way: the history tab shows `Just now`
      exactly when the dashboard does, and otherwise both labels lead with
      the same count. */
  lemma {:induction false} ViewsAgree(now: int, timestamp: int)
    ensures (HistoryView.FormatTimeAgo(now, timestamp) == "Just now")
            <==> (FormatTimeAgo(now, timestamp) == "Just now")
    ensures now - timestamp >= Minute ==>
              var t := FormatTimeAgo(now, timestamp);
              var u := HistoryView.FormatTimeAgo(now, timestamp);
              t[..Span(t, IsDigit)] == u[..Span(u, IsDigit)] == NatToDecimal(Classify(now - timestamp).count)
  {
    if now - timestamp >= Minute {
      DashboardCount(now, timestamp);
      HistoryCount(now, timestamp);
    }
  }

  lemma {:induction false} DashboardCount(now: int, timestamp: int)
    requires now - timestamp >= Minute
    ensures var t := FormatTimeAgo(now, timestamp);
            t[..Span(t, IsDigit)] == NatToDecimal(Classify(now - timestamp).count)
  {
    var a := Classify(now - timestamp);
    var unit := if a.Minutes? then "minute" else if a.Hours? then "hour" else "day";
    var rest := Suffix(a.count, unit);
    assert FormatTimeAgo(now, timestamp) == Counted(a.count, unit);
    LeadingNumber(a.count, rest);
  }

  lemma {:induction false} HistoryCount(now: int, timestamp: int)
    requires now - timestamp >= Minute
    ensures var u := HistoryView.FormatTimeAgo(now, timestamp);
            u[..Span(u, IsDigit)] == NatToDecimal(Classify(now - timestamp).count)
  {
    var a := Classify(now - timestamp);
    var short := if a.Minutes? then "m ago" else if a.Hours? then "h ago" else "d ago";
    assert HistoryView.FormatTimeAgo(now, timestamp) == NatToDecimal(a.count) + short;
    LeadingNumber(a.count, short);
  }
}
