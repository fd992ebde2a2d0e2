/** The elapsed-time buckets both popup views use for "time ago" labels:
    whole days, else whole hours, else whole minutes, else "just now". */
module Elapsed {
  import opened Text

  const Minute := 60000
  const Hour := 3600000
  const Day := 86400000

  /** How long ago something happened, as the views round it. */
  datatype Age = JustNow | Minutes(count: nat) | Hours(count: nat) | Days(count: nat)

  /** The bucket for a difference of `diff` milliseconds, from
      `Math.floor(diff / unit)` tested days first. A negative difference (a
      timestamp in the future) is "just now". */
  function Classify(diff: int): (a: Age)
    ensures a.JustNow? <==> diff < Minute
    ensures a.Minutes? <==> Minute <= diff < Hour
    ensures a.Hours? <==> Hour <= diff < Day
    ensures a.Days? <==> Day <= diff
    ensures a.Minutes? ==> a.count * Minute <= diff < (a.count + 1) * Minute
    ensures a.Hours? ==> a.count * Hour <= diff < (a.count + 1) * Hour
    ensures a.Days? ==> a.count * Day <= diff < (a.count + 1) * Day
    ensures !a.JustNow? ==> a.count >= 1
  {
    var days := diff / Day;
    var hours := diff / Hour;
    var minutes := diff / Minute;
    if days > 0 then Days(days)
    else if hours > 0 then Hours(hours)
    else if minutes > 0 then Minutes(minutes)
    else JustNow
  }

  /** Reading a number off the front of a label: the leading digits, when
      what follows is not a digit. */
  lemma {:induction false} LeadingNumber(n: nat, rest: string)
    requires rest != [] && !IsDigit(rest[0])
    ensures var t := NatToDecimal(n) + rest;
            Span(t, IsDigit) == |NatToDecimal(n)|
            && t[..|NatToDecimal(n)|] == NatToDecimal(n)
            && t[|NatToDecimal(n)|..] == rest
  {
    var d := NatToDecimal(n);
    var t := d + rest;
    assert forall i :: 0 <= i < |d| ==> t[i] == d[i] && IsDigit(t[i]);
    assert t[|d|] == rest[0];
  }
}
