/** The submission history kept in extension storage under
    `submissionHistory`: newest first, at most 100 entries. */
module History {
  import opened Wrappers
  import opened Submissions

  /** How many entries `addToHistory` keeps. */
  const Limit: nat := 100

  function Min(a: nat, b: nat): nat {
    if a <= b then a else b
  }

  /** `result.submissionHistory || []`: what a reader of the stored value
      sees; an absent key reads as the empty list. */
  function Load(stored: Option<seq<Record>>): seq<Record> {
    stored.GetOr([])
  }

  /** `clearHistory`: the stored value becomes the empty list. */
  function Clear(): (stored: Option<seq<Record>>)
    ensures Load(stored) == []
  {
    Some([])
  }

  /** The entry `addToHistory` builds: the submission's fields, the hosted
      file's URL, and the publish time in place of the detection time. */
  function MakeRecord(s: Submission, githubUrl: Option<string>, now: int): (r: Record)
    ensures r.Timestamp() == now
    ensures r.submission.(timestamp := s.timestamp) == s
  {
    Record(s.(timestamp := now), githubUrl)
  }

  /** `addToHistory`: the new entry goes in front and the list is cut back
      to `Limit` entries, dropping the oldest. */
  function AddToHistory(stored: Option<seq<Record>>, record: Record): (h: seq<Record>)
    ensures |h| == Min(|Load(stored)| + 1, Limit)
    ensures h[0] == record
    ensures forall i :: 1 <= i < |h| ==> h[i] == Load(stored)[i - 1]
  {
    var list := [record] + Load(stored);
    if |list| > Limit then list[..Limit] else list
  }

  /** Appending the records one after another, oldest first, each time
      storing the result. */
  function AddAll(stored: Option<seq<Record>>, records: seq<Record>): seq<Record>
    decreases |records|
  {
    if records == [] then Load(stored)
    else AddAll(Some(AddToHistory(stored, records[0])), records[1..])
  }

  function Reverse<T>(s: seq<T>): (r: seq<T>)
    ensures |r| == |s|
    ensures forall i :: 0 <= i < |s| ==> r[i] == s[|s| - 1 - i]
    decreases |s|
  {
    if s == [] then [] else Reverse(s[1..]) + [s[0]]
  }

  /** After any series of appends the history is the newest records first,
      followed by what was stored before, cut to `Limit` entries. */
  lemma {:induction false} AddAllNewestFirst(stored: Option<seq<Record>>, records: seq<Record>)
    requires |Load(stored)| <= Limit
    ensures AddAll(stored, records)
            == (Reverse(records) + Load(stored))[..Min(|records| + |Load(stored)|, Limit)]
    decreases |records|
  {
    var old_ := Load(stored);
    if records == [] {
      assert (Reverse(records) + old_)[..Min(|records| + |old_|, Limit)] == old_;
    } else {
      var h1 := AddToHistory(stored, records[0]);
      AddAllNewestFirst(Some(h1), records[1..]);
      var n := Min(|records| + |old_|, Limit);
      var lhs := (Reverse(records[1..]) + h1)[..Min(|records| - 1 + |h1|, Limit)];
      var rhs := (Reverse(records) + old_)[..n];
      assert Reverse(records) == Reverse(records[1..]) + [records[0]];
      assert h1 == ([records[0]] + old_)[..|h1|];
      assert |lhs| == n;
      forall i | 0 <= i < n
        ensures lhs[i] == rhs[i]
      {
        if i < |records| - 1 {
          assert lhs[i] == Reverse(records[1..])[i];
          assert rhs[i] == Reverse(records)[i];
        } else {
          assert lhs[i] == h1[i - (|records| - 1)];
          assert rhs[i] == (Reverse(records[1..]) + ([records[0]] + old_))[i];
        }
      }
      assert lhs == rhs;
    }
  }

  /** Starting from a cleared history, or from none stored at all, `n`
      publishes leave the newest `min(n, 100)` of them, newest first. */
  lemma AddAllFromCleared(records: seq<Record>)
    ensures AddAll(Clear(), records) == Reverse(records)[..Min(|records|, Limit)]
    ensures AddAll(None, records) == Reverse(records)[..Min(|records|, Limit)]
  {
    AddAllNewestFirst(Clear(), records);
    AddAllNewestFirst(None, records);
    assert Reverse(records) + [] == Reverse(records);
  }
}
