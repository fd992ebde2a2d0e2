/** What the two content-script watchers share: the `isProcessing` flag,
    the last submission handed on, and the effects of handing one on. */
module Watch {
  import opened Wrappers
  import opened Submissions

  /** A watcher's state as the rest of the extension sees it.
      `isProcessing` and `last` are the watcher's own fields
      (`lastProcessedSubmission` is `last`); `outstanding` counts
      `sendMessage` callbacks that have not run yet, and `sent` lists every
      submission handed to the background worker, oldest first. */
  datatype Watcher = Watcher(isProcessing: bool, last: Option<Submission>, outstanding: nat, sent: seq<Submission>)

  /** `Math.abs` on a timestamp difference. */
  function Abs(x: int): nat {
    if x < 0 then -x else x
  }

  /** A freshly constructed watcher. */
  const Initial := Watcher(false, None, 0, [])

  /** Sends `s` to the worker: one more callback to wait for, with the flag
      held until it runs. */
  function Send(w: Watcher, s: Submission): (v: Watcher)
    ensures v.isProcessing && v.outstanding == w.outstanding + 1
    ensures v.sent == w.sent + [s] && v.last == w.last
  {
    w.(isProcessing := true, outstanding := w.outstanding + 1, sent := w.sent + [s])
  }

  /** A pending `sendMessage` callback runs: whatever the response, it
      clears the flag. With nothing pending nothing happens. */
  function Respond(w: Watcher): (v: Watcher)
    ensures w.outstanding > 0 ==> !v.isProcessing && v.outstanding == w.outstanding - 1
    ensures w.outstanding == 0 ==> v == w
    ensures v.last == w.last && v.sent == w.sent
  {
    if w.outstanding == 0 then w else w.(isProcessing := false, outstanding := w.outstanding - 1)
  }

  /** The watcher is busy and no callback will ever clear the flag. */
  predicate Stuck(w: Watcher) {
    w.isProcessing && w.outstanding == 0
  }
}
