/** The record a watcher hands to the background worker, and the history
    entry the worker stores after a successful push. */
module Submissions {
  import opened Wrappers

  /** JavaScript truthiness of a string that may be `undefined`: it must be
      present and non-empty. */
  predicate Truthy(o: Option<string>) {
    o.Some? && o.value != ""
  }

  /** `o || fallback` for a string that may be `undefined`. */
  function OrElse(o: Option<string>, fallback: string): (r: string)
    ensures Truthy(o) ==> r == o.value
    ensures !Truthy(o) ==> r == fallback
  {
    if Truthy(o) then o.value else fallback
  }

  /** Template interpolation `${o}`: an absent value prints as `undefined`. */
  function Interpolate(o: Option<string>): string {
    if o.Some? then o.value else "undefined"
  }

  /** A detected accepted submission. LeetCode fills `difficulty`;
      Codeforces fills `contestId`, `problemIndex` and `division`. The
      timestamp is milliseconds since the epoch. */
  datatype Submission = Submission(
    platform: string,
    title: string,
    language: string,
    code: string,
    url: string,
    timestamp: int,
    difficulty: Option<string>,
    contestId: Option<string>,
    problemIndex: Option<string>,
    division: Option<string>)

  /** A history entry: the submission's fields with `timestamp` replaced by
      the publish time, plus the hosted file's URL (`githubUrl`), which is
      `undefined` when the server's reply did not carry one. */
  datatype Record = Record(submission: Submission, githubUrl: Option<string>) {
    function Timestamp(): int {
      submission.timestamp
    }
  }
}
