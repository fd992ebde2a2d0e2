/** End-to-end runs of the extension on concrete inputs: the path a
    detected submission is written to, the guard against a repeated
    detection, a first publication, and a rejected token. */
module Scenarios {
  import opened Wrappers
  import opened Text
  import opened Submissions
  import opened Formatter
  import opened History
  import opened Watch
  import opened GitHub
  import LeetCode

  /** An accepted LeetCode "Two Sum" in Python, marked easy. */
  function TwoSum(url: string, timestamp: int): Submission {
    Submission("leetcode", "Two Sum", "python", "print(1)", url, timestamp,
               Some("easy"), None, None, None)
  }

  /** The LeetCode solution lands under its difficulty, named after the
      sanitised title, with the language's extension. */
  lemma {:induction false} TwoSumPath(url: string, timestamp: int)
    ensures FilePath(TwoSum(url, timestamp)) == Success("leetcode/easy/two_sum.py")
  {
    var s := TwoSum(url, timestamp);
    assert FilePath(s) == Success("leetcode/" + OrElse(s.difficulty, "medium") + "/" + Sanitize(s.title)
                                  + "." + Extension(s.language));
    SanitizedTitle();
    PythonExtension();
    TwoSumSpelled();
  }

  lemma TwoSumSpelled()
    ensures "leetcode/" + "easy" + "/" + "two_sum" + "." + "py" == "leetcode/easy/two_sum.py"
  {
  }

  lemma ContestProblemSpelled()
    ensures "codeforces/" + "div2" + "/contest_" + "1234" + "/" + "c" + "." + "cpp"
            == "codeforces/div2/contest_1234/c.cpp"
  {
  }

  lemma {:induction false} SanitizedTitle()
    ensures Sanitize("Two Sum") == "two_sum"
  {
    LowerTitle();
    assert Sanitize("Two Sum") == Sanitize("two" + " " + "sum");
    TwoSumWords();
    SanitizeJoinsWords("two", "sum");
  }

  lemma LowerTitle()
    ensures Lower("Two Sum") == Lower("two" + " " + "sum")
  {
    assert "two" + " " + "sum" == "two sum";
    assert Lower("two sum") == "two sum";
  }

  lemma TwoSumWords()
    ensures forall i :: 0 <= i < |"two"| ==> IsAlnum("two"[i])
    ensures forall i :: 0 <= i < |"sum"| ==> IsAlnum("sum"[i])
    ensures "two" + "_" + "sum" == "two_sum"
  {
  }

  lemma {:induction false} PythonExtension()
    ensures Extension("python") == "py"
  {
    assert Lower("python") == "python";
  }

  /** An accepted Codeforces problem C of contest 1234, in C++. */
  function ContestProblem(title: string, url: string, timestamp: int): Submission {
    Submission("codeforces", title, "cpp", "int main(){}", url, timestamp,
               None, Some("1234"), Some("c"), Some("div2"))
  }

  /** The Codeforces solution lands under its division and contest, named
      after the problem index, whatever its title. */
  lemma {:induction false} ContestProblemPath(title: string, url: string, timestamp: int)
    ensures FilePath(ContestProblem(title, url, timestamp)) == Success("codeforces/div2/contest_1234/c.cpp")
  {
    var s := ContestProblem(title, url, timestamp);
    assert FilePath(s) == Success("codeforces/" + OrElse(s.division, "div2") + "/contest_" + Interpolate(s.contestId)
                                  + "/" + Lower(s.problemIndex.value) + "." + Extension(s.language));
    assert Lower("c") == "c";
    assert Extension("cpp") == "cpp" by {
      assert Lower("cpp") == "cpp";
    }
    ContestProblemSpelled();
  }

  /** The same LeetCode problem detected again within the window after the
      first hand-off completed is not handed on a second time, so the worker
      publishes, and appends to the history, once. */
  lemma {:induction false} RepeatedDetectionSentOnce(s: Submission, again: Submission)
    requires again.title == s.title && Abs(again.timestamp - s.timestamp) <= LeetCode.Window
    ensures var w := LeetCode.Run(Initial, [LeetCode.Detected(Success(s)), LeetCode.Responded,
                                            LeetCode.Detected(Success(again))]);
            w.sent == [s] && !w.isProcessing
  {
    var e := [LeetCode.Detected(Success(s)), LeetCode.Responded, LeetCode.Detected(Success(again))];
    var w1 := LeetCode.Step(Initial, e[0]);
    assert w1.sent == [s] && w1.last == Some(s);
    var w2 := LeetCode.Step(w1, e[1]);
    assert !w2.isProcessing && w2.sent == [s] && w2.last == Some(s);
    assert !LeetCode.IsNew(w2.last, again);
    var w3 := LeetCode.Step(w2, e[2]);
    assert w3 == w2;
    assert LeetCode.Run(Initial, e) == LeetCode.Run(w1, e[1..]);
    assert LeetCode.Run(w1, e[1..]) == LeetCode.Run(w2, e[2..]);
    assert LeetCode.Run(w2, e[2..]) == LeetCode.Run(w3, e[3..]);
  }

  /** A first publication: the probe answers 404, the write answers 201
      with the hosted file's URL. The push resolves with that URL and an
      empty history gains exactly one entry, the submission stamped with
      the publish time. */
  lemma {:induction false} FirstPublication(creds: Credentials, s: Submission, date: string, htmlUrl: string, now: int)
    requires Truthy(creds.token) && Truthy(creds.repo) && FilePath(s).Success?
    ensures var run := Push(creds, s, date, ProbeAnswered(false, None),
                            Written(Success(Some(ContentRef(Some(htmlUrl))))), now, None);
            && run.outcome == Success(ContentRef(Some(htmlUrl)))
            && run.stored == Some([Record(s.(timestamp := now), Some(htmlUrl))])
            && StartsWith(run.requests[1].payload.message, "Add ")
  {
    var write := Written(Success(Some(ContentRef(Some(htmlUrl)))));
    var payload := PayloadFor(s, FileContent(s, date), None);
    assert CheckFileExists(ProbeAnswered(false, None)) == None;
    assert Push(creds, s, date, ProbeAnswered(false, None), write, now, None)
           == Publish(creds, s, FilePath(s).value, payload, write, now, None);
    FirstEntry(MakeRecord(s, Some(htmlUrl), now));
    CreateMessage(s, FileContent(s, date));
  }

  /** Adding to an absent history gives a history of that one entry. */
  lemma {:induction false} FirstEntry(record: Record)
    ensures AddToHistory(None, record) == [record]
  {
    var h := AddToHistory(None, record);
    assert |h| == 1 && h[0] == record;
  }

  /** A file not found is created: the commit message starts with `Add `. */
  lemma {:induction false} CreateMessage(s: Submission, content: string)
    ensures StartsWith(PayloadFor(s, content, None).message, "Add ")
  {
    var m := PayloadFor(s, content, None).message;
    assert m == "Add " + (s.platform + ": " + s.title);
    assert m[..4] == "Add ";
  }

  /** A token the server refuses: the check answers with the invalid-token
      error after one request, and the history is untouched. */
  lemma {:induction false} RefusedToken(creds: Credentials, data: Submission, date: string, probe: ProbeReply,
                                        write: WriteReply, user: User, now: int, stored: Option<seq<Record>>)
    requires Truthy(creds.token)
    ensures var run := Dispatch(Message("test-github-auth", data), creds, date, probe, write,
                                AuthAnswered(false, user), now, stored);
            && run.response == Some(Failed(InvalidToken))
            && |run.requests| == 1
            && run.stored == stored
  {
  }
}
