/** The background worker: publishing one submission through the GitHub
    contents API, the token check, and the message dispatcher. Network
    replies and clock readings are parameters; the worker's choices are
    modelled as pure functions of them. */
module GitHub {
  import opened Wrappers
  import opened Text
  import opened Submissions
  import opened Formatter
  import opened History

  const BaseUrl := "https://api.github.com"
  const NotConfigured := "GitHub credentials or repository not configured"
  const HtmlUrlTypeError := "Cannot read properties of undefined (reading 'html_url')"
  const InvalidToken := "Invalid GitHub token"
  const NoToken := "No GitHub token found"
  const Branch := "main"

  /** The three values read from extension storage; any may be missing. */
  datatype Credentials = Credentials(token: Option<string>, username: Option<string>, repo: Option<string>)

  /** Base-64 of the UTF-8 bytes of a text. The encoding itself is not
      modelled: only which text was encoded. */
  datatype Encoded = Base64Utf8(text: string)

  /** The JSON body of a PUT to the contents API. `sha` is omitted from the
      JSON when absent. */
  datatype Payload = Payload(message: string, content: Encoded, branch: string, sha: Option<string>)

  datatype Request =
    | Get(url: string, authorization: string)
    | Put(url: string, authorization: string, payload: Payload)

  /** The object a successful probe answers with; its `sha` may be absent. */
  datatype FileMeta = FileMeta(sha: Option<string>)

  /** How the existence probe ended: an answer with its `ok` flag and its
      parsed body (`None` for `null` or an unreadable body), or a thrown
      network error. */
  datatype ProbeReply = ProbeAnswered(ok: bool, body: Option<FileMeta>) | ProbeThrew

  /** The `content` member of a successful write's reply. */
  datatype ContentRef = ContentRef(htmlUrl: Option<string>)

  /** How the PUT ended. `body` is the outcome of reading the reply as JSON:
      for an accepted write, its `content` member (absent or present); for a
      refused one, its `message` member; `Failure` when reading threw. */
  datatype WriteReply =
    | Written(result: Result<Option<ContentRef>>)
    | Rejected(status: int, message: Result<Option<string>>)
    | WriteThrew(error: string)

  function Authorization(token: Option<string>): string {
    "token " + Interpolate(token)
  }

  /** The URL `checkFileExists` asks: the repository path is prefixed with
      the user name. */
  function ProbeUrl(username: Option<string>, repo: Option<string>, path: string): string {
    BaseUrl + "/repos/" + Interpolate(username) + "/" + Interpolate(repo) + "/contents/" + path
  }

  /** The URL the PUT goes to: the stored repository value alone. */
  function WriteUrl(repo: Option<string>, path: string): string {
    BaseUrl + "/repos/" + Interpolate(repo) + "/contents/" + path
  }

  /** The probe addresses the repository named `{username}/{repo}`, so it
      never asks for the URL the write goes to. */
  lemma {:induction false} ProbeAsksOtherRepository(username: Option<string>, repo: Option<string>, path: string)
    ensures ProbeUrl(username, repo, path)
            == WriteUrl(Some(Interpolate(username) + "/" + Interpolate(repo)), path)
    ensures ProbeUrl(username, repo, path) != WriteUrl(repo, path)
  {
    var u, r := Interpolate(username), Interpolate(repo);
    var head, tail := BaseUrl + "/repos/", "/contents/" + path;
    assert ProbeUrl(username, repo, path) == head + (u + "/" + r) + tail;
    assert WriteUrl(repo, path) == head + r + tail;
    assert |head + (u + "/" + r) + tail| == |head + r + tail| + |u| + 1;
  }

  /** `checkFileExists`: the parsed body of an OK answer, and nothing for a
      refused answer or a thrown error. */
  function CheckFileExists(reply: ProbeReply): (existing: Option<FileMeta>)
    ensures existing.Some? ==> reply.ProbeAnswered? && reply.ok
    ensures existing.Some? <==> reply.ProbeAnswered? && reply.ok && reply.body.Some?
    ensures reply.ProbeAnswered? && reply.ok ==> existing == reply.body
  {
    match reply
    case ProbeAnswered(ok, body) => if ok then body else None
    case ProbeThrew => None
  }

  /** The payload: a create ("Add …", no sha) unless the probe found the
      file, in which case an update carrying the found sha. */
  function PayloadFor(s: Submission, content: string, existing: Option<FileMeta>): (p: Payload)
    ensures p.branch == Branch && p.content == Base64Utf8(content)
    ensures existing.None? ==> p.sha.None?
    ensures existing.Some? ==> p.sha == existing.value.sha
    ensures var subject := s.platform + ": " + s.title;
            |p.message| > |subject| && p.message[|p.message| - |subject|..] == subject
    ensures p.message == (if existing.Some? then "Update " else "Add ") + s.platform + ": " + s.title
  {
    var subject := s.platform + ": " + s.title;
    match existing
    case None => Payload("Add " + subject, Base64Utf8(content), Branch, None)
    case Some(meta) => Payload("Update " + subject, Base64Utf8(content), Branch, meta.sha)
  }

  /** The error text for a refused write. The `|| 'Unknown error'` fallback
      in the source never applies: the template string is never empty. */
  function RejectionMessage(status: int, message: Option<string>): (e: string)
    ensures e != ""
  {
    "GitHub API error: " + IntToDecimal(status) + " - " + Interpolate(message)
  }

  /** Everything one `pushToGitHub` call does that is visible outside:
      the requests it sends, what it resolves or rejects with, and the
      history value stored afterwards. */
  datatype PushRun = PushRun(requests: seq<Request>, outcome: Result<ContentRef>, stored: Option<seq<Record>>)

  /** `pushToGitHub` with the network replies, the header date, the
      publish time and the stored history given. */
  function Push(creds: Credentials, s: Submission, date: string, probe: ProbeReply,
                write: WriteReply, now: int, stored: Option<seq<Record>>): (run: PushRun)
    ensures !Truthy(creds.token) || !Truthy(creds.repo) ==>
              run == PushRun([], Failure(NotConfigured), stored)
    ensures run.outcome.Failure? ==> run.stored == stored
    ensures run.outcome.Success? ==>
              run.stored == Some(AddToHistory(stored, MakeRecord(s, run.outcome.value.htmlUrl, now)))
    ensures run.requests != [] <==> Truthy(creds.token) && Truthy(creds.repo) && FilePath(s).Success?
  {
    if !Truthy(creds.token) || !Truthy(creds.repo) then
      PushRun([], Failure(NotConfigured), stored)
    else match FilePath(s)
      case Failure(e) => PushRun([], Failure(e), stored)
      case Success(path) =>
        var payload := PayloadFor(s, FileContent(s, date), CheckFileExists(probe));
        Publish(creds, s, path, payload, write, now, stored)
  }

  /** The two requests of a push and what follows from the write's reply. */
  function Publish(creds: Credentials, s: Submission, path: string, payload: Payload,
                   write: WriteReply, now: int, stored: Option<seq<Record>>): (run: PushRun)
    ensures run.requests == [Get(ProbeUrl(creds.username, creds.repo, path), Authorization(creds.token)),
                             Put(WriteUrl(creds.repo, path), Authorization(creds.token), payload)]
    ensures run.outcome.Failure? ==> run.stored == stored
    ensures run.outcome.Success? ==>
              run.stored == Some(AddToHistory(stored, MakeRecord(s, run.outcome.value.htmlUrl, now)))
  {
        var auth := Authorization(creds.token);
        var requests := [Get(ProbeUrl(creds.username, creds.repo, path), auth),
                         Put(WriteUrl(creds.repo, path), auth, payload)];
        match write
        case WriteThrew(e) => PushRun(requests, Failure(e), stored)
        case Rejected(status, message) =>
          (match message
           case Failure(e) => PushRun(requests, Failure(e), stored)
           case Success(m) => PushRun(requests, Failure(RejectionMessage(status, m)), stored))
        case Written(result) =>
          (match result
           case Failure(e) => PushRun(requests, Failure(e), stored)
           case Success(None) => PushRun(requests, Failure(HtmlUrlTypeError), stored)
           case Success(Some(content)) =>
             var record := MakeRecord(s, content.htmlUrl, now);
             PushRun(requests, Success(content), Some(AddToHistory(stored, record))))
  }

  /** A configured push of a well-formed submission probes, then writes the
      file's content to the write URL, as an update exactly when the probe
      found the file. */
  lemma {:induction false} PushWritesTheFile(creds: Credentials, s: Submission, date: string, probe: ProbeReply,
                                             write: WriteReply, now: int, stored: Option<seq<Record>>)
    requires Truthy(creds.token) && Truthy(creds.repo) && FilePath(s).Success?
    ensures var run := Push(creds, s, date, probe, write, now, stored);
            var path := FilePath(s).value;
            |run.requests| == 2
            && run.requests[0] == Get(ProbeUrl(creds.username, creds.repo, path), "token " + creds.token.value)
            && run.requests[1].Put?
            && run.requests[1].url == WriteUrl(creds.repo, path)
            && run.requests[1].payload.content == Base64Utf8(FileContent(s, date))
            && (StartsWith(run.requests[1].payload.message, "Update ") <==> CheckFileExists(probe).Some?)
            && (probe.ProbeAnswered? && probe.ok && probe.body.Some? ==>
                  run.requests[1].payload.sha == probe.body.value.sha)
            && (probe.ProbeThrew? || !probe.ok || probe.body.None? ==> run.requests[1].payload.sha.None?)
  {
    var path := FilePath(s).value;
    var payload := PayloadFor(s, FileContent(s, date), CheckFileExists(probe));
    assert Push(creds, s, date, probe, write, now, stored) == Publish(creds, s, path, payload, write, now, stored);
    MessageVerb(s, FileContent(s, date), CheckFileExists(probe));
  }

  /** The commit message says `Update` exactly when the file was found. */
  lemma {:induction false} MessageVerb(s: Submission, content: string, existing: Option<FileMeta>)
    ensures StartsWith(PayloadFor(s, content, existing).message, "Update ") <==> existing.Some?
  {
    var m := PayloadFor(s, content, existing).message;
    var subject := s.platform + ": " + s.title;
    if existing.Some? {
      assert m == "Update " + subject;
      assert m[..7] == "Update ";
    } else {
      assert m == "Add " + subject;
      assert m[3] == ' ' && "Update "[3] == 'a';
    }
  }

  /** A failed push, whatever the cause, stores nothing; a successful one
      puts exactly one new entry, stamped with the publish time, in front. */
  lemma {:induction false} PushHistoryEffect(creds: Credentials, s: Submission, date: string, probe: ProbeReply,
                                             write: WriteReply, now: int, stored: Option<seq<Record>>)
    ensures var run := Push(creds, s, date, probe, write, now, stored);
            run.outcome.Failure? ==> run.stored == stored
    ensures var run := Push(creds, s, date, probe, write, now, stored);
            run.outcome.Success? ==>
              && run.stored.Some?
              && run.stored.value[0].Timestamp() == now
              && run.stored.value[0].githubUrl == run.outcome.value.htmlUrl
              && run.stored.value[1..] == Load(stored)[..|run.stored.value| - 1]
  {
    var run := Push(creds, s, date, probe, write, now, stored);
    if run.outcome.Success? {
      NewestFirst(stored, MakeRecord(s, run.outcome.value.htmlUrl, now));
    }
  }

  /** An added record heads the history, followed by as much of the old
      history as fits. */
  lemma {:induction false} NewestFirst(stored: Option<seq<Record>>, record: Record)
    ensures var h := AddToHistory(stored, record);
            |h| > 0 && h[0] == record && h[1..] == Load(stored)[..|h| - 1]
  {
    var h := AddToHistory(stored, record);
    assert forall i :: 0 <= i < |h| - 1 ==> h[1..][i] == h[i + 1];
  }

  /** A push succeeds exactly when the credentials and path are usable and
      the server accepted the write with a reply naming the stored file. */
  lemma {:induction false} PushSucceedsIff(creds: Credentials, s: Submission, date: string, probe: ProbeReply,
                                           write: WriteReply, now: int, stored: Option<seq<Record>>)
    ensures Push(creds, s, date, probe, write, now, stored).outcome.Success?
            <==> Truthy(creds.token) && Truthy(creds.repo) && FilePath(s).Success?
                 && write.Written? && write.result.Success? && write.result.value.Some?
  {
  }

  /** The reply of `GET /user`. */
  datatype User = User(login: string)
  datatype AuthReply = AuthAnswered(ok: bool, user: User) | AuthThrew(error: string)

  /** `testGitHubConnection`: the user for an OK answer, `Invalid GitHub
      token` for a refused one, the thrown error otherwise. */
  function TestConnection(reply: AuthReply): (r: Result<User>)
    ensures r.Success? <==> reply.AuthAnswered? && reply.ok
    ensures r.Success? ==> r.value == reply.user
    ensures reply.AuthAnswered? && !reply.ok ==> r == Failure(InvalidToken)
  {
    match reply
    case AuthAnswered(ok, user) => if ok then Success(user) else Failure(InvalidToken)
    case AuthThrew(e) => Failure(e)
  }

  /** A message from a content script or the popup. Only `data` of a
      `submission` message is read. */
  datatype Message = Message(kind: string, data: Submission)

  /** What `sendResponse` is called with. */
  datatype Response =
    | Pushed(result: ContentRef)
    | Authenticated(user: User)
    | Failed(error: string)
  {
    /** The `success` member of the response object. */
    predicate Success() {
      !Failed?
    }
  }

  /** Everything one message causes: the response (none for an unknown
      kind, so the sender's callback gets nothing), the requests sent and
      the history stored afterwards. */
  datatype DispatchRun = DispatchRun(response: Option<Response>, requests: seq<Request>, stored: Option<seq<Record>>)

  function Respond<T>(r: Result<T>, ok: T -> Response): Response {
    match r
    case Success(v) => ok(v)
    case Failure(e) => Failed(e)
  }

  /** The `onMessage` listener. */
  function Dispatch(msg: Message, creds: Credentials, date: string, probe: ProbeReply, write: WriteReply,
                    auth: AuthReply, now: int, stored: Option<seq<Record>>): (run: DispatchRun)
    ensures run.response.None? <==> msg.kind != "submission" && msg.kind != "test-github-auth"
    ensures msg.kind != "submission" ==> run.stored == stored
    ensures msg.kind == "test-github-auth" && !Truthy(creds.token) ==>
              run == DispatchRun(Some(Failed(NoToken)), [], stored)
  {
    if msg.kind == "submission" then
      var push := Push(creds, msg.data, date, probe, write, now, stored);
      DispatchRun(Some(Respond(push.outcome, (c: ContentRef) => Pushed(c))), push.requests, push.stored)
    else if msg.kind == "test-github-auth" then
      if !Truthy(creds.token) then DispatchRun(Some(Failed(NoToken)), [], stored)
      else
        var request := Get(BaseUrl + "/user", Authorization(creds.token));
        DispatchRun(Some(Respond(TestConnection(auth), (u: User) => Authenticated(u))), [request], stored)
    else
      DispatchRun(None, [], stored)
  }

  /** A submission message is answered with the push's outcome: success
      with the write's result, or failure with the push's error text, and
      the history changes exactly when the response reports success. */
  lemma {:induction false} SubmissionResponse(msg: Message, creds: Credentials, date: string, probe: ProbeReply,
                                              write: WriteReply, auth: AuthReply, now: int, stored: Option<seq<Record>>)
    requires msg.kind == "submission"
    ensures var run := Dispatch(msg, creds, date, probe, write, auth, now, stored);
            var push := Push(creds, msg.data, date, probe, write, now, stored);
            && run.response.Some?
            && (run.response.value.Success() <==> push.outcome.Success?)
            && (push.outcome.Success? ==> run.response.value == Pushed(push.outcome.value))
            && (push.outcome.Failure? ==> run.response.value == Failed(push.outcome.error))
            && (run.response.value.Success() ==> run.stored != None)
            && (!run.response.value.Success() ==> run.stored == stored)
  {
  }

  /** A token check with a stored token sends one `GET /user`, succeeds
      exactly when the server accepts the token, and never touches the
      history. */
  lemma {:induction false} AuthResponse(msg: Message, creds: Credentials, date: string, probe: ProbeReply,
                                        write: WriteReply, auth: AuthReply, now: int, stored: Option<seq<Record>>)
    requires msg.kind == "test-github-auth" && Truthy(creds.token)
    ensures var run := Dispatch(msg, creds, date, probe, write, auth, now, stored);
            && run.requests == [Get(BaseUrl + "/user", "token " + creds.token.value)]
            && run.response.Some?
            && (run.response.value.Success() <==> auth.AuthAnswered? && auth.ok)
            && (auth.AuthAnswered? && !auth.ok ==> run.response.value == Failed(InvalidToken))
            && run.stored == stored
  {
  }
}
