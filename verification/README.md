# CodeSync core in Dafny

CodeSync is a browser extension that watches LeetCode and Codeforces pages
for an accepted submission and files its code in a GitHub repository. This
project models its core and proves properties of the model:

- the background worker (`public/background.js`):
  - the formatter, which gives the repository path and the file content;
  - the publisher, which probes for an existing file and then writes the file;
  - the history store, which keeps the newest 100 entries;
  - the message dispatcher;
- the two content-script watchers (`public/leetcode-detector.js`,
  `public/codeforces-detector.js`):
  - extracting a submission from what the page shows;
  - the deduplication window;
  - the `isProcessing` guard;
- the pure helpers of the popup's history tab and dashboard
  (`src/components/HistoryView.tsx`, `src/components/Dashboard.tsx`).

Modules, one per file:

| module | file | contents |
|---|---|---|
| `Wrappers` | `wrappers.dfy` | `Option` and `Result` |
| `Text` | `text.dfy` | JavaScript string behaviour on ASCII text: `includes`, `trim`, `split`, `toLowerCase`/`toUpperCase`, `parseInt`, decimal rendering, and leftmost-match search |
| `Submissions` | `submissions.dfy` | the submission and history-entry records; JavaScript truthiness, `||` and `${…}` on fields that may be `undefined` |
| `Formatter` | `formatter.dfy` | `generateFilePath` and `prepareFileContent` |
| `History` | `history.dfy` | `addToHistory`, reading the stored list, `clearHistory` |
| `GitHub` | `github.dfy` | `pushToGitHub`, `checkFileExists`, `testGitHubConnection`, the `onMessage` listener |
| `Watch` | `watch.dfy` | the watcher state both content scripts share |
| `LeetCode` | `leetcode.dfy` | the LeetCode watcher |
| `Codeforces` | `codeforces.dfy` | the Codeforces watcher |
| `Elapsed` | `elapsed.dfy` | the "time ago" rounding both popup views use |
| `HistoryView` | `history_view.dfy` | history-tab labels and badge colours |
| `Dashboard` | `dashboard.dfy` | dashboard label and status summary |
| `Scenarios` | `scenarios.dfy` | end-to-end runs on concrete inputs |

The outside world is made explicit:

- **Network.** Every network reply is a parameter: the probe's answer, the
  write's answer, the `GET /user` answer, and the fetched submission page.
  A push returns the requests it sends as data.
- **Storage.** The stored history is an `Option<seq<Record>>` passed in and
  handed back. `None` means the storage key is absent.
- **Time.** Clock readings are parameters: `Date.now()` is `now`, and the
  ISO-8601 header date is `date`.
- **Page content.** Each selector list becomes a list of the texts of its
  first matches, one per selector, with `None` where nothing matched.
- **Watchers.** Each `async` handler is one atomic step of a state machine.
  The step's events are a detection, a submission page being handled, and
  the worker's response arriving.

Behaviour of the code worth knowing:

- The token-check message type is `test-github-auth`.
- The existence probe asks `/repos/{username}/{repo}/contents/…`. The write
  goes to `/repos/{repo}/contents/…`, where `repo` is the stored
  repository value (`GitHub.ProbeAsksOtherRepository`).
- A duplicate Codeforces detection returns with `isProcessing` still set,
  which silences that page's watcher for good (`Codeforces.StuckReachable`,
  `Codeforces.StuckForever`).
- Neither watcher can report `javascript`, because `java` is tested first
  (`LeetCode.NeverJavaScript`, `Codeforces.NeverJavaScript`).
- A Codeforces row with no problem link, on a page with no heading, gives a
  submission without a problem index. The worker then fails with the
  `TypeError` of `undefined.toLowerCase()`
  (`Codeforces.RowWithoutProblemFails`).

## Model

| member | source | states |
|---|---|---|
| Formatter.Sanitize | public/background.js:94-98 | a sanitised title holds only `[a-z0-9_]`, never two underscores in a row, and neither starts nor ends with `_` |
| Formatter.SanitizeContent | public/background.js:94-98 | deleting the underscores from a sanitised title leaves exactly the title's lower-cased letters and digits, in order |
| Formatter.SanitizeWithoutSpaces | public/background.js:94-98 | a title with no whitespace sanitises to its lower-cased letters and digits alone |
| Formatter.SanitizeJoinsWords | public/background.js:94-98 | two lower-case alphanumeric words joined by a space sanitise to the words joined by `_` |
| Formatter.SanitizeNotIdempotent | public/background.js:94-98 | sanitising twice deletes the underscore the first pass put between two words |
| Formatter.Extension | public/background.js:100-112 | the extension is `txt` exactly when the lower-cased language is not a table key, and otherwise the key's table entry |
| Formatter.ExtensionAliases | public/background.js:101-111 | every alias in the table maps to its extension in any capitalisation |
| Formatter.ExtensionIgnoresCase | public/background.js:111 | lower-casing the language first never changes the extension |
| Formatter.FilePath | public/background.js:114-129 | path generation fails exactly for a Codeforces submission without a problem index, with the `toLowerCase` TypeError |
| Formatter.LeetCodePathShape | public/background.js:114-118 | a LeetCode path splits on `/` into `leetcode`, the difficulty (default `medium`) and `{sanitised title}.{ext}` |
| Formatter.CodeforcesPathShape | public/background.js:119-124 | a Codeforces path splits into `codeforces`, the division (default `div2`), `contest_{id}` and `{lower-cased index}.{ext}` |
| Formatter.CodeforcesPathIgnoresTitle | public/background.js:119-124 | a Codeforces path does not depend on the title |
| Formatter.OtherPathShape | public/background.js:127-129 | any other platform's path splits into the platform and `{sanitised title}.{ext}` |
| Formatter.HeaderLines | public/background.js:137-145 | the header's labelled lines start with the upper-cased platform, end with Date and Author, and keep the fixed label order |
| Formatter.HeaderOptionalLines | public/background.js:139-143 | Difficulty, Contest, Problem, Language and Problem URL each appear, carrying the field's value, exactly when the field is truthy |
| Formatter.FileContent | public/background.js:132-148 | the file opens with the comment line holding the title, then the Platform line, and ends with the code unchanged |
| GitHub.ProbeAsksOtherRepository | public/background.js:150-157 | the probe URL is the write URL of repository `{username}/{repo}`, and it is never the URL the write at line 46 goes to |
| GitHub.CheckFileExists | public/background.js:150-167 | an OK answer yields its parsed body as the file metadata, so the sha found is the probe's; a refusal or a thrown error yields none |
| GitHub.PayloadFor | public/background.js:32-44 | the payload targets `main` and carries the encoded content; it carries the found sha exactly when the file exists; its message is `Update {platform}: {title}` when the file exists and `Add {platform}: {title}` otherwise |
| GitHub.RejectionMessage | public/background.js:57-62 | the error for a refused write is never empty, so the `Unknown error` fallback never applies |
| GitHub.Push | public/background.js:12-91 | missing token or repository fails before any request; every failure leaves the history as it was; a success stores exactly one new entry in front; requests are sent exactly when credentials and path are usable |
| GitHub.Publish | public/background.js:46-78 | a push sends exactly the probe and then the PUT, and stores a history entry only when the write succeeds |
| GitHub.PushWritesTheFile | public/background.js:29-54 | a usable push probes, then PUTs the generated file content to the write URL; the message starts with `Update ` and the payload carries the sha from the probe's OK answer exactly when the probe found the file, and no sha otherwise |
| GitHub.PushHistoryEffect | public/background.js:64-89 | after a successful push the newest entry carries the publish time and the hosted URL, and the older entries follow unchanged |
| GitHub.PushSucceedsIff | public/background.js:15-90 | a push succeeds exactly when the credentials and path are usable and the write was accepted with a `content` member |
| GitHub.TestConnection | public/background.js:188-206 | the token check returns the user exactly for an OK answer, and `Invalid GitHub token` for a refused one |
| GitHub.Dispatch | public/background.js:212-246 | an unknown message kind gets no response; only a submission message can change the history; a token check without a token fails with `No GitHub token found` and sends nothing |
| GitHub.SubmissionResponse | public/background.js:217-228 | a submission is answered with the push's result or the push's error text, and `success` agrees with the push's outcome |
| GitHub.AuthResponse | public/background.js:230-245 | a token check with a token sends one `GET /user`, succeeds exactly when the token is accepted, and leaves the history alone |
| History.MakeRecord | public/background.js:173-177 | a history entry keeps every submission field except the timestamp, which becomes the publish time |
| History.AddToHistory | public/background.js:169-186 | the new entry goes in front, the old entries follow in order, and the list is cut to 100 |
| History.AddAllNewestFirst | public/background.js:169-186 | storing several entries in turn gives them newest first ahead of the old list, cut to 100 |
| History.AddAllFromCleared | public/background.js:169-186 | from a cleared list and from no stored list alike, storing entries in turn keeps the newest 100 of them, newest first |
| History.Clear | src/components/HistoryView.tsx:34-38 | after clearing, the history reads as empty |
| LeetCode.DedupWindow | public/leetcode-detector.js:296-301 | a submission is a repeat exactly when it has the previous title and lies within 30 seconds of it, on either side |
| LeetCode.ProblemPageExamples | public/leetcode-detector.js:59-62 | a problem path is a problem page, its submissions sub-path is not, and neither is a contest path |
| LeetCode.AcceptedStatusExamples | public/leetcode-detector.js:64-71 | an accepted status needs both the word and a success style |
| LeetCode.Slug | public/leetcode-detector.js:170 | there is a slug exactly when some `/problems/` is followed by a character other than `/`; the slug is the run of non-`/` characters after the leftmost such marker, so it is non-empty and holds no `/` |
| LeetCode.SlugTitle | public/leetcode-detector.js:170-175 | the title read from the URL is the slug with hyphens turned to spaces, every character unchanged except word starts, which are capitalised; `Unknown Problem` without a slug |
| LeetCode.SlugTitleRoundTrip | public/leetcode-detector.js:170-175 | for a lower-case slug, lower-casing the title and turning spaces back into hyphens gives the slug again |
| LeetCode.FirstNonBlank | public/leetcode-detector.js:186-192 | a heading is found exactly when some selector's text is not blank, and what is found is not blank |
| LeetCode.Title | public/leetcode-detector.js:171-192 | the first non-blank heading wins over the URL-derived title |
| LeetCode.Difficulty | public/leetcode-detector.js:195-213 | the difficulty is always easy, medium or hard |
| LeetCode.DifficultyDefault | public/leetcode-detector.js:195-213 | when no element names a level, the difficulty stays `medium` |
| LeetCode.DifficultyFirstMatch | public/leetcode-detector.js:203-212 | the first element that names a level decides the difficulty, and elements before it are passed over |
| LeetCode.ClassifyLanguage | public/leetcode-detector.js:249-255 | a language is reported exactly when one of the seven keywords occurs; the answer is the first keyword in the order python, java, javascript, c++/cpp, go, rust that occurs in the text |
| LeetCode.JavaScriptReadsAsJava | public/leetcode-detector.js:250-252 | a text naming javascript but not python reads as java |
| LeetCode.NeverJavaScript | public/leetcode-detector.js:250-252 | the javascript branch is unreachable |
| LeetCode.Language | public/leetcode-detector.js:234-258 | the language is always one of python, java, cpp, go and rust, and `cpp` when no selector finds an element |
| LeetCode.FirstElementDecides | public/leetcode-detector.js:246-258 | the first selector that finds an element, at whatever position, decides the language from that element's text alone, `cpp` when it names none |
| LeetCode.Code | public/leetcode-detector.js:270-289 | the code is the first non-blank code element, else the editor lines joined, else the placeholder, and is never empty |
| LeetCode.PageUrl | public/leetcode-detector.js:218 | the recorded URL is the longest prefix of the address before the first `?` |
| LeetCode.Extract | public/leetcode-detector.js:168-231 | an extracted submission is a LeetCode one stamped with the detection time, with no Codeforces fields and non-empty code; its title, URL, difficulty, language and code are the ones the page's title, link, difficulty, language and code readers give |
| LeetCode.ExtractedPath | public/leetcode-detector.js:222-230 | every extracted submission is filed under one of the three levels, with an extension other than `txt` |
| LeetCode.Step | public/leetcode-detector.js:133-166 | a busy watcher ignores detections; a new submission is sent and remembered; anything else leaves the watcher idle |
| LeetCode.StepConsistent | public/leetcode-detector.js:133-166 | each step keeps the flag set exactly while one response is pending, and keeps every sent submission new relative to the one before it |
| LeetCode.RunConsistent | public/leetcode-detector.js:133-166 | from a consistent state, no run of events leaves the watcher busy with no response to come |
| LeetCode.InitialConsistent | public/leetcode-detector.js:3-5 | a new watcher is consistent |
| Watch.Respond | public/codeforces-detector.js:88-92 | a response arriving clears the flag and changes nothing else |
| Codeforces.DedupWindow | public/codeforces-detector.js:225-230 | a repeat is the same contest and problem within 10 seconds on either side, whatever the title |
| Codeforces.GuessDivision | public/codeforces-detector.js:201-204 | the division is div1, div2 or div3, and div3 when the id is not a number |
| Codeforces.DivisionThresholds | public/codeforces-detector.js:201-204 | contest numbers from 1900 are div1, from 1200 div2, and the rest, like an empty id, div3 |
| Codeforces.ContestMatch | public/codeforces-detector.js:166 | the capture is the maximal digit run after the leftmost `contest/` followed by a digit, and there is none exactly when no such position exists |
| Codeforces.ProblemMatch | public/codeforces-detector.js:167 | the capture is the capital, with one following digit if present, after the leftmost `problem/` followed by a capital; none exactly when no such position exists |
| Codeforces.ProblemsetContestMatch | public/codeforces-detector.js:170 | the capture is the maximal digit run after the leftmost `problemset/problem/` followed by a digit; none exactly when no such position exists |
| Codeforces.ProblemsetIndexMatch | public/codeforces-detector.js:171 | the capture is the index after the digits and slash of the leftmost full `problemset/problem/{digits}/{capital}` match; none exactly when there is no match |
| Codeforces.ContestMatchAt | public/codeforces-detector.js:166 | wherever the contest form first matches, its digit run is the capture |
| Codeforces.ProblemMatchAt | public/codeforces-detector.js:167 | wherever the problem form first matches, its index is the capture |
| Codeforces.ParseProblemInfo | public/codeforces-detector.js:165-184 | a link parses exactly when the contest form or the problemset form matches in full; the contest form takes precedence and its captures are the id and index, else the problemset captures are; the division is guessed from the id and the title trimmed; otherwise `Invalid problem URL` |
| Codeforces.ContestLinkParses | public/codeforces-detector.js:165-184 | a link `/contest/{c}/problem/{x}` parses to contest `c` and index `x` |
| Codeforces.ContestLinkExample | public/codeforces-detector.js:165-184 | problem C2 of contest 1234 parses to contest `1234`, index `C2`, Division 2 |
| Codeforces.NoProblemSegmentRejects | public/codeforces-detector.js:165-177 | a link holding no `problem/` is rejected with `Invalid problem URL` |
| Codeforces.SubmissionLinkRejected | public/codeforces-detector.js:165-177 | a submission link `/contest/{c}/submission/{id}`, which the problem-link selector at line 143 also accepts, is rejected with `Invalid problem URL` when it is the link parsed |
| Codeforces.ContestFromPath | public/codeforces-detector.js:187-188 | the contest read from the path is always a run of digits, possibly empty |
| Codeforces.ContestFromPathAt | public/codeforces-detector.js:187-188 | the leftmost `/contest/{c}/submission/{d}` in the path supplies the contest `c`, which is then not empty |
| Codeforces.ContestFromPathNone | public/codeforces-detector.js:187-188 | a path with no `/contest/{c}/submission/{d}` gives the empty contest `""` |
| Codeforces.Heading | public/codeforces-detector.js:189-190 | the trimmed statement title when not blank, else the trimmed div title; there is no heading exactly when neither applies |
| Codeforces.FirstWord | public/codeforces-detector.js:191 | the index is the heading's longest whitespace-free prefix, present exactly when the heading is |
| Codeforces.ProblemFromPage | public/codeforces-detector.js:186-199 | the contest comes from the path and the index from the heading; the title is the heading when not blank, `Problem ` for a blank one and `Problem undefined` when there is no div title and the statement title is absent or blank |
| Codeforces.FindAccepted | public/codeforces-detector.js:52-71 | the row found is recent and accepted, or mentions Accepted and lies among the last ten rows |
| Codeforces.FindAcceptedChoice | public/codeforces-detector.js:52-71 | the first recent accepted row wins; without one, the first of the last ten rows that mentions Accepted |
| Codeforces.FindAcceptedNone | public/codeforces-detector.js:70 | with neither kind of row, nothing is found, however many older rows were accepted |
| Codeforces.DetectLanguage | public/codeforces-detector.js:206-215 | a language is detected exactly when one of the six keywords occurs in the lower-cased text; the answer is the first in the order c++, java, python, go, rust that occurs |
| Codeforces.NeverJavaScript | public/codeforces-detector.js:206-215 | `javascript` is never detected, because `java` is tested first |
| Codeforces.Language | public/codeforces-detector.js:158 | the language is the detected one, and cpp when none is detected; it is one of cpp, java, python, go and rust |
| Codeforces.CodeRequest | public/codeforces-detector.js:218-219 | the submission page is fetched exactly when there is a submission id |
| Codeforces.FetchCode | public/codeforces-detector.js:217-223 | without an id, or without a non-blank code block, the code is the placeholder; a failed fetch rejects; the code is never empty |
| Codeforces.LastSegment | public/codeforces-detector.js:141 | the id holds no slash, and it is the whole link exactly when the link holds no slash |
| Codeforces.SubmissionId | public/codeforces-detector.js:139-147 | the id comes from the last cell holding a submission link, and there is none exactly when no cell holds one |
| Codeforces.RowProblem | public/codeforces-detector.js:143-149 | a row without problem links takes the problem from the page; a failure is always `Invalid problem URL` |
| Codeforces.RowProblemFirstLink | public/codeforces-detector.js:143-149 | the first cell holding a problem link decides the problem: its link is the one parsed |
| Codeforces.SubmissionUrl | public/codeforces-detector.js:160 | with an id the URL is the contest's submission prefix followed by exactly the id, otherwise the page's address |
| Codeforces.ExtractFromRow | public/codeforces-detector.js:134-163 | extraction succeeds exactly when the row's problem and the code fetch do; title, contest, index and division are the row problem's, the code is the fetched one, the language the page's; failures pass the problem's or the fetch's error through; the URL is canonical exactly when there is an id |
| Codeforces.RowWithLinkHasPath | public/codeforces-detector.js:144-156 | a row holding a problem link, once extracted, always gives a path the worker can file |
| Codeforces.RowWithoutProblemFails | public/codeforces-detector.js:149-156 | a row with no problem link, on a page with no heading, is titled `Problem undefined`, and filing it fails with the TypeError |
| Codeforces.SubmissionMatch | public/codeforces-detector.js:38-40 | the id is the maximal digit run after the leftmost `/submission/` followed by a digit; none exactly when there is no such position |
| Codeforces.ExtractFromSubmissionPage | public/codeforces-detector.js:100-120 | a path without a submission id throws; a failed fetch rejects; a success carries the page's own URL and the handling time |
| Codeforces.SubmissionPageFields | public/codeforces-detector.js:100-120 | handling succeeds exactly on a submission path whose code page was fetched; the submission then carries the problem read from the page, the fetched code and the detected language |
| Codeforces.Step | public/codeforces-detector.js:78-132 | a busy watcher ignores everything but responses; an idle watcher sends and remembers a new detection, and on a repeat only raises the busy flag, sending nothing; an opened submission page is always sent and not remembered |
| Codeforces.StepSane | public/codeforces-detector.js:78-98 | at most one response is ever pending, and the flag stays set while one is |
| Codeforces.DuplicateSticks | public/codeforces-detector.js:84 | a duplicate detection leaves an idle watcher busy with no response to come |
| Codeforces.StuckForever | public/codeforces-detector.js:42-47 | once stuck, the watcher ignores every later event |
| Codeforces.StuckReachable | public/codeforces-detector.js:78-92 | detecting the same contest and index again within 10 s, after the first was answered, gets the watcher stuck, with one submission sent |
| Elapsed.Classify | src/components/HistoryView.tsx:41-52 | the age is "just now" below a minute, then whole minutes, hours and days, each count being the floor of the difference over its unit and at least 1 |
| HistoryView.FormatTimeAgo | src/components/HistoryView.tsx:41-52 | the label is `Just now` exactly when less than a minute has passed |
| HistoryView.TimeAgoRoundTrip | src/components/HistoryView.tsx:41-52 | reading a label back gives exactly the rounded age it was made from |
| HistoryView.PlatformColor | src/components/HistoryView.tsx:54-60 | orange exactly for `leetcode`, blue exactly for `codeforces`, grey for every other platform |
| HistoryView.DifficultyColorIgnoresCase | src/components/HistoryView.tsx:62-69 | difficulties equal up to case get the same colour |
| HistoryView.DifficultyColorOfUpper | src/components/HistoryView.tsx:63 | upper-casing a difficulty does not change its colour |
| HistoryView.DifficultyColorLevels | src/components/HistoryView.tsx:62-69 | green, yellow and red go exactly to easy, medium and hard in any case |
| HistoryView.LeetCodeBadges | src/components/HistoryView.tsx:54-69 | every extracted LeetCode entry gets the orange badge and a level colour |
| HistoryView.CodeforcesBadges | src/components/HistoryView.tsx:54-69 | every extracted Codeforces entry gets the blue badge and the grey level colour |
| Dashboard.FormatTimeAgo | src/components/Dashboard.tsx:57-68 | the label is `Just now` exactly when less than a minute has passed |
| Dashboard.TimeAgoRoundTrip | src/components/Dashboard.tsx:57-68 | reading a label back gives exactly the rounded age, with its plural agreeing with the count |
| Dashboard.Plural | src/components/Dashboard.tsx:64-66 | the unit carries the plural `s` exactly when the count is above one |
| Dashboard.ViewsAgree | src/components/Dashboard.tsx:57-68 | the dashboard and history tab show `Just now` in the same cases, and otherwise lead with the same count |
| Dashboard.LoadStatus | src/components/Dashboard.tsx:28-45 | the total is the number of stored entries; the last sync is the newest entry's timestamp when that is non-zero, and the current time for an empty history or a zero timestamp |
| Dashboard.OnlyHeadMatters | src/components/Dashboard.tsx:38-45 | only the newest entry's timestamp and the number of entries affect the summary |
| Dashboard.StatusAfterPush | src/components/Dashboard.tsx:38-43 | after a push at a non-zero time, the summary shows that time and one more entry, up to 100 |
| Dashboard.StatusAfterClear | src/components/Dashboard.tsx:31-43 | after clearing, the summary shows no entries and the current time |
| Text.ParseIntRendered | public/codeforces-detector.js:202 | `parseInt` of a rendered number gives the number back |
| Scenarios.TwoSumPath | public/background.js:114-118 | a LeetCode "Two Sum" in Python marked easy is filed at `leetcode/easy/two_sum.py` |
| Scenarios.ContestProblemPath | public/background.js:119-124 | problem `c` of contest 1234, div2, in C++ is filed at `codeforces/div2/contest_1234/c.cpp` |
| Scenarios.RepeatedDetectionSentOnce | public/leetcode-detector.js:141-161 | the same LeetCode problem detected again within 30 seconds is handed to the worker only once |
| Scenarios.FirstPublication | public/background.js:29-78 | a 404 probe then a 201 write resolves with the hosted URL, and an empty history gains exactly that one entry |
| Scenarios.RefusedToken | public/background.js:230-245 | a refused token is answered with `Invalid GitHub token` after one request, and the history is untouched |

## Left out

- Page observation: the `MutationObserver`s, polling intervals and timeouts, and the start-up routing of `checkCurrentPage`. The watchers are modelled from the moment a handler runs, so only which page kinds are recognised is kept (`Codeforces.IsStatusPage`, `Codeforces.IsSubmissionPage`, `LeetCode.IsProblemPage`).
- LeetCode's `findAcceptedElement` selector scan: it is DOM querying. `LeetCode.ContainsAcceptedStatus` models the per-element test it applies.
- Notifications (`chrome.notifications`, `showSuccessNotification`) and console logging have no effect on state.
- Base-64 encoding is kept as the opaque marker `Base64Utf8(text)`, because only which text is encoded matters here.
- `new Date().toISOString()` and `Date.now()` are parameters, so no calendar arithmetic is modelled.
- The dashboard's `todaySubmissions` count is left out. It depends on `toDateString` and the local time zone.
- Case mapping covers ASCII only. The Cyrillic keyword of `isRecentSubmission` is therefore matched only as written, in lower case.
- Formatter.Extension: treats inherited object keys such as `constructor` as unknown languages, while in JavaScript `extensions['constructor']` is a function.
- Codeforces.LastSegment: states that the id is slash-free and when it is the whole link, but not that it is always a suffix of the link.
- A JSON body that parses to `null` or to a non-object is folded into the `None`/`Failure` cases.
- Interleaving inside an `async` handler is coarsened to one atomic step per handler. Responses arrive as separate events.
- A `submission` message without `data` is not modelled, because the watchers always attach one.
- `LoginForm.tsx`, `SettingsView.tsx`, `App.tsx` and `vite.config.ts` are UI and build configuration, and are not part of this model.
- The GitHub API's own behaviour (sha checks, branch creation) is outside the extension and is not modelled. Its replies are inputs.
