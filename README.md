# pixel-pilot generation pipeline in Dafny

pixel-pilot turns a user's prompt into an explained animation. The browser sends the prompt over a WebSocket. The worker does the following:

- stores the prompt and streams an answer from a language model;
- pushes each new explanation while the answer grows;
- parses the full answer into a code block and an explanation;
- sanitises both, stores them, renders the code to a video and publishes it;
- ends with `complete`, or with a single generic `error`.

A small orchestrator hands idle worker machines to projects from an in-place list. Two React hooks keep the browser's view of the session.

This project models that core and proves its properties:

| file | module | models |
|---|---|---|
| `wrappers.dfy` | `Wrappers` | Option, Result and Outcome values |
| `text.dfy` | `Text` | JavaScript's whitespace class, leftmost search and `trim` |
| `parser.dfy` | `ResponseParser` | `Parse`, and the `Parser` class as a thin object over it (`apps/worker/parser.ts`) |
| `sanitizer.dfy` | `Sanitizer` | the two replace-then-trim chains, as a scan over a small regex vocabulary (`apps/worker/index.ts`) |
| `protocol.dfy` | `Protocol` | the server's event kinds and a grammar of the traces one prompt may produce |
| `worker.dfy` | `Worker` | the streaming loop with chunk dedup, `handlePromptWebSocket`, and a `Connection` object for the greeting and the message dispatch |
| `animation.dfy` | `Animation` | `apps/worker/os.ts`, listed below |
| `pool.dfy` | `Orchestrator` | `ALL_MACHINES` as a class with a sequence field, with allocation and refresh as methods |
| `client.dfy` | `ClientView` | the shared `onmessage` reducer and the other view transitions, plus how the view evolves while it replays a worker trace |
| `client_hooks.dfy` | `ClientHooks` | the two hooks as objects whose callbacks are methods, including the guarded hook's single-attempt connection logic |

`Animation` covers the following parts of `apps/worker/os.ts`:

- extracting the scene class name;
- the renderer command;
- the ordered search for the output video, as a loop;
- the primary-then-fallback render policy;
- the storage key and URL;
- `createAnimation`.

Regular expressions are modelled with leftmost-match semantics. Each one is a scan over start positions. At each position the alternatives are tried in the order a backtracking engine tries them. The `Explanation:` regex has no `u` flag, so its `\Z` is an identity escape that matches the letter `Z`. In the model, a label body therefore stops at the first blank line or the first capital `Z` (`ResponseParser.LabelBodyCaptured`). A label with neither after it does not match at all, and the explanation falls through to the after-code branch (`ResponseParser.UnterminatedLabel`).

Behaviour of the source worth knowing:

- The temporary workspace is removed only after a successful upload. In local mode it is kept, and a removal that fails after the upload makes the URL fall back to the local `file://` URL.
- Nothing stops a second prompt on the same socket.
- A refresh appends every running instance again, so an address already in use reappears as an idle entry and can be handed out twice (`Orchestrator.BusyHostListedIdleAgain`).
- The guarded hook never connects after a remount while its first socket is still connecting (`ClientHooks.RemountWhileConnecting`). The connecting flag outlives the unmount and blocks the new mount's only attempt, and nothing reconnects after that socket closes.

External effects are inputs. Each of the following is a value handed to the model, either a result or an `Outcome` that passes or fails:

- the database rows and writes;
- the model client and the chunks it streams;
- the subprocess run;
- the set of paths that exist;
- the fallback encoder;
- the object store.

The capacity request and the rows written are returned instead of sent.

## Model

| member | source | states |
|---|---|---|
| Text.Trim | apps/worker/parser.ts:100-101 | `trim`: the result has no surrounding whitespace, is the slice between the leading and trailing whitespace runs, and is empty exactly when the text is all whitespace |
| ResponseParser.TagMatchFirst | apps/worker/parser.ts:58 | the tag regex matches at the first opening tag and stops at the first closing tag after it, capturing the trimmed text between them |
| ResponseParser.TagMatchAbsent | apps/worker/parser.ts:58-59 | when no closing tag follows the first opening tag, the tag regex does not match at all |
| ResponseParser.LabelMatchStops | apps/worker/parser.ts:79 | the label regex's body never contains a `Z` or a blank line (`\Z` is the letter Z) |
| ResponseParser.Parse | apps/worker/parser.ts:51-103 | code, explanation and remaining text are trimmed; remaining text is the trimmed response exactly when no code was found; every field starts empty, so the result depends on the text alone |
| ResponseParser.CodeFromFirstTags | apps/worker/parser.ts:58-61 | a non-empty tagged block between the first `<code>` and the first `</code>` after it is the code |
| ResponseParser.CodeStableUnderExtension | apps/worker/index.ts:111-117 | once the accumulated text holds a closed, non-empty code block, parsing any longer text gives the same code |
| ResponseParser.FencedCode | apps/worker/parser.ts:58-69 | when the tags give no code (no pair, or an empty one), the code is the trimmed body of the leftmost opening fence line (bare or `typescript`) that has a closing fence after it, after any prose; the body runs to the first fence after the opening line and may hold single backticks |
| ResponseParser.FirstFenceMatch | apps/worker/parser.ts:65 | the fence regex matches at the first opening line with a closing fence after it, and captures the body up to that fence |
| ResponseParser.EmptyCodeTags | apps/worker/parser.ts:58-64 | a first `<code>` pair holding only whitespace gives no tagged code, so the fence fallback runs |
| ResponseParser.TagMatchNone | apps/worker/parser.ts:58-59 | with no opening tag at or after a position, the tag regex does not match there |
| ResponseParser.ExplanationFromFirstTags | apps/worker/parser.ts:72-75 | a non-empty tagged explanation wins over the label and after-code branches |
| ResponseParser.LabelExplanation | apps/worker/parser.ts:78-81 | with no tagged explanation, a non-empty label body is the explanation, trimmed, and it holds no capital `Z` |
| ResponseParser.LabelBodyCaptured | apps/worker/parser.ts:79 | at the first label, after `Explanation:`, a whitespace run and its newline, the regex captures exactly the text up to the first blank line or capital `Z` |
| ResponseParser.LabelledExplanation | apps/worker/parser.ts:78-81 | with no tagged explanation, that captured body, trimmed, is the explanation |
| ResponseParser.UnterminatedLabel | apps/worker/parser.ts:79-80 | when no blank line and no capital `Z` occurs at or after the first label, the label regex does not match |
| ResponseParser.StripsLabelAnyCase | apps/worker/parser.ts:87-90 | the after-code branch removes a leading `Explanation:` in any letter case together with the whitespace after it |
| ResponseParser.AfterMarkerAt | apps/worker/parser.ts:84 | a fence or `</code>` followed by a whitespace run holding a newline captures all the text after the run's last newline, including the whitespace left after it |
| ResponseParser.AfterCodeBranch | apps/worker/parser.ts:77-97 | with no tagged explanation and an absent or empty label body, the explanation is the text after the last newline of the whitespace that follows the first fence or `</code>` with such a run, with its leading labels stripped and trimmed, and empty when nothing is left |
| ResponseParser.UnlabelledAfterCode | apps/worker/parser.ts:87-90 | after-code text that starts with neither label is only trimmed |
| ResponseParser.IndentedLabelKept | apps/worker/parser.ts:87-90 | after-code text that starts with whitespace keeps a label, since both strips are anchored, and is only trimmed |
| ResponseParser.PlainLabelAfterCode | apps/worker/parser.ts:87-90 | a leading `Explanation:` in any letter case goes with the whitespace after it, and a bold label right after it is stripped as well |
| ResponseParser.BoldLabelAfterCode | apps/worker/parser.ts:87-90 | a leading `**Explanation:**` in any letter case goes with the whitespace after it, and the rest is trimmed |
| ResponseParser.Parser.constructor | apps/worker/parser.ts:41-45 | the object holds the parse of the response; an absent or empty response leaves all three fields empty |
| ResponseParser.Parser.ParseChunk | apps/worker/parser.ts:47-49 | the fields become the parse of the new text, whatever was parsed before |
| ResponseParser.Parser.GetCode | apps/worker/parser.ts:109-111 | returns the trimmed code of the last text parsed |
| ResponseParser.Parser.GetExplanation | apps/worker/parser.ts:113-115 | returns the trimmed explanation of the last text parsed |
| ResponseParser.Parser.GetRemainingText | apps/worker/parser.ts:117-119 | returns the trimmed text when no code was found, else the empty string |
| ResponseParser.Parser.GetText | apps/worker/parser.ts:105-107 | code, explanation and remaining text joined by newlines |
| ResponseParser.Parser.GetFullResponse | apps/worker/parser.ts:121-127 | the three fields are the parse of the last text |
| Sanitizer.SanitizeCode | apps/worker/index.ts:134-144 | the code chain's result is trimmed, no longer than its input, and holds no run of three newlines |
| Sanitizer.SanitizeExplanation | apps/worker/index.ts:146-153 | the explanation chain's result is trimmed, no longer than its input, and holds no run of three newlines |
| Sanitizer.ReplaceNotLonger | apps/worker/index.ts:134-153 | a global replacement whose replacement is no longer than the shortest match never lengthens the text |
| Sanitizer.CollapseNoTriple | apps/worker/index.ts:143 | collapsing runs of three or more newlines into two leaves no run of three |
| Sanitizer.TrimNoTriple | apps/worker/index.ts:144 | trimming keeps the absence of triple newlines |
| Sanitizer.PlainCodeOnlyTrimmed | apps/worker/index.ts:134-144 | on text no pattern touches, the code chain only trims |
| Sanitizer.PlainExplanationOnlyTrimmed | apps/worker/index.ts:146-153 | on text no pattern touches, the explanation chain only trims |
| Protocol.StagesAscend | apps/worker/index.ts:71-196 | along a well-formed trace the stages never go back |
| Protocol.TerminalOnlyLast | apps/worker/index.ts:193-204 | only the last event of a trace is `complete` or `error` |
| Protocol.ChunksPrecedeFinal | apps/worker/index.ts:121-172 | every explanation chunk comes before the final explanation |
| Protocol.VideoFollowsFinal | apps/worker/index.ts:169-190 | `video_ready` comes right after "Generating video...", which comes right after `explanation_final` |
| Worker.Conversation | apps/worker/index.ts:101-104 | one turn per stored prompt, in order, with its content; the role is `user` exactly for user prompts and `assistant` otherwise; the streamed chunks are the model's answer to these turns (`Worker.Respond`) |
| Worker.Emitted | apps/worker/index.ts:119-125 | the explanations pushed are non-empty values seen while streaming, and no two consecutive ones are equal |
| Worker.EmittedEndsWithLatest | apps/worker/index.ts:119-125 | the last explanation pushed is the latest non-empty one |
| Worker.EmittedOnChange | apps/worker/index.ts:119-125 | a value is pushed exactly when it is non-empty and differs from the latest non-empty value before it: every change is pushed and nothing else is |
| Worker.ChunkPushedOnChange | apps/worker/index.ts:116-125 | after each chunk, the explanation parsed from the response so far is pushed exactly when it is non-empty and differs from the latest non-empty explanation parsed before |
| Worker.NothingEmittedIffAllEmpty | apps/worker/index.ts:119 | nothing is pushed exactly when every parsed explanation is empty |
| Worker.LastChunkIsFullExplanation | apps/worker/index.ts:111-131 | when the full response has an explanation, the last chunk pushed is that explanation |
| Worker.StreamExplanations | apps/worker/index.ts:107-126 | the response is the in-order concatenation of the chunk texts, and the events pushed are exactly the deduplicated explanations of the re-parsed prefixes |
| Worker.SanitizedResponse | apps/worker/index.ts:129-153 | code and explanation are the sanitised fields of the parse of the full response |
| Worker.Conclude | apps/worker/index.ts:156-196 | after parsing: a well-formed ending that completes exactly when storing and rendering succeed; the animation row is stored for the newest prompt with the same code and explanation the events carry |
| Worker.Respond | apps/worker/index.ts:95-196 | once the history is read: the chunk events of the model's answer to the conversation built from it, an ending that completes exactly when the rest succeeds, and the animation row |
| Worker.PromptTrace | apps/worker/index.ts:71-196 | the opening statuses, the chunk events and a well-formed ending form a well-formed trace, equal to the success trace when everything succeeds |
| Worker.HandlePrompt | apps/worker/index.ts:65-205 | the events form a well-formed trace that ends with `complete` exactly when every step succeeds and with "Failed to process prompt" otherwise; on success the trace is processing, generating, the chunks, the final explanation, the video status, the video (when a prompt exists), complete; final and video events carry the sanitised explanation and code; the prompt row is written first and the animation row second |
| Worker.Connection.constructor | apps/worker/index.ts:25-32 | a new connection is greeted with "Connected to worker server" |
| Worker.Connection.OnMessage | apps/worker/index.ts:34-53 | a prompt runs the handler and appends its well-formed trace; another type changes nothing; an undecodable frame gets one error starting "Invalid message format: " |
| Animation.ClassDeclAt | apps/worker/os.ts:151 | a class declaration captured at a position is a non-empty word |
| Animation.SceneClassName | apps/worker/os.ts:151-152 | the class rendered is always a non-empty word |
| Animation.FirstDeclarationNamesScene | apps/worker/os.ts:151-152 | the name in the first `class <Name>(`, with any whitespace before the parenthesis, is the class rendered, whatever the text before it holds as long as no declaration matches there |
| Animation.NoClassRendersDefault | apps/worker/os.ts:152 | code in which no declaration matches renders `Scene`, even when the word `class` occurs |
| Animation.CandidatePaths | apps/worker/os.ts:181-187 | the five candidate output paths, in order |
| Animation.FirstExistingFrom | apps/worker/os.ts:189-197 | the first existing candidate, and none before it exists |
| Animation.SearchOutput | apps/worker/os.ts:189-197 | the loop returns the first existing candidate and stops there, or nothing when none exists |
| Animation.WorkspaceVideoPreferred | apps/worker/os.ts:181-197 | a video under the workspace is always chosen before one under the working directory |
| Animation.RenderWithManim | apps/worker/os.ts:145-224 | succeeds only when the command succeeds within the timeout, a candidate exists and the copy succeeds; it then yields the first existing candidate in search order; when the command succeeds it fails with `Manim output video not found` when no candidate exists and with the copy's error when the copy fails; when the command and the copy succeed it fails exactly when no candidate exists |
| Animation.RenderManim | apps/worker/os.ts:129-143 | fails exactly when both the primary renderer and the fallback fail, with the fallback's error; the fallback is used exactly when the primary fails |
| Animation.CreateSimpleAnimation | apps/worker/os.ts:112-127 | a failed script write is rethrown; otherwise the script in the workspace is rendered |
| Animation.RenderingFailsOnlyWithFallback | apps/worker/os.ts:129-143 | once the script is written, only a failing fallback makes rendering fail |
| Animation.Region | apps/worker/os.ts:84 | the region is never empty: the configured one, else `us-east-1` |
| Animation.DistinctKeys | apps/worker/os.ts:73 | distinct project and prompt pairs get distinct storage keys, for project ids without `/` |
| Animation.Publish | apps/worker/os.ts:69-97 | the remote URL exactly when credentials exist and reading, uploading and removing all succeed, otherwise the `file://` URL; the workspace is removed exactly in the remote case |
| Animation.CreateAnimation | apps/worker/os.ts:33-110 | no rows gives "No animations found"; a failed row read, workspace creation, script render or row update is returned as that error; success means rendering the newest row's code succeeded, with that rendering; the newest row is updated and the URL follows the publish rule; whenever the rows, workspace, update, script write and fallback succeed, the call succeeds |
| Orchestrator.FirstIdleFrom | apps/worker-orchestrator/index.ts:56 | the first idle machine in list order |
| Orchestrator.MachinePool.constructor | apps/worker-orchestrator/index.ts:22 | the pool starts empty |
| Orchestrator.MachinePool.FindIdle | apps/worker-orchestrator/index.ts:56 | returns the first idle machine's index |
| Orchestrator.MachinePool.Allocate | apps/worker-orchestrator/index.ts:55-77 | no idle machine: 404 "No idle machine found" and the pool unchanged; otherwise exactly the first idle machine becomes in use, and the response carries its address and the capacity formula over the new pool |
| Orchestrator.MachinePool.Refresh | apps/worker-orchestrator/index.ts:24-47 | machines not running become idle, then one idle entry per running instance is appended |
| Orchestrator.AssignOneFewerIdle | apps/worker-orchestrator/index.ts:63-68 | allocating leaves one idle machine fewer |
| Orchestrator.CapacityKeepsHeadroom | apps/worker-orchestrator/index.ts:68 | the requested capacity is the number of entries in use plus five |
| Orchestrator.RefreshWithRunningAllocates | apps/worker-orchestrator/index.ts:42-46 | after a refresh that sees a running instance, an allocation succeeds |
| Orchestrator.RefreshKeepsEntries | apps/worker-orchestrator/index.ts:36-46 | a refresh removes no entry and changes no address, and an entry stays in use exactly when it was in use and is still running |
| Orchestrator.BusyHostListedIdleAgain | apps/worker-orchestrator/index.ts:42-46 | a running host already in use is appended again as idle, so it can be handed out twice |
| ClientView.Apply | apps/frontend/lib/useWebSocketSimple.ts:48-79 | the reducer: each kind sets only its fields (status or "", chunk replaces, final clears streaming, video URL or null, complete clears processing, error defaults to "Unknown error occurred"); unknown and malformed messages change nothing; the connection flag never changes |
| ClientView.Sending | apps/frontend/lib/useWebSocketSimple.ts:104-110 | sending starts processing and clears the error, both explanations and the video, with status "Sending prompt..." |
| ClientView.Disconnected | apps/frontend/lib/useWebSocketSimple.ts:81-92 | close or error clears connected and processing and keeps everything else, apart from the error message |
| ClientView.Connected | apps/frontend/lib/useWebSocketSimple.ts:42-46 | opening sets connected and clears the error; processing, status, both explanations and the video URL are kept |
| ClientView.LatestChunkShown | apps/frontend/lib/useWebSocketSimple.ts:57-59 | after a run of chunks the view shows the last, not their concatenation |
| ClientView.LateEventsKeepExplanations | apps/frontend/lib/useWebSocketSimple.ts:64-74 | events after the final explanation leave both explanations alone |
| ClientView.TraceEndsProcessing | apps/frontend/lib/useWebSocketSimple.ts:67-74 | replaying any well-formed trace ends processing and shows "Complete" or the error |
| ClientView.FinalExplanationShown | apps/frontend/lib/useWebSocketSimple.ts:60-63 | after a trace with a final explanation the view shows it and no streaming text |
| ClientHooks.AfterSend | apps/frontend/lib/useWebSocketSimple.ts:103-120 | on an open socket the sending state, otherwise only the error "WebSocket not connected" |
| ClientHooks.SimpleHook.constructor | apps/frontend/lib/useWebSocketSimple.ts:25-40 | the initial view and a connecting socket |
| ClientHooks.SimpleHook.OnOpen | apps/frontend/lib/useWebSocketSimple.ts:42-46 | the socket is open and the view connected |
| ClientHooks.SimpleHook.OnMessage | apps/frontend/lib/useWebSocketSimple.ts:48-79 | the view is the reducer's result |
| ClientHooks.SimpleHook.OnClose | apps/frontend/lib/useWebSocketSimple.ts:81-85 | the socket is closed and the view disconnected |
| ClientHooks.SimpleHook.OnError | apps/frontend/lib/useWebSocketSimple.ts:87-92 | the view is disconnected with "WebSocket connection error" |
| ClientHooks.SimpleHook.SendPrompt | apps/frontend/lib/useWebSocketSimple.ts:103-120 | one prompt frame is sent exactly when the socket is open; otherwise only the error changes |
| ClientHooks.SimpleHook.Cleanup | apps/frontend/lib/useWebSocketSimple.ts:95-100 | unmounting closes the socket only when it is open |
| ClientHooks.GuardedHook.constructor | apps/frontend/lib/useWebSocket.ts:25-35 | the initial view, no socket, not connecting |
| ClientHooks.GuardedHook.Connect | apps/frontend/lib/useWebSocket.ts:42-127 | no effect when unmounted, connecting, out of attempts, or when the socket is connecting or open; otherwise the attempt is counted and a socket is created, or "Failed to connect to server" is shown; at most one socket per mount |
| ClientHooks.GuardedHook.Mount | apps/frontend/lib/useWebSocket.ts:37-40 | a mount starts a fresh counter and makes at most one attempt, none while a connection is still in progress |
| ClientHooks.GuardedHook.OnOpen | apps/frontend/lib/useWebSocket.ts:59-64 | clears the connecting flag, the socket is open and the view connected |
| ClientHooks.GuardedHook.OnMessage | apps/frontend/lib/useWebSocket.ts:66-97 | the view is the shared reducer's result |
| ClientHooks.GuardedHook.OnClose | apps/frontend/lib/useWebSocket.ts:99-113 | clears the connecting flag and disconnects; no new attempt or socket |
| ClientHooks.GuardedHook.OnError | apps/frontend/lib/useWebSocket.ts:115-121 | clears the connecting flag and disconnects with the worker-port error message |
| ClientHooks.GuardedHook.SendPrompt | apps/frontend/lib/useWebSocket.ts:142-159 | one prompt frame is sent exactly when the socket is open; otherwise only the error changes |
| ClientHooks.GuardedHook.Unmount | apps/frontend/lib/useWebSocket.ts:131-139 | the mount ends and a connecting or open socket starts closing |
| ClientHooks.RemountWhileConnecting | apps/frontend/lib/useWebSocket.ts:37-139 | mount, unmount, mount and the first socket's close leave the hook with a closed socket, disconnected, and no attempt in the new mount |

## Left out

- Database, language model, object store and cloud APIs: each call is an input, either a value or a failure. The request configuration sent to the model is not modelled: the model name, the token limit and the system prompt. Only the turns built from the history are modelled.
- Subprocess and file system:
  - The renderer run is reduced to whether it started, its exit code and its running time.
  - Whether files exist is a given set of paths.
  - The copy and the size check are one outcome.
  - Creating the `.coherro` folder and the temporary directory is one result.
  - The recursive directory listing only logs, and is not modelled.
- The fallback encoder's filter graph is media processing. It is one outcome.
- Timers and concurrency:
  - The periodic refresh is a method call.
  - The 60 s timeout is a comparison with a given running time.
  - Asynchronous interleaving is not modelled: two prompts handled at once on one socket, or a refresh during an allocation. Each message runs to completion in turn.
- JSON encoding and decoding:
  - Messages are datatypes.
  - An undecodable frame carries an abstract reason instead of the parser's error text.
  - Decoded prompt fields are strings, so a prompt message without `prompt` or `projectId` is not modelled.
- Strings are sequences of Unicode scalar values, not UTF-16 code units. Lone surrogates are not modelled.
- Path joining concatenates with `/` and does not normalise `..`, `.` or repeated separators.
- The `Animation not found` guard after a non-empty row list (apps/worker/os.ts:52-54) cannot fire, and is not modelled.
- The capacity request is returned, not sent. The source neither awaits nor catches it, so its failure is an unhandled rejection; that failure is not modelled.
- `assignedProject` is never written by the source, and stays `None`.
- The duplicate `POST /prompt` handler, the health endpoint, `/destroy` and the servers' `listen` calls are HTTP plumbing.
- React rendering and state batching are not modelled; each setter in a callback takes effect at once. A socket's handlers after that socket was replaced are not modelled. The simple hook's socket constructor throwing is not modelled.
- Worker.Connection.OnMessage: for a prompt it states only the shape and the outcome of the appended trace and not the rows written. The full trace and the rows are the contract of Worker.HandlePrompt, which it calls.
- Worker.HandlePrompt: a stream that throws is modelled as throwing after the chunks given. Chunks that arrive before the failure are pushed as usual.
- Sanitizer.SanitizeCode: the contract states the properties of the result, and the order of the replacements is the function's definition. The boilerplate patterns' `.` excludes the four JavaScript line terminators.
