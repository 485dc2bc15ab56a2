/**
 * The worker's WebSocket session (apps/worker/index.ts): the greeting, the
 * dispatch of incoming messages, and the handling of one prompt — storing it,
 * streaming the model's answer while pushing each new explanation, parsing and
 * sanitising the full answer, storing the animation row, rendering, and the
 * closing `complete` or `error` event.
 *
 * The language model, the database and the renderer are inputs: the chunks the
 * model streams for the conversation it is sent, and an `Outcome`/`Result` for
 * every call that may throw.
 */
module Worker {
  import opened Wrappers
  import opened Text
  import opened ResponseParser
  import opened Sanitizer
  import opened Protocol
  import opened Animation

  // ---------------------------------------------------------------------------
  // Prompt history and the request sent to the model
  // ---------------------------------------------------------------------------

  datatype PromptRow = PromptRow(id: string, content: string, kind: string)

  const UserKind: string := "USER"
  const UserRole: string := "user"
  const AssistantRole: string := "assistant"
  const PromptType: string := "prompt"

  datatype Turn = Turn(role: string, text: string)

  /** The project's prompts, oldest first, as conversation turns for the model. */
  function Conversation(history: seq<PromptRow>): (r: seq<Turn>)
    ensures |r| == |history|
    ensures forall i :: 0 <= i < |r| ==>
      && r[i].text == history[i].content
      && (r[i].role == UserRole <==> history[i].kind == UserKind)
      && (r[i].role == UserRole || r[i].role == AssistantRole)
  {
    seq(|history|, i requires 0 <= i < |history| =>
      Turn(if history[i].kind == UserKind then UserRole else AssistantRole, history[i].content))
  }

  // ---------------------------------------------------------------------------
  // Streaming: accumulated text and deduplicated explanation chunks
  // ---------------------------------------------------------------------------

  /** A streamed chunk's text; a chunk without text is appended as the string `undefined`. */
  function ChunkText(c: Option<string>): string {
    match c
    case Some(t) => t
    case None => "undefined"
  }

  /** The full response after the given chunks. */
  function Accumulated(chunks: seq<Option<string>>): string
    decreases |chunks|
  {
    if chunks == [] then []
    else Accumulated(chunks[..|chunks| - 1]) + ChunkText(chunks[|chunks| - 1])
  }

  /** The explanation parsed from the response so far, after each chunk. */
  function StreamedExplanations(chunks: seq<Option<string>>): (r: seq<string>)
    ensures |r| == |chunks|
    decreases |chunks|
  {
    if chunks == [] then []
    else StreamedExplanations(chunks[..|chunks| - 1]) + [Parse(Accumulated(chunks)).explanation]
  }

  function LastOr(xs: seq<string>, default: string): string {
    if xs == [] then default else xs[|xs| - 1]
  }

  /**
   * The explanations pushed while streaming: a value is pushed when it is
   * non-empty and differs from the last one pushed.
   */
  function Emitted(xs: seq<string>): (r: seq<string>)
    ensures |r| <= |xs|
    ensures forall i :: 0 <= i < |r| ==> r[i] != [] && r[i] in xs
    ensures forall i :: 0 <= i < |r| - 1 ==> r[i] != r[i + 1]
    decreases |xs|
  {
    if xs == [] then []
    else
      var prev := Emitted(xs[..|xs| - 1]);
      var x := xs[|xs| - 1];
      if x != [] && x != LastOr(prev, []) then prev + [x] else prev
  }

  /** The last non-empty value, or the empty string. */
  function LastNonEmpty(xs: seq<string>): string
    decreases |xs|
  {
    if xs == [] then []
    else if xs[|xs| - 1] != [] then xs[|xs| - 1]
    else LastNonEmpty(xs[..|xs| - 1])
  }

  /** The last explanation pushed is the latest non-empty one: none is lost at the end of the stream. */
  lemma {:induction false} EmittedEndsWithLatest(xs: seq<string>)
    ensures LastOr(Emitted(xs), []) == LastNonEmpty(xs)
    decreases |xs|
  {
    if xs != [] {
      EmittedEndsWithLatest(xs[..|xs| - 1]);
    }
  }

  /**
   * Each value is pushed exactly when it is non-empty and differs from the
   * latest non-empty value before it: every change is pushed, and nothing else.
   */
  lemma EmittedOnChange(xs: seq<string>, k: nat)
    requires k < |xs|
    ensures Emitted(xs[..k + 1]) == Emitted(xs[..k])
      + (if xs[k] != [] && xs[k] != LastNonEmpty(xs[..k]) then [xs[k]] else [])
  {
    EmittedEndsWithLatest(xs[..k]);
    assert xs[..k + 1][..k] == xs[..k];
    assert xs[..k + 1][k] == xs[k];
  }

  /** Nothing is pushed exactly when every parsed explanation is empty. */
  lemma {:induction false} NothingEmittedIffAllEmpty(xs: seq<string>)
    ensures Emitted(xs) == [] <==> forall i :: 0 <= i < |xs| ==> xs[i] == []
    decreases |xs|
  {
    if xs != [] {
      NothingEmittedIffAllEmpty(xs[..|xs| - 1]);
      var p := xs[..|xs| - 1];
      assert forall i :: 0 <= i < |p| ==> p[i] == xs[i];
    }
  }

  /**
   * When the full response has an explanation, the last chunk pushed is that
   * explanation (before sanitising).
   */
  lemma LastChunkIsFullExplanation(chunks: seq<Option<string>>)
    requires chunks != [] && Parse(Accumulated(chunks)).explanation != []
    ensures var sent := Emitted(StreamedExplanations(chunks));
      sent != [] && sent[|sent| - 1] == Parse(Accumulated(chunks)).explanation
  {
    var xs := StreamedExplanations(chunks);
    assert xs[|xs| - 1] == Parse(Accumulated(chunks)).explanation;
    EmittedEndsWithLatest(xs);
  }

  /** One more chunk extends the response and the list of parsed explanations by one. */
  lemma StreamStep(chunks: seq<Option<string>>, i: nat)
    requires i < |chunks|
    ensures Accumulated(chunks[..i + 1]) == Accumulated(chunks[..i]) + ChunkText(chunks[i])
    ensures StreamedExplanations(chunks[..i + 1])
      == StreamedExplanations(chunks[..i]) + [Parse(Accumulated(chunks[..i + 1])).explanation]
  {
    assert chunks[..i + 1][..i] == chunks[..i];
  }

  /**
   * After chunk `k`, the explanation parsed from the response so far is
   * pushed exactly when it is non-empty and differs from the latest non-empty
   * explanation parsed before it.
   */
  lemma ChunkPushedOnChange(chunks: seq<Option<string>>, k: nat)
    requires k < |chunks|
    ensures var e := Parse(Accumulated(chunks[..k + 1])).explanation;
      var before := StreamedExplanations(chunks[..k]);
      Emitted(StreamedExplanations(chunks[..k + 1]))
        == Emitted(before) + (if e != [] && e != LastNonEmpty(before) then [e] else [])
  {
    var e := Parse(Accumulated(chunks[..k + 1])).explanation;
    var before := StreamedExplanations(chunks[..k]);
    StreamStep(chunks, k);
    EmittedAppend(before, e);
    EmittedEndsWithLatest(before);
  }

  lemma EmittedAppend(ys: seq<string>, y: string)
    ensures var prev := Emitted(ys);
      Emitted(ys + [y]) == if y != [] && y != LastOr(prev, []) then prev + [y] else prev
  {
    assert (ys + [y])[..|ys|] == ys;
  }

  lemma ChunkEventsAppend(ys: seq<string>, y: string)
    ensures ChunkEvents(ys + [y]) == ChunkEvents(ys) + [ExplanationChunk(y)]
  {
  }

  /** One step of the streaming loop: the pushed values and the last one pushed after chunk `i`. */
  lemma StreamAdvance(chunks: seq<Option<string>>, i: nat, e: string)
    requires i < |chunks| && e == Parse(Accumulated(chunks[..i + 1])).explanation
    ensures var prev := Emitted(StreamedExplanations(chunks[..i]));
      var last := LastOr(prev, []);
      var pushed := e != [] && e != last;
      && LastOr(Emitted(StreamedExplanations(chunks[..i + 1])), []) == (if pushed then e else last)
      && ChunkEvents(Emitted(StreamedExplanations(chunks[..i + 1])))
         == ChunkEvents(prev) + (if pushed then [ExplanationChunk(e)] else [])
  {
    var xs := StreamedExplanations(chunks[..i]);
    StreamStep(chunks, i);
    EmittedAppend(xs, e);
    ChunkEventsAppend(Emitted(xs), e);
  }

  /** The streaming loop: accumulates the chunks and pushes each new non-empty explanation. */
  method StreamExplanations(chunks: seq<Option<string>>) returns (fullResponse: string, events: seq<ServerEvent>)
    ensures fullResponse == Accumulated(chunks)
    ensures events == ChunkEvents(Emitted(StreamedExplanations(chunks)))
  {
    fullResponse := "";
    var streamedExplanation := "";
    events := [];
    var i := 0;
    while i < |chunks|
      invariant 0 <= i <= |chunks|
      invariant fullResponse == Accumulated(chunks[..i])
      invariant streamedExplanation == LastOr(Emitted(StreamedExplanations(chunks[..i])), [])
      invariant events == ChunkEvents(Emitted(StreamedExplanations(chunks[..i])))
    {
      StreamStep(chunks, i);
      fullResponse := fullResponse + ChunkText(chunks[i]);
      var parser := new Parser(Some(fullResponse));
      var currentExplanation := parser.GetExplanation();
      StreamAdvance(chunks, i, currentExplanation);
      if currentExplanation != [] && currentExplanation != streamedExplanation {
        streamedExplanation := currentExplanation;
        events := events + [ExplanationChunk(currentExplanation)];
      }
      i := i + 1;
    }
    assert chunks[..i] == chunks;
  }

  // ---------------------------------------------------------------------------
  // Handling one prompt
  // ---------------------------------------------------------------------------

  /** What the model client, the model, the database and the renderer do during one prompt. */
  datatype WorkerEnv = WorkerEnv(
    clientCreated: bool,                // constructing the model client
    promptStore: Outcome,               // storing the user's prompt
    history: Result<seq<PromptRow>>,    // the project's prompts, oldest first
    model: seq<Turn> -> seq<Option<string>>,  // the chunks the model streams for a conversation
    streamError: bool,                  // opening or reading the stream throws after those chunks
    animationStore: Outcome,            // storing the animation row
    animation: AnimationEnv)            // what rendering and publishing see

  datatype DbWrite =
    | PromptCreated(content: string, projectId: string, kind: string)
    | AnimationCreated(code: string, explanation: string, projectId: string, promptId: string)

  /** The chunks streamed for the conversation built from the stored prompts; none before they are read. */
  function Chunks(env: WorkerEnv): seq<Option<string>> {
    if env.history.Ok? then env.model(Conversation(env.history.value)) else []
  }

  function FinalResponse(env: WorkerEnv): ParseResult {
    Parse(Accumulated(Chunks(env)))
  }

  function FinalCode(env: WorkerEnv): string {
    SanitizeCode(FinalResponse(env).code)
  }

  function FinalExplanation(env: WorkerEnv): string {
    SanitizeExplanation(FinalResponse(env).explanation)
  }

  /** An animation row is stored only when the newest prompt has a non-empty id. */
  predicate StoresAnimation(history: seq<PromptRow>) {
    history != [] && history[|history| - 1].id != []
  }

  /** The stream was fully read: everything before parsing succeeded. */
  predicate StreamCompletes(env: WorkerEnv) {
    env.clientCreated && env.promptStore.Pass? && env.history.Ok? && !env.streamError
  }

  /** Everything after parsing succeeds: storing the animation row and rendering. */
  predicate ConcludeSucceeds(projectId: string, history: seq<PromptRow>, env: WorkerEnv) {
    && (StoresAnimation(history) ==> env.animationStore.Pass?)
    && (history != [] ==> CreateAnimation(projectId, history[|history| - 1].id, env.animation).Ok?)
  }

  /** The whole prompt succeeds. */
  predicate Succeeds(projectId: string, env: WorkerEnv) {
    StreamCompletes(env) && ConcludeSucceeds(projectId, env.history.value, env)
  }

  /** The events after the chunks when everything succeeds. */
  function SuccessEnding(projectId: string, history: seq<PromptRow>, env: WorkerEnv, code: string, explanation: string)
    : seq<ServerEvent>
    requires ConcludeSucceeds(projectId, history, env)
  {
    [ExplanationFinal(explanation), Status(VideoStatus)]
    + (if history == [] then []
       else [VideoReady(CreateAnimation(projectId, history[|history| - 1].id, env.animation).value.videoUrl,
                        code, explanation)])
    + [Complete(CompleteMessage)]
  }

  /** The events of a successful prompt, in order. */
  function SuccessTrace(projectId: string, env: WorkerEnv): seq<ServerEvent>
    requires Succeeds(projectId, env)
  {
    [Status(ProcessingStatus), Status(GeneratingStatus)]
    + ChunkEvents(Emitted(StreamedExplanations(Chunks(env))))
    + SuccessEnding(projectId, env.history.value, env, FinalCode(env), FinalExplanation(env))
  }

  /** A well-formed end of a trace: from the final explanation, or an error, to a terminal event. */
  predicate Ending(tail: seq<ServerEvent>) {
    && |tail| >= 1
    && (Stage(tail[0]) == 3 || Stage(tail[0]) == 7)
    && (forall i :: 0 <= i < |tail| - 1 ==> Follows(Stage(tail[i]), Stage(tail[i + 1])))
    && Terminal(tail[|tail| - 1])
  }

  /** A trace made of the two opening statuses, explanation chunks and a well-formed ending is well formed. */
  lemma ChunkedTrace(xs: seq<string>, tail: seq<ServerEvent>)
    requires Ending(tail)
    ensures WellFormedTrace([Status(ProcessingStatus), Status(GeneratingStatus)] + ChunkEvents(xs) + tail)
  {
    var head := [Status(ProcessingStatus), Status(GeneratingStatus)];
    var mid := ChunkEvents(xs);
    var ev := head + mid + tail;
    forall i | 0 <= i < |ev| - 1
      ensures Follows(Stage(ev[i]), Stage(ev[i + 1]))
    {
      if i + 1 < 2 + |mid| {
        assert i + 1 >= 2 ==> ev[i + 1] == mid[i - 1];
      } else if i >= 2 + |mid| {
        assert ev[i] == tail[i - 2 - |mid|] && ev[i + 1] == tail[i + 1 - 2 - |mid|];
      } else {
        assert ev[i + 1] == tail[0];
        assert i >= 2 ==> ev[i] == mid[i - 2];
      }
    }
    assert ev[|ev| - 1] == tail[|tail| - 1];
  }

  /** Every final explanation or video event of such a trace is one of the ending's. */
  lemma ChunkedTraceEvents(xs: seq<string>, tail: seq<ServerEvent>)
    ensures var ev := [Status(ProcessingStatus), Status(GeneratingStatus)] + ChunkEvents(xs) + tail;
      forall i :: 0 <= i < |ev| && (ev[i].ExplanationFinal? || ev[i].VideoReady?) ==> ev[i] in tail
  {
    var head := [Status(ProcessingStatus), Status(GeneratingStatus)];
    var ev := head + ChunkEvents(xs) + tail;
    forall i | 0 <= i < 2 + |xs|
      ensures !ev[i].ExplanationFinal? && !ev[i].VideoReady?
    {
      if i < 2 {
        assert ev[i] == head[i];
      } else {
        assert ev[i] == ChunkEvents(xs)[i - 2];
      }
    }
    forall i | 2 + |xs| <= i < |ev|
      ensures ev[i] in tail
    {
      assert ev[i] == tail[i - 2 - |xs|];
    }
  }

  /** The events after the opening statuses and the chunks. */
  predicate EndingOf(projectId: string, env: WorkerEnv, tail: seq<ServerEvent>)
    requires StreamCompletes(env) || (env.clientCreated && env.promptStore.Pass? && env.history.Ok?)
  {
    && Ending(tail)
    && tail[|tail| - 1] == (if Succeeds(projectId, env) then Complete(CompleteMessage) else Error(FailureMessage))
    && (Succeeds(projectId, env) ==>
          tail == SuccessEnding(projectId, env.history.value, env, FinalCode(env), FinalExplanation(env)))
    && (forall e :: e in tail && e.ExplanationFinal? ==> e.content == FinalExplanation(env))
    && (forall e :: e in tail && e.VideoReady? ==> e.code == FinalCode(env) && e.explanation == FinalExplanation(env))
  }

  /**
   * The events of one prompt: a well-formed trace that ends with `complete`
   * exactly when every step succeeds, is the success trace then, and whose
   * final explanation and video events carry the sanitised explanation and code.
   */
  predicate PromptEvents(projectId: string, env: WorkerEnv, events: seq<ServerEvent>) {
    && WellFormedTrace(events)
    && events[|events| - 1] == (if Succeeds(projectId, env) then Complete(CompleteMessage) else Error(FailureMessage))
    && (Succeeds(projectId, env) ==> events == SuccessTrace(projectId, env))
    && (forall e :: e in events && e.ExplanationFinal? ==> e.content == FinalExplanation(env))
    && (forall e :: e in events && e.VideoReady? ==> e.code == FinalCode(env) && e.explanation == FinalExplanation(env))
  }

  /** The full trace of a prompt whose history was read, from its ending. */
  lemma PromptTrace(projectId: string, env: WorkerEnv, tail: seq<ServerEvent>)
    requires env.clientCreated && env.promptStore.Pass? && env.history.Ok?
    requires EndingOf(projectId, env, tail)
    ensures PromptEvents(projectId, env, [Status(ProcessingStatus), Status(GeneratingStatus)]
                                         + ChunkEvents(Emitted(StreamedExplanations(Chunks(env)))) + tail)
  {
    var xs := Emitted(StreamedExplanations(Chunks(env)));
    ChunkedTrace(xs, tail);
    ChunkedTraceEvents(xs, tail);
  }

  /** A prompt that fails before the history is read ends after at most the processing status. */
  lemma EarlyFailureTrace(projectId: string, env: WorkerEnv, events: seq<ServerEvent>)
    requires !(env.clientCreated && env.promptStore.Pass? && env.history.Ok?)
    requires events == [Error(FailureMessage)] || events == [Status(ProcessingStatus), Error(FailureMessage)]
    ensures PromptEvents(projectId, env, events)
  {
  }

  /** Parses the full response and sanitises its code and explanation. */
  method SanitizedResponse(fullResponse: string) returns (code: string, explanation: string)
    ensures code == SanitizeCode(Parse(fullResponse).code)
    ensures explanation == SanitizeExplanation(Parse(fullResponse).explanation)
  {
    var parser := new Parser(Some(fullResponse));
    code := SanitizeCode(parser.GetCode());
    explanation := SanitizeExplanation(parser.GetExplanation());
  }

  /**
   * The events after the chunks, for a given code and explanation: a
   * well-formed ending that completes exactly when storing and rendering
   * succeed, is the success ending then, and carries that code and explanation.
   */
  predicate ConcludedTail(projectId: string, history: seq<PromptRow>, env: WorkerEnv, code: string, explanation: string,
                          tail: seq<ServerEvent>) {
    && Ending(tail)
    && tail[|tail| - 1] == (if ConcludeSucceeds(projectId, history, env) then Complete(CompleteMessage) else Error(FailureMessage))
    && (ConcludeSucceeds(projectId, history, env) ==> tail == SuccessEnding(projectId, history, env, code, explanation))
    && (forall e :: e in tail && e.ExplanationFinal? ==> e.content == explanation)
    && (forall e :: e in tail && e.VideoReady? ==> e.code == code && e.explanation == explanation)
  }

  /** Storing the animation row fails: the error is the only event after the chunks. */
  lemma StoreFailedTail(projectId: string, history: seq<PromptRow>, env: WorkerEnv, code: string, explanation: string)
    requires StoresAnimation(history) && env.animationStore.Fail?
    ensures ConcludedTail(projectId, history, env, code, explanation, [Error(FailureMessage)])
  {
  }

  /** Rendering fails: the final explanation and the video status come before the error. */
  lemma RenderFailedTail(projectId: string, history: seq<PromptRow>, env: WorkerEnv, code: string, explanation: string)
    requires history != [] && CreateAnimation(projectId, history[|history| - 1].id, env.animation).Err?
    ensures ConcludedTail(projectId, history, env, code, explanation,
                          [ExplanationFinal(explanation), Status(VideoStatus), Error(FailureMessage)])
  {
    var tail := [ExplanationFinal(explanation), Status(VideoStatus), Error(FailureMessage)];
    assert forall e :: e in tail ==> e == tail[0] || e == tail[1] || e == tail[2];
  }

  /** Everything succeeds: the success ending. */
  lemma CompletedTail(projectId: string, history: seq<PromptRow>, env: WorkerEnv, code: string, explanation: string)
    requires ConcludeSucceeds(projectId, history, env)
    ensures ConcludedTail(projectId, history, env, code, explanation, SuccessEnding(projectId, history, env, code, explanation))
  {
    var tail := SuccessEnding(projectId, history, env, code, explanation);
    if history == [] {
      assert tail == [ExplanationFinal(explanation), Status(VideoStatus), Complete(CompleteMessage)];
      assert forall e :: e in tail ==> e == tail[0] || e == tail[1] || e == tail[2];
    } else {
      var url := CreateAnimation(projectId, history[|history| - 1].id, env.animation).value.videoUrl;
      assert tail == [ExplanationFinal(explanation), Status(VideoStatus), VideoReady(url, code, explanation),
                      Complete(CompleteMessage)];
      assert forall e :: e in tail ==> e == tail[0] || e == tail[1] || e == tail[2] || e == tail[3];
    }
  }

  /**
   * After parsing: stores the animation row for the newest prompt, sends the
   * final explanation, renders, and ends with `complete` or the error event.
   */
  method Conclude(projectId: string, history: seq<PromptRow>, env: WorkerEnv, code: string, explanation: string)
    returns (tail: seq<ServerEvent>, stored: Option<DbWrite>)
    ensures ConcludedTail(projectId, history, env, code, explanation, tail)
    ensures stored.Some? == (StoresAnimation(history) && env.animationStore.Pass?)
    ensures stored.Some? ==> stored.value == AnimationCreated(code, explanation, projectId, history[|history| - 1].id)
  {
    stored := None;
    if StoresAnimation(history) {
      if env.animationStore.Fail? {
        tail := [Error(FailureMessage)];
        StoreFailedTail(projectId, history, env, code, explanation);
        return;
      }
      stored := Some(AnimationCreated(code, explanation, projectId, history[|history| - 1].id));
    }
    if history != [] {
      var result := CreateAnimation(projectId, history[|history| - 1].id, env.animation);
      if result.Err? {
        tail := [ExplanationFinal(explanation), Status(VideoStatus), Error(FailureMessage)];
        RenderFailedTail(projectId, history, env, code, explanation);
        return;
      }
      tail := [ExplanationFinal(explanation), Status(VideoStatus), VideoReady(result.value.videoUrl, code, explanation),
               Complete(CompleteMessage)];
    } else {
      tail := [ExplanationFinal(explanation), Status(VideoStatus), Complete(CompleteMessage)];
    }
    CompletedTail(projectId, history, env, code, explanation);
  }

  /** A stream that fails ends the trace with the error event. */
  lemma StreamErrorEnding(projectId: string, env: WorkerEnv)
    requires env.clientCreated && env.promptStore.Pass? && env.history.Ok? && env.streamError
    ensures EndingOf(projectId, env, [Error(FailureMessage)])
  {
  }

  /** What `Conclude` promises, read for the response the stream delivered. */
  lemma ConcludedEnding(projectId: string, env: WorkerEnv, tail: seq<ServerEvent>)
    requires StreamCompletes(env)
    requires ConcludedTail(projectId, env.history.value, env, FinalCode(env), FinalExplanation(env), tail)
    ensures EndingOf(projectId, env, tail)
  {
  }

  /**
   * Once the history is read: streams the answer, parses and sanitises it, and
   * concludes. Returns the chunk events, the events after them and the stored row.
   */
  method Respond(projectId: string, env: WorkerEnv)
    returns (chunkEvents: seq<ServerEvent>, tail: seq<ServerEvent>, stored: Option<DbWrite>)
    requires env.clientCreated && env.promptStore.Pass? && env.history.Ok?
    ensures chunkEvents == ChunkEvents(Emitted(StreamedExplanations(env.model(Conversation(env.history.value)))))
    ensures EndingOf(projectId, env, tail)
    ensures stored.Some? == (StreamCompletes(env) && StoresAnimation(env.history.value) && env.animationStore.Pass?)
    ensures stored.Some? ==> stored.value == AnimationCreated(FinalCode(env), FinalExplanation(env), projectId,
                                                             env.history.value[|env.history.value| - 1].id)
  {
    var turns := Conversation(env.history.value);
    var fullResponse;
    fullResponse, chunkEvents := StreamExplanations(env.model(turns));
    if env.streamError {
      tail, stored := [Error(FailureMessage)], None;
      StreamErrorEnding(projectId, env);
    } else {
      var code, explanation := SanitizedResponse(fullResponse);
      tail, stored := Conclude(projectId, env.history.value, env, code, explanation);
      ConcludedEnding(projectId, env, tail);
    }
  }

  /**
   * Handles one prompt: the events sent to the client, in order, and the rows
   * written. Any failure ends the trace with the generic error event.
   */
  method HandlePrompt(prompt: string, projectId: string, env: WorkerEnv)
    returns (events: seq<ServerEvent>, writes: seq<DbWrite>)
    ensures PromptEvents(projectId, env, events)
    ensures (writes != []) == (env.clientCreated && env.promptStore.Pass?)
    ensures writes != [] ==> writes[0] == PromptCreated(prompt, projectId, UserKind)
    ensures (|writes| == 2) == (StreamCompletes(env) && StoresAnimation(env.history.value) && env.animationStore.Pass?)
    ensures |writes| == 2 ==> writes[1] == AnimationCreated(FinalCode(env), FinalExplanation(env), projectId,
                                                           env.history.value[|env.history.value| - 1].id)
    ensures |writes| <= 2
  {
    writes := [];
    if !env.clientCreated {
      events := [Error(FailureMessage)];
      EarlyFailureTrace(projectId, env, events);
      return;
    }
    events := [Status(ProcessingStatus)];
    if env.promptStore.Fail? {
      events := [Status(ProcessingStatus), Error(FailureMessage)];
      EarlyFailureTrace(projectId, env, events);
      return;
    }
    writes := [PromptCreated(prompt, projectId, UserKind)];
    if env.history.Err? {
      events := [Status(ProcessingStatus), Error(FailureMessage)];
      EarlyFailureTrace(projectId, env, events);
      return;
    }
    events := [Status(ProcessingStatus), Status(GeneratingStatus)];
    var chunkEvents, tail, stored := Respond(projectId, env);
    if stored.Some? {
      writes := writes + [stored.value];
    }
    PromptTrace(projectId, env, tail);
    events := events + chunkEvents + tail;
  }

  // ---------------------------------------------------------------------------
  // The connection
  // ---------------------------------------------------------------------------

  /** An incoming frame: text that does not decode, or decodes to `null`, or a decoded message. */
  datatype Incoming = Unparseable(reason: string) | Decoded(kind: string, prompt: string, projectId: string)

  /** One client connection: the events sent on it, in order. */
  class Connection {
    var sent: seq<ServerEvent>

    /** A new connection is greeted at once. */
    constructor ()
      ensures sent == [Status(Greeting)]
    {
      sent := [Status(Greeting)];
    }

    /**
     * Dispatches one incoming frame: a prompt runs the prompt handler, another
     * type is ignored, and a frame that cannot be decoded is answered with an
     * error naming the reason.
     */
    method OnMessage(msg: Incoming, env: WorkerEnv) returns (writes: seq<DbWrite>)
      modifies this
      ensures |sent| >= |old(sent)| && sent[..|old(sent)|] == old(sent)
      ensures msg.Unparseable? ==> sent == old(sent) + [Error(InvalidFormatPrefix + msg.reason)] && writes == []
      ensures msg.Decoded? && msg.kind != PromptType ==> sent == old(sent) && writes == []
      ensures msg.Decoded? && msg.kind == PromptType ==>
        && WellFormedTrace(sent[|old(sent)|..])
        && (sent[|sent| - 1] == Complete(CompleteMessage) <==> Succeeds(msg.projectId, env))
    {
      writes := [];
      match msg
      case Unparseable(reason) =>
        sent := sent + [Error(InvalidFormatPrefix + reason)];
      case Decoded(kind, prompt, projectId) =>
        if kind == PromptType {
          var events;
          events, writes := HandlePrompt(prompt, projectId, env);
          sent := sent + events;
          assert sent[|old(sent)|..] == events;
        }
    }
  }
}
