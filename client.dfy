/**
 * The browser's view of a prompt (apps/frontend/lib/useWebSocketSimple.ts and
 * apps/frontend/lib/useWebSocket.ts): the state both hooks expose, the message
 * reducer they share, the state change of sending a prompt, and how the view
 * evolves while it replays the worker's events.
 */
module ClientView {
  import opened Wrappers
  import opened Protocol

  /** The state a hook exposes; `None` stands for `null`. */
  datatype ViewState = ViewState(
    isConnected: bool,
    isProcessing: bool,
    status: string,
    streamingExplanation: string,
    finalExplanation: string,
    videoUrl: Option<string>,
    error: Option<string>)

  const InitialView: ViewState := ViewState(false, false, [], [], [], None, None)

  const StatusKind: string := "status"
  const ChunkKind: string := "explanation_chunk"
  const FinalKind: string := "explanation_final"
  const VideoKind: string := "video_ready"
  const CompleteKind: string := "complete"
  const ErrorKind: string := "error"

  const CompleteStatus: string := "Complete"
  const UnknownError: string := "Unknown error occurred"
  const SendingStatus: string := "Sending prompt..."
  const NotConnectedError: string := "WebSocket not connected"

  /** A decoded message; an absent field is `None`. */
  datatype WireMessage = WireMessage(kind: string, message: Option<string>, content: Option<string>, videoUrl: Option<string>)

  /** An incoming frame: one that does not decode to an object, or a decoded message. */
  datatype Frame = Malformed | Json(msg: WireMessage)

  /** `x || fallback` on an optional string: the value when present and non-empty. */
  function OrElse(x: Option<string>, fallback: string): string {
    if x.Some? && x.value != [] then x.value else fallback
  }

  /** `x || null` on an optional string. */
  function OrNull(x: Option<string>): Option<string> {
    if x.Some? && x.value != [] then x else None
  }

  predicate KnownKind(kind: string) {
    kind == StatusKind || kind == ChunkKind || kind == FinalKind
    || kind == VideoKind || kind == CompleteKind || kind == ErrorKind
  }

  /** The `onmessage` reducer both hooks share. */
  function Apply(s: ViewState, f: Frame): (r: ViewState)
    ensures f.Malformed? || !KnownKind(f.msg.kind) ==> r == s
    ensures r.isConnected == s.isConnected
    ensures r.isProcessing ==> s.isProcessing
    ensures f.Json? && (f.msg.kind == CompleteKind || f.msg.kind == ErrorKind) ==> !r.isProcessing
    ensures f.Json? && f.msg.kind == ErrorKind ==> r.error.Some? && r.error.value != []
    ensures f.Json? && f.msg.kind == StatusKind ==> r.status == f.msg.message.GetOr([])
    ensures f.Json? && f.msg.kind == ChunkKind ==> r.streamingExplanation == f.msg.content.GetOr([])
    ensures f.Json? && f.msg.kind == FinalKind ==>
      r.finalExplanation == f.msg.content.GetOr([]) && r.streamingExplanation == []
    ensures f.Json? && f.msg.kind == VideoKind ==> (r.videoUrl.None? <==> f.msg.videoUrl.GetOr([]) == [])
    ensures f.Json? && f.msg.kind == CompleteKind ==> r.status == CompleteStatus
    // each kind sets its own fields and leaves every other field as it was
    ensures f.Json? && f.msg.kind == StatusKind ==> r == s.(status := f.msg.message.GetOr([]))
    ensures f.Json? && f.msg.kind == ChunkKind ==> r == s.(streamingExplanation := f.msg.content.GetOr([]))
    ensures f.Json? && f.msg.kind == FinalKind ==>
      r == s.(finalExplanation := f.msg.content.GetOr([]), streamingExplanation := [])
    ensures f.Json? && f.msg.kind == VideoKind ==>
      r == s.(videoUrl := if f.msg.videoUrl.GetOr([]) == [] then None else f.msg.videoUrl)
    ensures f.Json? && f.msg.kind == CompleteKind ==> r == s.(isProcessing := false, status := CompleteStatus)
    ensures f.Json? && f.msg.kind == ErrorKind ==>
      r == s.(isProcessing := false,
              error := Some(if f.msg.message.GetOr([]) != [] then f.msg.message.value else UnknownError))
  {
    match f
    case Malformed => s
    case Json(m) =>
      if m.kind == StatusKind then s.(status := OrElse(m.message, []))
      else if m.kind == ChunkKind then s.(streamingExplanation := OrElse(m.content, []))
      else if m.kind == FinalKind then s.(finalExplanation := OrElse(m.content, []), streamingExplanation := [])
      else if m.kind == VideoKind then s.(videoUrl := OrNull(m.videoUrl))
      else if m.kind == CompleteKind then s.(isProcessing := false, status := CompleteStatus)
      else if m.kind == ErrorKind then s.(error := Some(OrElse(m.message, UnknownError)), isProcessing := false)
      else s
  }

  /** The view right after a prompt is sent on an open socket. */
  function Sending(s: ViewState): (r: ViewState)
    ensures r.isProcessing && r.error.None? && r.videoUrl.None?
    ensures r.streamingExplanation == [] && r.finalExplanation == [] && r.status == SendingStatus
    ensures r.isConnected == s.isConnected
  {
    s.(isProcessing := true, error := None, streamingExplanation := [], finalExplanation := [],
       videoUrl := None, status := SendingStatus)
  }

  /** The view after the socket closes, or after a connection error with the given message. */
  function Disconnected(s: ViewState, err: Option<string>): (r: ViewState)
    ensures !r.isConnected && !r.isProcessing
    ensures r.error == (if err.Some? then err else s.error)
    ensures r.status == s.status && r.streamingExplanation == s.streamingExplanation
    ensures r.finalExplanation == s.finalExplanation && r.videoUrl == s.videoUrl
  {
    var t := s.(isConnected := false, isProcessing := false);
    if err.Some? then t.(error := err) else t
  }

  /** The view after the socket opens. */
  function Connected(s: ViewState): (r: ViewState)
    ensures r.isConnected && r.error.None?
    ensures r.isProcessing == s.isProcessing && r.status == s.status
    ensures r.streamingExplanation == s.streamingExplanation && r.finalExplanation == s.finalExplanation
    ensures r.videoUrl == s.videoUrl
  {
    s.(isConnected := true, error := None)
  }

  // ---------------------------------------------------------------------------
  // Replaying the worker's events
  // ---------------------------------------------------------------------------

  /** The message the worker sends for an event. */
  function ToWire(e: ServerEvent): WireMessage {
    match e
    case Status(m) => WireMessage(StatusKind, Some(m), None, None)
    case ExplanationChunk(c) => WireMessage(ChunkKind, None, Some(c), None)
    case ExplanationFinal(c) => WireMessage(FinalKind, None, Some(c), None)
    case VideoReady(url, _, _) => WireMessage(VideoKind, None, None, Some(url))
    case Complete(m) => WireMessage(CompleteKind, Some(m), None, None)
    case Error(m) => WireMessage(ErrorKind, Some(m), None, None)
  }

  /** The view after receiving the events in order. */
  function Replay(s: ViewState, ev: seq<ServerEvent>): ViewState
    decreases |ev|
  {
    if ev == [] then s else Replay(Apply(s, Json(ToWire(ev[0]))), ev[1..])
  }

  lemma {:induction false} ReplayAppend(s: ViewState, a: seq<ServerEvent>, b: seq<ServerEvent>)
    ensures Replay(s, a + b) == Replay(Replay(s, a), b)
    decreases |a|
  {
    if a == [] {
      assert a + b == b;
    } else {
      assert (a + b)[0] == a[0];
      assert (a + b)[1..] == a[1..] + b;
      ReplayAppend(Apply(s, Json(ToWire(a[0]))), a[1..], b);
    }
  }

  /** Chunks replace the streaming explanation: after a run of them the view shows the last. */
  lemma {:induction false} LatestChunkShown(s: ViewState, xs: seq<string>)
    requires xs != [] && xs[|xs| - 1] != []
    ensures Replay(s, ChunkEvents(xs)).streamingExplanation == xs[|xs| - 1]
    decreases |xs|
  {
    var t := Apply(s, Json(ToWire(ExplanationChunk(xs[0]))));
    assert ChunkEvents(xs)[1..] == ChunkEvents(xs[1..]);
    if |xs| > 1 {
      LatestChunkShown(t, xs[1..]);
    }
  }

  /** Events after the final explanation leave both explanations as they are. */
  lemma {:induction false} LateEventsKeepExplanations(s: ViewState, ev: seq<ServerEvent>)
    requires forall k :: 0 <= k < |ev| ==> Stage(ev[k]) >= 4
    ensures Replay(s, ev).finalExplanation == s.finalExplanation
    ensures Replay(s, ev).streamingExplanation == s.streamingExplanation
    decreases |ev|
  {
    if ev != [] {
      LateEventsKeepExplanations(Apply(s, Json(ToWire(ev[0]))), ev[1..]);
    }
  }

  /** The terminal event decides the view: processing stops, and `complete` or the error shows. */
  lemma TraceEndsProcessing(s: ViewState, ev: seq<ServerEvent>)
    requires WellFormedTrace(ev)
    ensures var v := Replay(s, ev);
      && !v.isProcessing
      && v.isConnected == s.isConnected
      && (ev[|ev| - 1].Complete? ==> v.status == CompleteStatus)
      && (ev[|ev| - 1].Error? ==> v.error == Some(OrElse(Some(ev[|ev| - 1].message), UnknownError)))
  {
    var n := |ev| - 1;
    assert ev == ev[..n] + [ev[n]];
    ReplayAppend(s, ev[..n], [ev[n]]);
    ReplayConnection(s, ev[..n]);
  }

  lemma {:induction false} ReplayConnection(s: ViewState, ev: seq<ServerEvent>)
    ensures Replay(s, ev).isConnected == s.isConnected
    decreases |ev|
  {
    if ev != [] {
      ReplayConnection(Apply(s, Json(ToWire(ev[0]))), ev[1..]);
    }
  }

  /**
   * When a trace completes, the view shows the final explanation the worker
   * sent and no streaming explanation.
   */
  lemma FinalExplanationShown(s: ViewState, ev: seq<ServerEvent>, j: nat)
    requires WellFormedTrace(ev) && j < |ev| && ev[j].ExplanationFinal?
    ensures Replay(s, ev).finalExplanation == ev[j].content
    ensures Replay(s, ev).streamingExplanation == []
  {
    var pre := ev[..j + 1];
    var post := ev[j + 1..];
    assert ev == pre + post;
    ReplayAppend(s, pre, post);
    assert pre == ev[..j] + [ev[j]];
    ReplayAppend(s, ev[..j], [ev[j]]);
    forall k | 0 <= k < |post|
      ensures Stage(post[k]) >= 4
    {
      assert post[k] == ev[j + 1 + k];
      assert Follows(Stage(ev[j]), Stage(ev[j + 1]));
      StagesAscend(ev, j + 1, j + 1 + k);
    }
    LateEventsKeepExplanations(Replay(s, pre), post);
  }
}
