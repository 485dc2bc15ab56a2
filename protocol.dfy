/**
 * The server-to-client event protocol of one prompt: the event kinds, their
 * fixed messages, and the order in which the worker may emit them.
 */
module Protocol {

  datatype ServerEvent =
    | Status(message: string)
    | ExplanationChunk(content: string)
    | ExplanationFinal(content: string)
    | VideoReady(videoUrl: string, code: string, explanation: string)
    | Complete(message: string)
    | Error(message: string)

  const Greeting: string := "Connected to worker server"
  const ProcessingStatus: string := "Processing prompt..."
  const GeneratingStatus: string := "Generating response..."
  const VideoStatus: string := "Generating video..."
  const CompleteMessage: string := "Animation generation complete!"
  const FailureMessage: string := "Failed to process prompt"
  const InvalidFormatPrefix: string := "Invalid message format: "

  /** One explanation-chunk event per explanation, in order. */
  function ChunkEvents(xs: seq<string>): (r: seq<ServerEvent>)
    ensures |r| == |xs|
    ensures forall i :: 0 <= i < |r| ==> r[i] == ExplanationChunk(xs[i])
  {
    seq(|xs|, i requires 0 <= i < |xs| => ExplanationChunk(xs[i]))
  }

  /**
   * The position of an event in a prompt's trace: 0 processing, 1 generating,
   * 2 explanation chunk, 3 final explanation, 4 generating video, 5 video
   * ready, 6 complete, 7 error; 8 for any other status.
   */
  function Stage(e: ServerEvent): nat {
    match e
    case Status(m) =>
      if m == ProcessingStatus then 0
      else if m == GeneratingStatus then 1
      else if m == VideoStatus then 4
      else 8
    case ExplanationChunk(_) => 2
    case ExplanationFinal(_) => 3
    case VideoReady(_, _, _) => 5
    case Complete(_) => 6
    case Error(_) => 7
  }

  /**
   * Which stage may follow which: chunks repeat, the video may be skipped,
   * `complete` follows the video steps, and an error may end the trace anywhere.
   */
  predicate Follows(a: nat, b: nat) {
    || (a == 0 && b == 1)
    || ((a == 1 || a == 2) && (b == 2 || b == 3))
    || (a == 3 && b == 4)
    || (a == 4 && b == 5)
    || ((a == 4 || a == 5) && b == 6)
    || (a <= 5 && b == 7)
  }

  predicate Terminal(e: ServerEvent) {
    e.Complete? || e.Error?
  }

  /**
   * A trace the worker may produce for one prompt: it starts with the
   * processing status (or fails at once), every step follows the one before,
   * and it ends with exactly one terminal event.
   */
  predicate WellFormedTrace(ev: seq<ServerEvent>) {
    && |ev| >= 1
    && (Stage(ev[0]) == 0 || Stage(ev[0]) == 7)
    && (forall i :: 0 <= i < |ev| - 1 ==> Follows(Stage(ev[i]), Stage(ev[i + 1])))
    && Terminal(ev[|ev| - 1])
  }

  /** Stages never go back along a well-formed trace. */
  lemma {:induction false} StagesAscend(ev: seq<ServerEvent>, i: nat, j: nat)
    requires WellFormedTrace(ev)
    requires i <= j < |ev|
    ensures Stage(ev[i]) <= Stage(ev[j])
    decreases j - i
  {
    if i < j {
      StagesAscend(ev, i, j - 1);
      assert Follows(Stage(ev[j - 1]), Stage(ev[j]));
    }
  }

  /** Only the last event of a well-formed trace is terminal. */
  lemma TerminalOnlyLast(ev: seq<ServerEvent>, i: nat)
    requires WellFormedTrace(ev) && i < |ev| - 1
    ensures !Terminal(ev[i])
  {
    assert Follows(Stage(ev[i]), Stage(ev[i + 1]));
  }

  /** Every explanation chunk comes before the final explanation. */
  lemma ChunksPrecedeFinal(ev: seq<ServerEvent>, i: nat, j: nat)
    requires WellFormedTrace(ev) && i < |ev| && j < |ev|
    requires ev[i].ExplanationChunk? && ev[j].ExplanationFinal?
    ensures i < j
  {
    if j <= i {
      StagesAscend(ev, j, i);
    }
  }

  /** `video_ready` comes right after the video status, which comes right after the final explanation. */
  lemma VideoFollowsFinal(ev: seq<ServerEvent>, j: nat)
    requires WellFormedTrace(ev) && j < |ev| && ev[j].VideoReady?
    ensures j >= 2 && ev[j - 1] == Status(VideoStatus) && ev[j - 2].ExplanationFinal?
  {
    assert j > 0;
    assert Follows(Stage(ev[j - 1]), Stage(ev[j]));
    assert j - 1 > 0;
    assert Follows(Stage(ev[j - 2]), Stage(ev[j - 1]));
  }
}
