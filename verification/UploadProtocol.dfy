/**
  The streamed upload as a transition system.

  Three parties share the atomics of `UploadWriterState` and one bounded channel: the writer,
  the upload (the task that `start_upload` spawns and the HTTP client inside it), and whoever
  settles the result. Each step below is one atomic point of one party, so a run is one
  interleaving of the three.

  Everything but the writer's own fields lives in `Shared`, and the upload and the handle touch
  nothing else: their steps are functions on `Shared`. The writer's steps are functions on the
  whole `State`.
*/
module UploadProtocol {
  import opened Bytes

  /** How many chunks the channel holds. */
  const UPLOAD_CHANNEL_CAPACITY := 4

  /** A `Notify` with at most one waiter: it stores one permit when nobody waits. */
  datatype Notify = NoPermit | Waiter | Permit

  datatype UploadError = EndedShort | Storage(code: nat)

  /** What the request came back with. */
  datatype Answer = Accepted | Failed(error: UploadError)

  /** What awaiting the upload task gives: its result, or a panic or cancellation. */
  datatype JoinResult = Returned(answer: Answer) | NotFinished

  /** Where the upload task is. `Leaving` is over but not yet seen as finished by its handle. */
  datatype TaskPhase =
    | AtGate
    | Registered
    | Woken
    | Released
    | SawEnd
    | Requesting
    | Leaving(result: JoinResult)
    | Done(result: JoinResult)

  datatype BodyFailure = UnexpectedEof | Producer(code: nat)

  datatype Verdict = Stored | UploadFailed(error: UploadError) | ProducerFailed(failure: BodyFailure) | TaskLost

  /** Where the settling party is; the fields are what it has read so far. */
  datatype HandlePhase =
    | Held
    | GotAnswer(answer: Answer)
    | Measuring(answer: Answer, sawEnd: bool)
    | Settling(answer: Answer, sawEnd: bool, seen: nat, failure: Option<BodyFailure>)
    | Decided(result: JoinResult, sawEnd: bool, seen: nat, failure: Option<BodyFailure>, verdict: Verdict)
    | Dropping
    | Aborting
    | Dropped

  /**
    The atomics, the channel, the upload and the settling party. `gated` tells `start_upload`,
    whose request waits for the first chunk, from `upload_with_writer`, whose request starts at
    once. `consumed` is the history of what the upload took out of the channel.
  */
  datatype Shared = Shared(
    contentLength: nat,
    gated: bool,
    accepted: nat,
    sent: nat,
    uploadEnded: bool,
    bodyEnded: bool,
    bodyStarted: Notify,
    queue: seq<Bytes>,
    receiverOpen: bool,
    senders: int,
    request: bool,
    task: TaskPhase,
    handle: HandlePhase,
    consumed: seq<Bytes>)

  /**
    Where the writer is between two atomic points. A chunk travels `Handing`, `Reserved`,
    `Counted`; `newSend` tells a send started by this poll from one an earlier poll parked.
  */
  datatype Phase =
    | Idle
    | Polled
    | Unblocked
    | Cleared
    | Filled
    | Handing(chunk: Bytes, newSend: bool)
    | Reserved(chunk: Bytes, newSend: bool)
    | Counted(chunk: Bytes, newSend: bool)
    | Sent
    | Refusing
    | EndStored
    | EndAnnounced
    | DropStored
    | DropAnnounced
    | DropUnsent
    | Gone

  /**
    The writer's fields, its phase, and four histories: the bytes taken from the producer, the
    chunks counted into `sent`, the chunk a closed channel refused, and whether bytes were ever
    taken after a chunk shorter than `chunkSize` had been started.
  */
  datatype Writer = Writer(
    chunkSize: nat,
    sender: bool,
    buffer: Bytes,
    pending: Option<Bytes>,
    phase: Phase,
    taken: Bytes,
    counted: seq<Bytes>,
    refused: Option<Bytes>,
    resumed: bool)

  datatype State = State(writer: Writer, shared: Shared)

  function Max(a: nat, b: nat): nat {
    if a < b then b else a
  }

  /** `S3UploadWriter::new`, next to a task that has not run yet. */
  function Init(contentLength: nat, chunkSize: nat, gated: bool): State {
    State(
      Writer(Max(chunkSize, 1), true, [], None, Idle, [], [], None, false),
      Shared(contentLength, gated, 0, 0, false, false, NoPermit, [], true, 1,
             !gated, if gated then AtGate else Requesting, Held, []))
  }

  /** `notify_one`: hands the permit to the waiter if there is one, and stores it otherwise. */
  function NotifyOne(sh: Shared): (told: Shared)
    ensures told == sh.(bodyStarted := told.bodyStarted, task := told.task)
    ensures told.task != sh.task ==> sh.bodyStarted == Waiter && told.bodyStarted == NoPermit
    ensures told.bodyStarted == Permit <==> sh.bodyStarted != Waiter
  {
    if sh.bodyStarted == Waiter then sh.(bodyStarted := NoPermit, task := Woken)
    else sh.(bodyStarted := Permit)
  }

  // ----- The upload and the settling party -----

  /** What the producer of `upload_with_writer` came back with. */
  datatype Produced = ProducedOk | ProducedErr(code: nat)

  datatype TaskStep =
    | TaskWait
    | TaskPass
    | TaskReadEnd
    | TaskReadSent
    | Consume
    | DropReceiver
    | TaskAnswer(answer: Answer)
    | TaskFail
    | TaskLeave

  datatype HandleStep =
    | FinishAwait
    | FinishReadEnd
    | FinishReadSent
    | FinishSettle
    | ProducerDone(produced: Produced)
    | HandleDrop
    | HandleMark
    | HandleAbort

  /** `UploadWriterState::short_body_error` on the value of `sent` that was read. */
  function ShortBody(sh: Shared, seen: nat): (failure: Option<BodyFailure>) {
    if seen >= sh.contentLength then None else Some(UnexpectedEof)
  }

  /** `UploadWriterState::settle`. */
  function Settle(answer: Answer, failure: Option<BodyFailure>, uploadEnded: bool): Verdict {
    match (answer, failure)
    case (Accepted, None) => Stored
    case (Accepted, Some(f)) => ProducerFailed(f)
    case (Failed(e), None) => UploadFailed(e)
    case (Failed(e), Some(f)) => if uploadEnded then UploadFailed(e) else ProducerFailed(f)
  }

  predicate TaskEnabled(sh: Shared, step: TaskStep) {
    match step
    case TaskWait => sh.task == AtGate
    case TaskPass => sh.task == Woken
    case TaskReadEnd => sh.task == Released
    case TaskReadSent => sh.task == SawEnd
    case Consume => sh.request && sh.receiverOpen && sh.queue != []
    case DropReceiver => sh.request && sh.receiverOpen
    case TaskAnswer(answer) => sh.task == Requesting && answer != Failed(EndedShort)
    case TaskFail => !sh.task.Leaving? && !sh.task.Done?
    case TaskLeave => sh.task.Leaving?
  }

  predicate HandleEnabled(sh: Shared, step: HandleStep) {
    match step
    case FinishAwait => sh.gated && sh.handle == Held && sh.task.Done?
    case FinishReadEnd => sh.handle.GotAnswer?
    case FinishReadSent => sh.handle.Measuring?
    case FinishSettle => sh.handle.Settling?
    case ProducerDone(_) => !sh.gated && sh.handle == Held && sh.task.Done? && sh.task.result.Returned?
    case HandleDrop => sh.gated && sh.handle == Held
    case HandleMark => sh.handle == Dropping
    case HandleAbort => sh.handle == Aborting
  }

  function TaskApply(sh: Shared, step: TaskStep): Shared
    requires TaskEnabled(sh, step)
  {
    match step
    // `body_started().await`: a stored permit is taken at once, otherwise the task registers.
    case TaskWait =>
      if sh.bodyStarted == Permit then sh.(bodyStarted := NoPermit, task := Released)
      else sh.(bodyStarted := Waiter, task := Registered)
    case TaskPass => sh.(task := Released)
    // `body_ended() && short_body_error().is_some()`, one read at a time.
    case TaskReadEnd =>
      if sh.bodyEnded then sh.(task := SawEnd) else sh.(task := Requesting, request := true)
    case TaskReadSent =>
      if ShortBody(sh, sh.sent).Some? then
        sh.(task := Leaving(Returned(Failed(EndedShort))), receiverOpen := false, queue := [])
      else sh.(task := Requesting, request := true)
    case Consume => sh.(consumed := sh.consumed + [sh.queue[0]], queue := sh.queue[1..])
    case DropReceiver => sh.(receiverOpen := false, queue := [])
    case TaskAnswer(answer) => sh.(task := Done(Returned(answer)))
    // A panic, an abort, or a runtime shutting down: the task's future is dropped. Before the
    // request the task holds the receiver itself; afterwards the HTTP client lets go of it.
    case TaskFail =>
      if sh.request then sh.(task := Leaving(NotFinished))
      else sh.(task := Leaving(NotFinished), receiverOpen := false, queue := [],
               bodyStarted := if sh.bodyStarted == Waiter then NoPermit else sh.bodyStarted)
    case TaskLeave => sh.(task := Done(sh.task.result))
  }

  function HandleApply(sh: Shared, step: HandleStep): Shared
    requires HandleEnabled(sh, step)
  {
    match step
    // `S3UploadHandle::finish`.
    case FinishAwait =>
      if sh.task.result.NotFinished? then sh.(handle := Decided(NotFinished, false, 0, None, TaskLost))
      else sh.(handle := GotAnswer(sh.task.result.answer))
    case FinishReadEnd =>
      var answer := sh.handle.answer;
      if answer.Failed? && !sh.bodyEnded then sh.(handle := Settling(answer, false, 0, None))
      else sh.(handle := Measuring(answer, sh.bodyEnded))
    case FinishReadSent =>
      sh.(handle := Settling(sh.handle.answer, sh.handle.sawEnd, sh.sent, ShortBody(sh, sh.sent)))
    case FinishSettle =>
      var Settling(answer, sawEnd, seen, failure) := sh.handle;
      sh.(handle := Decided(Returned(answer), sawEnd, seen, failure, Settle(answer, failure, sh.uploadEnded)))
    // `finish_upload_with_writer`: the producer has been awaited after the upload.
    case ProducerDone(produced) =>
      var answer := sh.task.result.answer;
      if produced.ProducedOk? then sh.(handle := Measuring(answer, false))
      else sh.(handle := Settling(answer, false, 0, Some(Producer(produced.code))))
    // `Drop for S3UploadHandle`: left alone when finished, otherwise marked, then aborted.
    case HandleDrop => if sh.task.Done? then sh.(handle := Dropped) else sh.(handle := Dropping)
    case HandleMark => sh.(uploadEnded := true, handle := Aborting)
    case HandleAbort => sh.(handle := Dropped)
  }

  // ----- The writer -----

  datatype WriterStep =
    | Poll
    | NothingPending
    | Resume
    | ReserveWait
    | ReserveRoom
    | ReserveClosed
    | Count
    | Publish
    | LoadEnded
    | Take(bytes: Bytes)
    | StartSend
    | Return
    | StoreEnded
    | EndBody
    | AnnounceEnd
    | DropSender
    | DropBegin
    | DropAnnounce
    | DropField
    | DropPending

  predicate WriterEnabled(s: State, step: WriterStep) {
    var w, sh := s.writer, s.shared;
    match step
    case Poll => w.phase == Idle
    case NothingPending => w.phase == Polled && w.pending.None?
    case Resume => w.phase == Polled && w.pending.Some?
    case ReserveWait => w.phase.Handing?
    case ReserveRoom => w.phase.Handing? && sh.receiverOpen && |sh.queue| < UPLOAD_CHANNEL_CAPACITY
    case ReserveClosed => w.phase.Handing? && !sh.receiverOpen
    case Count => w.phase.Reserved?
    case Publish => w.phase.Counted?
    case LoadEnded => w.phase == Unblocked
    case Take(bytes) =>
      && w.phase == Cleared && w.sender && bytes != []
      && |w.buffer| + |bytes| <= w.chunkSize && sh.accepted + |bytes| <= sh.contentLength
    case StartSend => w.sender && (w.phase == Filled || (w.phase == Cleared && w.buffer != []))
    case Return => w.phase == Unblocked || w.phase == Cleared || w.phase == Sent
    case StoreEnded => w.phase == Refusing
    case EndBody => w.sender && (w.phase == Sent || (w.phase == Cleared && w.buffer == []))
    case AnnounceEnd => w.phase == EndStored
    case DropSender => w.phase == EndAnnounced
    case DropBegin => w.phase == Idle
    case DropAnnounce => w.phase == DropStored
    case DropField => w.phase == DropAnnounced
    case DropPending => w.phase == DropUnsent
  }

  /** The chunk started last, if it was shorter than the chunk size. */
  predicate LastStartedIsPartial(w: Writer) {
    w.counted != [] && |w.counted[|w.counted| - 1]| < w.chunkSize
  }

  /** What a step makes of the writer's own half. */
  function NextWriter(s: State, step: WriterStep): Writer
    requires WriterEnabled(s, step)
  {
    var w := s.writer;
    match step
    case Poll => w.(phase := Polled)
    case NothingPending => w.(phase := Unblocked)
    case Resume => w.(phase := Handing(w.pending.value, false), pending := None)
    // `reserve` had to wait: the send is parked, and the poll is over.
    case ReserveWait => w.(phase := Idle, pending := Some(w.phase.chunk))
    case ReserveRoom => w.(phase := Reserved(w.phase.chunk, w.phase.newSend))
    case ReserveClosed => w.(phase := Refusing, refused := Some(w.phase.chunk))
    case Count => w.(phase := Counted(w.phase.chunk, w.phase.newSend), counted := w.counted + [w.phase.chunk])
    case Publish => w.(phase := if w.phase.newSend then Sent else Unblocked)
    case LoadEnded => w.(phase := if s.shared.uploadEnded then Refusing else Cleared)
    case Take(bytes) =>
      w.(buffer := w.buffer + bytes, taken := w.taken + bytes,
         phase := if |w.buffer + bytes| < w.chunkSize then Cleared else Filled,
         resumed := w.resumed || LastStartedIsPartial(w))
    case StartSend => w.(buffer := [], phase := Handing(w.buffer, true))
    case Return => w.(phase := Idle)
    case StoreEnded => w.(phase := Idle)
    case EndBody => w.(phase := EndStored)
    case AnnounceEnd => w.(phase := EndAnnounced)
    case DropSender => w.(phase := Idle, sender := false)
    case DropBegin => w.(phase := if w.sender then DropStored else Gone)
    case DropAnnounce => w.(phase := DropAnnounced)
    case DropField => w.(phase := DropUnsent, sender := false)
    // A parked send dies with the writer: its chunk is not counted.
    case DropPending => w.(phase := Gone)
  }

  /** What a step makes of the shared half. A send that ends drops its clone of the sender. */
  function NextShared(s: State, step: WriterStep): Shared
    requires WriterEnabled(s, step)
  {
    var w, sh := s.writer, s.shared;
    match step
    case ReserveClosed => sh.(senders := sh.senders - 1)
    case Count => sh.(sent := sh.sent + |w.phase.chunk|)
    case Publish => sh.(queue := sh.queue + [w.phase.chunk], senders := sh.senders - 1)
    case Take(bytes) => sh.(accepted := sh.accepted + |bytes|)
    case StartSend =>
      var started := NotifyOne(sh);
      started.(senders := started.senders + 1)
    case StoreEnded => sh.(uploadEnded := true)
    case EndBody => sh.(bodyEnded := true)
    case AnnounceEnd => NotifyOne(sh)
    case DropSender => sh.(senders := sh.senders - 1)
    case DropBegin => if w.sender then sh.(bodyEnded := true) else sh
    case DropAnnounce => NotifyOne(sh)
    case DropField => sh.(senders := sh.senders - 1)
    case DropPending => if w.pending.Some? then sh.(senders := sh.senders - 1) else sh
    case _ => sh
  }

  function WriterApply(s: State, step: WriterStep): State
    requires WriterEnabled(s, step)
  {
    State(NextWriter(s, step), NextShared(s, step))
  }

  // ----- Runs -----

  /** A step of somebody other than the writer. */
  datatype EnvStep = Task(task: TaskStep) | Handle(handle: HandleStep)

  predicate EnvEnabled(sh: Shared, step: EnvStep) {
    match step
    case Task(t) => TaskEnabled(sh, t)
    case Handle(h) => HandleEnabled(sh, h)
  }

  function EnvApply(sh: Shared, step: EnvStep): Shared
    requires EnvEnabled(sh, step)
  {
    match step
    case Task(t) => TaskApply(sh, t)
    case Handle(h) => HandleApply(sh, h)
  }

  datatype Step = W(writer: WriterStep) | E(env: EnvStep)

  predicate Enabled(s: State, step: Step) {
    match step
    case W(w) => WriterEnabled(s, w)
    case E(e) => EnvEnabled(s.shared, e)
  }

  function Apply(s: State, step: Step): State
    requires Enabled(s, step)
  {
    match step
    case W(w) => WriterApply(s, w)
    case E(e) => s.(shared := EnvApply(s.shared, e))
  }

  /** `steps` leads from `s` to `t`, every step enabled where it is taken. */
  ghost predicate Runs(s: State, steps: seq<Step>, t: State)
    decreases |steps|
  {
    if steps == [] then s == t
    else Enabled(s, steps[0]) && Runs(Apply(s, steps[0]), steps[1..], t)
  }

  ghost predicate Reachable(s: State) {
    exists contentLength: nat, chunkSize: nat, gated: bool, steps: seq<Step> ::
      Runs(Init(contentLength, chunkSize, gated), steps, s)
  }

  lemma {:induction false} RunsConcat(s: State, first: seq<Step>, m: State, second: seq<Step>, t: State)
    requires Runs(s, first, m) && Runs(m, second, t)
    ensures Runs(s, first + second, t)
    decreases |first|
  {
    if first == [] {
      assert first + second == second;
    } else {
      RunsConcat(Apply(s, first[0]), first[1..], m, second, t);
      assert (first + second)[1..] == first[1..] + second;
    }
  }

  lemma RunsOne(s: State, step: Step)
    requires Enabled(s, step)
    ensures Runs(s, [step], Apply(s, step))
  {
    assert Runs(Apply(s, step), [step][1..], Apply(s, step));
  }
}
