/** What every step of the upload protocol keeps. */
module UploadInvariant {
  import opened Bytes
  import opened UploadProtocol

  // ----- The writer on its own -----

  /** A chunk has left the buffer and is on its way into the channel. */
  predicate InHand(w: Writer) {
    w.phase.Handing? || w.phase.Reserved? || w.phase.Counted?
  }

  /** The writer is being dropped, or has been. */
  predicate DropPhase(w: Writer) {
    (w.phase.DropStored? || w.phase.DropAnnounced? || w.phase.DropUnsent? || w.phase.Gone?)
  }

  /** The end of the body has been recorded, and the sender is about to go or has gone. */
  predicate PastEnd(w: Writer) {
    !w.sender || (w.phase.EndStored? || w.phase.EndAnnounced? || w.phase.DropStored? || w.phase.DropAnnounced?)
  }

  /** The bytes taken but not counted: a chunk on its way, parked or refused, else the buffer. */
  function Remainder(w: Writer): Bytes {
    if w.phase.Handing? || w.phase.Reserved? then w.phase.chunk
    else if w.pending.Some? then w.pending.value
    else if w.refused.Some? then w.refused.value
    else w.buffer
  }

  predicate GoodChunk(w: Writer, chunk: Bytes) {
    1 <= |chunk| <= w.chunkSize
  }

  predicate WriterShape(w: Writer) {
    && w.chunkSize >= 1
    && (if w.phase == Filled then |w.buffer| == w.chunkSize else |w.buffer| < w.chunkSize)
    && (w.pending.Some? ==> w.buffer == [] && w.refused.None? && ((w.phase.Idle? || w.phase.Polled?) || DropPhase(w)))
    && (InHand(w) ==> w.buffer == [] && w.pending.None? && w.refused.None? && w.sender)
    && (w.phase.Counted? ==> w.counted != [])
    && (w.refused.Some? ==> w.buffer == [] && ((w.phase.Idle? || w.phase.Polled? || w.phase.Unblocked? || w.phase.Refusing?) || DropPhase(w)))
    && ((w.phase.Filled? || w.phase.Sent? || w.phase.EndStored? || w.phase.EndAnnounced? || w.phase.DropStored? || w.phase.DropAnnounced?) ==> w.sender)
    && ((w.phase.Sent? || w.phase.EndStored? || w.phase.EndAnnounced?) ==> w.buffer == [])
    && (w.phase == DropUnsent ==> !w.sender)
    && (w.phase == Gone ==> !w.sender)
    && (!w.sender && !DropPhase(w) ==>
          && w.buffer == [] && w.pending.None? && w.refused.None?
          && (w.phase.Idle? || w.phase.Polled? || w.phase.Unblocked? || w.phase.Cleared? || w.phase.Refusing?))
  }

  predicate ChunkShape(w: Writer) {
    && (forall i :: 0 <= i < |w.counted| ==> GoodChunk(w, w.counted[i]))
    && (InHand(w) ==> GoodChunk(w, w.phase.chunk))
    && (w.pending.Some? ==> GoodChunk(w, w.pending.value))
    && (w.refused.Some? ==> GoodChunk(w, w.refused.value))
  }

  /** The bytes taken, cut where the writer cut them: the counted chunks, then what remains. */
  function Pieces(w: Writer): seq<Bytes> {
    w.counted + (if Remainder(w) == [] then [] else [Remainder(w)])
  }

  predicate SomeShort(pieces: seq<Bytes>, size: nat) {
    exists i :: 0 <= i < |pieces| && |pieces[i]| < size
  }

  predicate ShortBeforeLast(pieces: seq<Bytes>, size: nat) {
    exists i :: 0 <= i < |pieces| - 1 && |pieces[i]| < size
  }

  /** A piece before the last is shorter than the chunk size. */
  predicate SomePieceShort(w: Writer) {
    ShortBeforeLast(Pieces(w), w.chunkSize)
  }

  // ----- The writer against the counters -----

  predicate Counts(w: Writer, contentLength: nat, accepted: nat, sent: nat) {
    && accepted == |w.taken| <= contentLength
    && sent == |Flat(w.counted)|
    && w.taken == Flat(w.counted) + Remainder(w)
  }

  predicate Conserved(s: State) {
    Counts(s.writer, s.shared.contentLength, s.shared.accepted, s.shared.sent)
  }

  // ----- The channel -----

  /** The chunk that is counted but not yet visible in the channel. */
  function Unpublished(w: Writer): seq<Bytes> {
    if w.phase.Counted? then [w.phase.chunk] else []
  }

  /** While the receiver is there, the counted chunks are consumed, queued or about to be queued. */
  predicate Carries(w: Writer, consumed: seq<Bytes>, queue: seq<Bytes>, receiverOpen: bool) {
    && consumed <= w.counted
    && (receiverOpen ==> consumed + queue + Unpublished(w) == w.counted)
    && |queue| + (if w.phase.Reserved? || w.phase.Counted? then 1 else 0) <= UPLOAD_CHANNEL_CAPACITY
    && (forall i :: 0 <= i < |queue| ==> GoodChunk(w, queue[i]))
  }

  /** The writer's own sender, and the clone that a send in hand or parked holds. */
  function SendersHeld(w: Writer): int {
    (if w.sender then 1 else 0) + (if InHand(w) || (w.pending.Some? && w.phase != Gone) then 1 else 0)
  }

  predicate ChannelShape(s: State) {
    && Carries(s.writer, s.shared.consumed, s.shared.queue, s.shared.receiverOpen)
    && s.shared.senders == SendersHeld(s.writer)
  }

  // ----- The flags -----

  predicate HandleDropped(sh: Shared) {
    (sh.handle.Dropping? || sh.handle.Aborting? || sh.handle.Dropped?)
  }

  predicate FlagOrder(s: State) {
    var w, sh := s.writer, s.shared;
    && (sh.bodyEnded <==> PastEnd(w))
    && (w.refused.Some? ==> !sh.receiverOpen)
    && (w.refused.Some? ==> sh.uploadEnded || (w.phase == Refusing && w.sender))
    && (w.phase == Refusing ==> sh.uploadEnded || w.refused.Some?)
    && (sh.uploadEnded && !HandleDropped(sh) ==> w.refused.Some?)
  }

  // ----- The upload task -----

  predicate BeforeRequest(sh: Shared) {
    (sh.task.AtGate? || sh.task.Registered? || sh.task.Woken? || sh.task.Released? || sh.task.SawEnd?)
  }

  /** A send has been started, so the writer has something for the request to carry. */
  predicate Started(w: Writer) {
    w.counted != [] || InHand(w) || w.pending.Some? || w.refused.Some?
  }

  /** The end has been recorded and announced. */
  predicate EndAnnouncedOrLater(w: Writer) {
    PastEnd(w) && w.phase != EndStored && w.phase != DropStored
  }

  predicate EndedShortResult(result: JoinResult) {
    result == Returned(Failed(EndedShort))
  }

  predicate TaskShape(s: State) {
    var w, sh := s.writer, s.shared;
    && (BeforeRequest(sh) ==> sh.gated && !sh.request && sh.receiverOpen)
    && (sh.task == Requesting ==> sh.request)
    && (!sh.request ==> sh.gated && sh.consumed == [])
    && ((sh.task.Leaving? || sh.task.Done?) && !sh.request ==> !sh.receiverOpen)
    && (sh.task == SawEnd ==> sh.bodyEnded)
    && ((sh.task.Leaving? || sh.task.Done?) && !sh.request && sh.task.result.Returned? ==> EndedShortResult(sh.task.result))
    && ((sh.task.Leaving? || sh.task.Done?) && EndedShortResult(sh.task.result) ==>
          sh.gated && sh.bodyEnded && sh.sent < sh.contentLength && w.refused.None?)
  }

  /** The gate opens only for a body that has started or ended. */
  predicate GateIsHonest(s: State) {
    var w, sh := s.writer, s.shared;
    && (sh.bodyStarted == Waiter <==> sh.task == Registered)
    && ((sh.task.Woken? || sh.task.Released? || sh.task.SawEnd?) || (sh.gated && sh.request) || sh.bodyStarted == Permit ==>
          Started(w) || sh.bodyEnded)
  }

  /** A body that has started, or announced its end, leaves no task waiting at the gate. */
  predicate GateIsOpen(s: State) {
    var w, sh := s.writer, s.shared;
    && (sh.task == AtGate && (Started(w) || EndAnnouncedOrLater(w)) ==> sh.bodyStarted == Permit)
    && (sh.task == Registered ==> !Started(w) && !EndAnnouncedOrLater(w))
  }

  predicate GateShape(s: State) {
    GateIsHonest(s) && GateIsOpen(s)
  }

  // ----- The settling party -----

  /** What `finish` will make of what it has read, given that no send was ever refused or one was. */
  function FinishVerdict(sh: Shared, answer: Answer, sawEnd: bool, seen: nat, refused: bool): Verdict {
    match answer
    case Accepted => if seen < sh.contentLength then ProducerFailed(UnexpectedEof) else Stored
    case Failed(e) =>
      if sawEnd && seen < sh.contentLength && !refused then ProducerFailed(UnexpectedEof) else UploadFailed(e)
  }

  predicate FinishReads(s: State, answer: Answer, sawEnd: bool, seen: nat) {
    var sh := s.shared;
    && seen <= sh.sent
    && (sawEnd ==> sh.bodyEnded && seen == sh.sent)
  }

  /** `settle` overrides the body's failure with the upload's only if the upload is known to be gone. */
  predicate Settled(w: Writer, answer: Answer, failure: Option<BodyFailure>, verdict: Verdict) {
    || verdict == Settle(answer, failure, false)
    || (verdict == Settle(answer, failure, true) && w.refused.Some?)
  }

  predicate HandleShape(s: State) {
    var w, sh := s.writer, s.shared;
    match sh.handle
    case Held => true
    case GotAnswer(answer) => sh.gated && sh.task == Done(Returned(answer))
    case Measuring(answer, sawEnd) =>
      && sh.task == Done(Returned(answer))
      && (sawEnd ==> sh.bodyEnded)
      && (sh.gated && answer.Failed? ==> sawEnd)
    case Settling(answer, sawEnd, seen, failure) =>
      && sh.task == Done(Returned(answer))
      && FinishReads(s, answer, sawEnd, seen)
      && (answer == Failed(EndedShort) ==> sawEnd)
      && (failure.None? ==> seen >= sh.contentLength || (sh.gated && answer.Failed? && !sawEnd))
      && (failure == Some(UnexpectedEof) ==> seen < sh.contentLength)
      && (sh.gated && failure.Some? ==> failure.value == UnexpectedEof && (answer.Failed? ==> sawEnd))
    case Decided(result, sawEnd, seen, failure, verdict) =>
      && sh.task == Done(result)
      && FinishReads(s, Accepted, sawEnd, seen)
      && (EndedShortResult(result) ==> sawEnd)
      && (result.NotFinished? ==> verdict == TaskLost)
      && (result.Returned? && sh.gated ==>
            verdict == FinishVerdict(sh, result.answer, sawEnd, seen, w.refused.Some?))
      && (verdict == Stored ==> result == Returned(Accepted) && seen >= sh.contentLength)
      && (result.Returned? ==> Settled(w, result.answer, failure, verdict))
    case _ => sh.gated
  }

  predicate Inv(s: State) {
    && WriterShape(s.writer)
    && ChunkShape(s.writer)
    && (s.writer.resumed <==> SomePieceShort(s.writer))
    && Conserved(s)
    && ChannelShape(s)
    && FlagOrder(s)
    && TaskShape(s)
    && GateShape(s)
    && HandleShape(s)
  }

  // ----- Preservation -----

  lemma InitInv(contentLength: nat, chunkSize: nat, gated: bool)
    ensures Inv(Init(contentLength, chunkSize, gated))
  {
  }

  // One lemma per part of the invariant and per party: the upload and the settling party touch
  // `Shared` only, so the parts about the writer alone stay as they are.

  lemma ConsumeKeepsChannel(w: Writer, consumed: seq<Bytes>, queue: seq<Bytes>)
    requires Carries(w, consumed, queue, true) && queue != []
    ensures Carries(w, consumed + [queue[0]], queue[1..], true)
  {
    assert (consumed + [queue[0]]) + queue[1..] == consumed + queue;
    assert (consumed + [queue[0]]) + queue[1..] + Unpublished(w) == w.counted;
    assert consumed + [queue[0]] <= w.counted;
  }

  lemma TaskLeavesOrDrains(sh: Shared, e: TaskStep)
    requires TaskEnabled(sh, e) && e != Consume
    ensures
      var t := TaskApply(sh, e);
      && t.consumed == sh.consumed && t.senders == sh.senders
      && ((t.queue == sh.queue && t.receiverOpen == sh.receiverOpen) || (t.queue == [] && !t.receiverOpen))
  {
    match e
    case TaskWait =>
    case TaskReadEnd =>
    case TaskReadSent =>
    case TaskFail =>
    case _ =>
  }

  /** The upload leaves the counters, the flags and the handle alone. */
  lemma TaskTouches(sh: Shared, e: TaskStep)
    requires TaskEnabled(sh, e)
    ensures
      var t := TaskApply(sh, e);
      && t.contentLength == sh.contentLength && t.gated == sh.gated && t.handle == sh.handle
      && t.accepted == sh.accepted && t.sent == sh.sent && t.senders == sh.senders
      && t.bodyEnded == sh.bodyEnded && t.uploadEnded == sh.uploadEnded
      && (t.receiverOpen ==> sh.receiverOpen) && (sh.task.Done? ==> t.task == sh.task)
  {
    match e
    case TaskWait =>
    case TaskPass =>
    case TaskReadEnd =>
    case TaskReadSent =>
    case Consume =>
    case DropReceiver =>
    case TaskAnswer(answer) =>
    case TaskFail =>
    case TaskLeave =>
  }

  lemma TaskKeepsChannel(s: State, e: TaskStep)
    requires ChannelShape(s) && TaskEnabled(s.shared, e)
    ensures ChannelShape(s.(shared := TaskApply(s.shared, e)))
  {
    if e == Consume {
      ConsumeKeepsChannel(s.writer, s.shared.consumed, s.shared.queue);
    } else {
      TaskLeavesOrDrains(s.shared, e);
    }
  }

  lemma TaskKeepsGate(s: State, e: TaskStep)
    requires FlagOrder(s) && TaskShape(s) && GateShape(s) && TaskEnabled(s.shared, e)
    ensures TaskShape(s.(shared := TaskApply(s.shared, e)))
    ensures GateShape(s.(shared := TaskApply(s.shared, e)))
  {
    match e
    case TaskWait =>
    case TaskPass =>
    case TaskReadEnd =>
    case TaskReadSent =>
    case Consume =>
    case DropReceiver =>
    case TaskAnswer(answer) =>
    case TaskFail =>
    case TaskLeave =>
  }

  /** What the settling party has read stays true while the others only move on. */
  lemma HandleShapeStays(s: State, t: State)
    requires HandleShape(s) && t.shared.handle == s.shared.handle
    requires t.shared.contentLength == s.shared.contentLength && t.shared.gated == s.shared.gated
    requires s.shared.task.Done? ==> t.shared.task == s.shared.task
    requires t.shared.sent >= s.shared.sent && (s.writer.refused.Some? ==> t.writer.refused.Some?)
    requires s.shared.bodyEnded ==>
               t.shared.bodyEnded && t.shared.sent == s.shared.sent && t.writer.refused == s.writer.refused
    ensures HandleShape(t)
  {
  }

  /** A settling party only looks at a task that is over, and that stays as it is. */
  lemma TaskKeepsHandle(s: State, e: TaskStep)
    requires HandleShape(s) && TaskEnabled(s.shared, e)
    ensures HandleShape(s.(shared := TaskApply(s.shared, e)))
  {
    TaskTouches(s.shared, e);
    HandleShapeStays(s, s.(shared := TaskApply(s.shared, e)));
  }

  lemma TaskKeepsFlags(s: State, e: TaskStep)
    requires FlagOrder(s) && Conserved(s) && TaskEnabled(s.shared, e)
    ensures FlagOrder(s.(shared := TaskApply(s.shared, e)))
    ensures Conserved(s.(shared := TaskApply(s.shared, e)))
  {
    TaskTouches(s.shared, e);
  }

  lemma TaskKeepsInv(s: State, e: TaskStep)
    requires Inv(s) && TaskEnabled(s.shared, e)
    ensures Inv(Apply(s, E(Task(e))))
  {
    TaskKeepsChannel(s, e);
    TaskKeepsGate(s, e);
    TaskKeepsHandle(s, e);
    TaskKeepsFlags(s, e);
  }

  lemma SettleKeepsShape(s: State)
    requires WriterShape(s.writer) && FlagOrder(s) && TaskShape(s) && HandleShape(s) && HandleEnabled(s.shared, FinishSettle)
    ensures HandleShape(s.(shared := HandleApply(s.shared, FinishSettle)))
  {
    var Settling(answer, sawEnd, seen, failure) := s.shared.handle;
    assert s.shared.uploadEnded ==> s.writer.refused.Some?;
    assert s.writer.refused.Some? && s.shared.bodyEnded ==> s.shared.uploadEnded;
  }

  lemma MeasureKeepsShape(s: State)
    requires FlagOrder(s) && TaskShape(s) && HandleShape(s) && HandleEnabled(s.shared, FinishReadSent)
    ensures HandleShape(s.(shared := HandleApply(s.shared, FinishReadSent)))
  {
  }

  lemma ProducedKeepsShape(s: State, produced: Produced)
    requires TaskShape(s) && HandleShape(s) && HandleEnabled(s.shared, ProducerDone(produced))
    ensures HandleShape(s.(shared := HandleApply(s.shared, ProducerDone(produced))))
  {
  }

  lemma HandleKeepsSettling(s: State, e: HandleStep)
    requires WriterShape(s.writer) && FlagOrder(s) && TaskShape(s) && HandleShape(s) && HandleEnabled(s.shared, e)
    ensures HandleShape(s.(shared := HandleApply(s.shared, e)))
  {
    match e
    case FinishAwait =>
    case FinishReadEnd =>
    case FinishReadSent => MeasureKeepsShape(s);
    case FinishSettle => SettleKeepsShape(s);
    case ProducerDone(produced) => ProducedKeepsShape(s, produced);
    case HandleDrop =>
    case HandleMark =>
    case HandleAbort =>
  }

  lemma HandleTouches(sh: Shared, e: HandleStep)
    requires HandleEnabled(sh, e)
    ensures
      var t := HandleApply(sh, e);
      && t == sh.(handle := t.handle, uploadEnded := t.uploadEnded)
      && (t.uploadEnded == sh.uploadEnded || (t.uploadEnded && HandleDropped(t)))
      && (HandleDropped(sh) ==> HandleDropped(t))
  {
    match e
    case FinishAwait =>
    case FinishReadEnd =>
    case FinishReadSent =>
    case FinishSettle =>
    case ProducerDone(produced) =>
    case HandleDrop =>
    case HandleMark =>
    case HandleAbort =>
  }

  lemma HandleKeepsFlags(s: State, e: HandleStep)
    requires FlagOrder(s) && TaskShape(s) && GateShape(s) && HandleEnabled(s.shared, e)
    ensures
      var t := s.(shared := HandleApply(s.shared, e));
      FlagOrder(t) && TaskShape(t) && GateShape(t)
  {
    HandleTouches(s.shared, e);
  }

  lemma HandleKeepsInv(s: State, e: HandleStep)
    requires Inv(s) && HandleEnabled(s.shared, e)
    ensures Inv(Apply(s, E(Handle(e))))
  {
    HandleKeepsSettling(s, e);
    HandleKeepsFlags(s, e);
    HandleTouches(s.shared, e);
  }

  lemma WriterKeepsShape(s: State, w: WriterStep)
    requires WriterShape(s.writer) && ChunkShape(s.writer) && FlagOrder(s) && WriterEnabled(s, w)
    ensures WriterShape(NextWriter(s, w))
  {
    match w
    case Take(bytes) =>
    case Resume =>
    case ReserveWait =>
    case ReserveClosed =>
    case StartSend =>
    case LoadEnded =>
    case DropBegin =>
    case _ =>
  }

  lemma WriterKeepsChunks(s: State, w: WriterStep)
    requires WriterShape(s.writer) && ChunkShape(s.writer) && WriterEnabled(s, w)
    ensures ChunkShape(NextWriter(s, w))
  {
  }

  lemma WriterKeepsPieces(s: State, w: WriterStep)
    requires WriterShape(s.writer) && ChunkShape(s.writer) && WriterEnabled(s, w) && !w.Take?
    ensures Pieces(Apply(s, W(w)).writer) == Pieces(s.writer)
  {
  }

  /** The pieces after taking bytes: the counted chunks, then the fuller buffer. */
  lemma TakePieces(s: State, bytes: Bytes)
    requires WriterShape(s.writer) && WriterEnabled(s, Take(bytes))
    ensures Pieces(NextWriter(s, Take(bytes))) == s.writer.counted + [s.writer.buffer + bytes]
    ensures Pieces(s.writer) == s.writer.counted + if s.writer.buffer == [] then [] else [s.writer.buffer]
  {
    assert Remainder(s.writer) == s.writer.buffer;
    assert Remainder(NextWriter(s, Take(bytes))) == s.writer.buffer + bytes;
  }

  lemma OneMorePiece(pieces: seq<Bytes>, piece: Bytes, size: nat)
    ensures ShortBeforeLast(pieces + [piece], size) <==> SomeShort(pieces, size)
    ensures SomeShort(pieces, size) <==>
              ShortBeforeLast(pieces, size) || (pieces != [] && |pieces[|pieces| - 1]| < size)
  {
    assert forall i :: 0 <= i < |pieces| ==> (pieces + [piece])[i] == pieces[i];
  }

  lemma TakeKeepsResumed(s: State, bytes: Bytes)
    requires WriterShape(s.writer) && WriterEnabled(s, Take(bytes))
    requires s.writer.resumed <==> SomePieceShort(s.writer)
    ensures NextWriter(s, Take(bytes)).resumed <==> SomePieceShort(NextWriter(s, Take(bytes)))
  {
    var w := s.writer;
    TakePieces(s, bytes);
    OneMorePiece(w.counted, w.buffer + bytes, w.chunkSize);
    if w.buffer == [] {
      assert Pieces(w) == w.counted;
    } else {
      OneMorePiece(w.counted, w.buffer, w.chunkSize);
    }
  }

  lemma WriterKeepsResumed(s: State, w: WriterStep)
    requires WriterShape(s.writer) && ChunkShape(s.writer) && WriterEnabled(s, w)
    requires s.writer.resumed <==> SomePieceShort(s.writer)
    ensures Apply(s, W(w)).writer.resumed <==> SomePieceShort(Apply(s, W(w)).writer)
  {
    if w.Take? {
      TakeKeepsResumed(s, w.bytes);
    } else {
      WriterKeepsPieces(s, w);
    }
  }

  lemma CountKeepsCounters(s: State)
    requires WriterShape(s.writer) && Conserved(s) && WriterEnabled(s, Count)
    ensures Conserved(Apply(s, W(Count)))
  {
    FlatSnoc(s.writer.counted, s.writer.phase.chunk);
  }

  lemma TakeKeepsCounters(s: State, bytes: Bytes)
    requires WriterShape(s.writer) && Conserved(s) && WriterEnabled(s, Take(bytes))
    ensures Conserved(Apply(s, W(Take(bytes))))
  {
    assert Remainder(s.writer) == s.writer.buffer;
    Associates(Flat(s.writer.counted), s.writer.buffer, bytes);
  }

  lemma OthersCountNothing(s: State, w: WriterStep)
    requires WriterShape(s.writer) && WriterEnabled(s, w) && w != Count && !w.Take?
    ensures
      var t := WriterApply(s, w);
      && t.writer.taken == s.writer.taken && t.writer.counted == s.writer.counted
      && t.shared.accepted == s.shared.accepted && t.shared.sent == s.shared.sent
      && t.shared.contentLength == s.shared.contentLength
      && Remainder(t.writer) == Remainder(s.writer)
  {
    match w
    case ReserveWait =>
    case ReserveClosed =>
    case StartSend =>
    case DropBegin =>
    case DropPending =>
    case _ =>
  }

  lemma WriterKeepsCounters(s: State, w: WriterStep)
    requires WriterShape(s.writer) && Conserved(s) && WriterEnabled(s, w)
    ensures Conserved(Apply(s, W(w)))
  {
    if w == Count {
      CountKeepsCounters(s);
    } else if w.Take? {
      TakeKeepsCounters(s, w.bytes);
    } else {
      OthersCountNothing(s, w);
    }
  }

  lemma SendKeepsChannel(s: State, w: WriterStep)
    requires WriterShape(s.writer) && ChunkShape(s.writer) && FlagOrder(s) && ChannelShape(s) && WriterEnabled(s, w)
    requires Sends(w)
    ensures ChannelShape(Apply(s, W(w)))
  {
    var sh, t := s.shared, WriterApply(s, w);
    match w
    case Count =>
      assert Unpublished(s.writer) == [];
      assert sh.consumed + sh.queue + [s.writer.phase.chunk] == sh.consumed + sh.queue + [] + [s.writer.phase.chunk];
    case Publish =>
      assert sh.consumed + (sh.queue + [s.writer.phase.chunk]) + [] == sh.consumed + sh.queue + [s.writer.phase.chunk];
    case ReserveClosed =>
    case StartSend =>
  }

  /** The steps that move a chunk into the channel, or a sender out of it. */
  predicate Sends(w: WriterStep) {
    w == Count || w == Publish || w == ReserveClosed || w == StartSend
  }

  lemma OthersLeaveChannel(s: State, w: WriterStep)
    requires WriterShape(s.writer) && WriterEnabled(s, w) && !Sends(w)
    ensures
      var t := WriterApply(s, w);
      && t.shared.consumed == s.shared.consumed && t.shared.queue == s.shared.queue
      && t.shared.receiverOpen == s.shared.receiverOpen
      && t.writer.counted == s.writer.counted && t.writer.chunkSize == s.writer.chunkSize
      && Unpublished(t.writer) == Unpublished(s.writer)
      && (t.writer.phase.Reserved? ==> w == ReserveRoom) && !t.writer.phase.Counted?
  {
    OthersLeaveShared(s, w);
    OthersLeaveCounted(s, w);
  }

  lemma OthersLeaveShared(s: State, w: WriterStep)
    requires WriterEnabled(s, w) && !Sends(w)
    ensures
      var t := NextShared(s, w);
      t.consumed == s.shared.consumed && t.queue == s.shared.queue && t.receiverOpen == s.shared.receiverOpen
  {
    WriterTouches(s, w);
  }

  lemma OthersLeaveCounted(s: State, w: WriterStep)
    requires WriterEnabled(s, w) && !Sends(w)
    ensures
      var t := NextWriter(s, w);
      && t.counted == s.writer.counted && t.chunkSize == s.writer.chunkSize
      && (t.phase.Reserved? ==> w == ReserveRoom) && !t.phase.Counted? && !s.writer.phase.Counted?
  {
    match w
    case ReserveWait =>
    case Resume =>
    case DropBegin =>
    case DropPending =>
    case _ =>
  }

  /** The steps that drop the writer or its sender. */
  predicate LetsGo(w: WriterStep) {
    w == DropSender || w == DropBegin || w == DropField || w == DropPending
  }

  lemma SendersStay(s: State, w: WriterStep)
    requires WriterShape(s.writer) && WriterEnabled(s, w) && !Sends(w) && !LetsGo(w)
    ensures NextShared(s, w).senders == s.shared.senders && SendersHeld(NextWriter(s, w)) == SendersHeld(s.writer)
  {
    match w
    case ReserveWait =>
    case ReserveRoom =>
    case Resume =>
    case Take(bytes) =>
    case _ =>
  }

  /** A sender is dropped exactly when the writer holds one less. */
  lemma OthersKeepSenders(s: State, w: WriterStep)
    requires WriterShape(s.writer) && WriterEnabled(s, w) && !Sends(w)
    ensures NextShared(s, w).senders - s.shared.senders == SendersHeld(NextWriter(s, w)) - SendersHeld(s.writer)
  {
    if LetsGo(w) {
      match w
      case DropSender =>
      case DropBegin =>
      case DropField =>
      case DropPending =>
    } else {
      SendersStay(s, w);
    }
  }

  lemma WriterKeepsChannel(s: State, w: WriterStep)
    requires WriterShape(s.writer) && ChunkShape(s.writer) && FlagOrder(s) && ChannelShape(s) && WriterEnabled(s, w)
    ensures ChannelShape(Apply(s, W(w)))
  {
    if Sends(w) {
      SendKeepsChannel(s, w);
    } else {
      OthersLeaveChannel(s, w);
      OthersKeepSenders(s, w);
    }
  }

  /** The end is recorded exactly while the writer is past it. */
  lemma WriterKeepsEnd(s: State, w: WriterStep)
    requires WriterShape(s.writer) && FlagOrder(s) && WriterEnabled(s, w)
    ensures NextShared(s, w).bodyEnded <==> PastEnd(NextWriter(s, w))
  {
    match w
    case EndBody =>
    case DropBegin =>
    case _ =>
  }

  /** A refused chunk means a closed channel, and a flag stored in the same poll. */
  lemma WriterKeepsRefusal(s: State, w: WriterStep)
    requires WriterShape(s.writer) && FlagOrder(s) && WriterEnabled(s, w)
    ensures
      var n, sh := NextWriter(s, w), NextShared(s, w);
      && (n.refused.Some? ==> !sh.receiverOpen)
      && (n.refused.Some? ==> sh.uploadEnded || (n.phase == Refusing && n.sender))
      && (n.phase == Refusing ==> sh.uploadEnded || n.refused.Some?)
      && (sh.uploadEnded && !HandleDropped(sh) ==> n.refused.Some?)
  {
    WriterTouches(s, w);
    WriterRemembers(s, w);
    match w
    case ReserveClosed =>
    case StoreEnded =>
    case LoadEnded =>
    case _ =>
  }

  lemma WriterKeepsFlags(s: State, w: WriterStep)
    requires WriterShape(s.writer) && FlagOrder(s) && WriterEnabled(s, w)
    ensures FlagOrder(Apply(s, W(w)))
  {
    WriterKeepsEnd(s, w);
    WriterKeepsRefusal(s, w);
  }

  /** The steps that call `notify_one`. */
  predicate Announces(w: WriterStep) {
    w == StartSend || w == AnnounceEnd || w == DropAnnounce
  }

  /** What the writer leaves alone, and what it may only move one way. */
  lemma WriterTouches(s: State, w: WriterStep)
    requires WriterEnabled(s, w)
    ensures
      var sh, t := s.shared, NextShared(s, w);
      && t.handle == sh.handle && t.contentLength == sh.contentLength && t.gated == sh.gated
      && t.request == sh.request && t.receiverOpen == sh.receiverOpen && t.consumed == sh.consumed
      && t.sent >= sh.sent && (sh.uploadEnded ==> t.uploadEnded) && (sh.bodyEnded ==> t.bodyEnded)
  {
    if Announces(w) {
      AnnouncementTouches(s, w);
    } else {
      match w
      case Count =>
      case Publish =>
      case DropBegin =>
      case DropPending =>
      case _ =>
    }
  }

  lemma AnnouncementTouches(s: State, w: WriterStep)
    requires WriterEnabled(s, w) && Announces(w)
    ensures
      var t := NextShared(s, w);
      t == s.shared.(bodyStarted := t.bodyStarted, task := t.task, senders := t.senders)
  {
    var told := NotifyOne(s.shared);
    assert told == s.shared.(bodyStarted := told.bodyStarted, task := told.task);
    if w == StartSend {
      assert NextShared(s, StartSend) == told.(senders := told.senders + 1);
    } else {
      assert NextShared(s, w) == told;
    }
  }

  /** Only an announcement reaches the task. */
  lemma WriterNotifies(s: State, w: WriterStep)
    requires WriterEnabled(s, w)
    ensures
      var sh, t := s.shared, NextShared(s, w);
      && t.task == (if Announces(w) then NotifyOne(sh) else sh).task
      && t.bodyStarted == (if Announces(w) then NotifyOne(sh) else sh).bodyStarted
  {
    match w
    case StartSend =>
    case DropBegin =>
    case DropPending =>
    case _ =>
  }

  /** Bytes are only added to those taken, and a refused chunk stays refused. */
  lemma WriterRemembers(s: State, w: WriterStep)
    requires WriterEnabled(s, w)
    ensures
      var n := NextWriter(s, w);
      && s.writer.taken <= n.taken
      && (w != ReserveClosed ==> n.refused == s.writer.refused) && (w == ReserveClosed ==> n.refused.Some?)
  {
    match w
    case Take(bytes) =>
    case _ =>
  }

  lemma WriterKeepsTask(s: State, w: WriterStep)
    requires WriterShape(s.writer) && FlagOrder(s) && TaskShape(s) && GateShape(s) && WriterEnabled(s, w)
    ensures TaskShape(Apply(s, W(w)))
  {
    WriterTouches(s, w);
    WriterNotifies(s, w);
    if s.shared.bodyEnded {
      EndIsFinal(s, w);
    }
  }

  /** A body that is there for the task to see stays there, and comes with an announcement. */
  lemma AnnouncedStays(s: State, w: WriterStep)
    requires WriterShape(s.writer) && FlagOrder(s) && WriterEnabled(s, w)
    ensures
      var was := Started(s.writer) || EndAnnouncedOrLater(s.writer);
      var now := Started(NextWriter(s, w)) || EndAnnouncedOrLater(NextWriter(s, w));
      now <==> was || Announces(w)
    ensures Started(s.writer) ==> Started(NextWriter(s, w))
  {
    match w
    case Poll =>
    case Resume =>
    case ReserveWait =>
    case Publish =>
    case StartSend =>
    case EndBody =>
    case AnnounceEnd =>
    case DropSender =>
    case DropBegin =>
    case DropAnnounce =>
    case DropField =>
    case _ =>
  }

  lemma WriterKeepsGate(s: State, w: WriterStep)
    requires WriterShape(s.writer) && FlagOrder(s) && TaskShape(s) && GateShape(s) && WriterEnabled(s, w)
    ensures GateShape(Apply(s, W(w)))
  {
    WriterTouches(s, w);
    WriterNotifies(s, w);
    AnnouncedStays(s, w);
    WriterKeepsEnd(s, w);
  }

  /** Once the end of the body is recorded, nothing is counted, taken or refused any more. */
  lemma EndIsFinal(s: State, w: WriterStep)
    requires WriterShape(s.writer) && FlagOrder(s) && WriterEnabled(s, w) && s.shared.bodyEnded
    ensures
      var t := WriterApply(s, w);
      && t.shared.bodyEnded && t.shared.sent == s.shared.sent
      && t.writer.counted == s.writer.counted && t.writer.taken == s.writer.taken
      && t.writer.refused == s.writer.refused
  {
    match w
    case Poll =>
    case NothingPending =>
    case Resume =>
    case ReserveWait =>
    case ReserveRoom =>
    case ReserveClosed =>
    case Count =>
    case Publish =>
    case LoadEnded =>
    case Take(bytes) =>
    case StartSend =>
    case Return =>
    case StoreEnded =>
    case EndBody =>
    case AnnounceEnd =>
    case DropSender =>
    case DropBegin =>
    case DropAnnounce =>
    case DropField =>
    case DropPending =>
  }

  lemma WriterKeepsHandle(s: State, w: WriterStep)
    requires WriterShape(s.writer) && FlagOrder(s) && GateShape(s) && HandleShape(s) && WriterEnabled(s, w)
    ensures HandleShape(Apply(s, W(w)))
  {
    WriterTouches(s, w);
    WriterNotifies(s, w);
    WriterRemembers(s, w);
    if s.shared.bodyEnded {
      EndIsFinal(s, w);
    }
    HandleShapeStays(s, WriterApply(s, w));
  }

  lemma WriterKeepsInv(s: State, w: WriterStep)
    requires Inv(s) && WriterEnabled(s, w)
    ensures Inv(Apply(s, W(w)))
  {
    WriterKeepsShape(s, w);
    WriterKeepsChunks(s, w);
    WriterKeepsResumed(s, w);
    WriterKeepsCounters(s, w);
    WriterKeepsChannel(s, w);
    WriterKeepsFlags(s, w);
    WriterKeepsTask(s, w);
    WriterKeepsGate(s, w);
    WriterKeepsHandle(s, w);
  }
}
