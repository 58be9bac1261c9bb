/** What holds of the upload protocol in every reachable state and over every run. */
module UploadTheorems {
  import opened Bytes
  import opened UploadProtocol
  import opened UploadInvariant

  // ----- From steps to runs -----

  lemma StepInv(s: State, step: Step)
    requires Inv(s) && Enabled(s, step)
    ensures Inv(Apply(s, step))
  {
    match step
    case W(w) => WriterKeepsInv(s, w);
    case E(Task(t)) => TaskKeepsInv(s, t);
    case E(Handle(h)) => HandleKeepsInv(s, h);
  }

  lemma {:induction false} RunInv(s: State, steps: seq<Step>, t: State)
    requires Inv(s) && Runs(s, steps, t)
    ensures Inv(t)
    decreases |steps|
  {
    if steps != [] {
      StepInv(s, steps[0]);
      RunInv(Apply(s, steps[0]), steps[1..], t);
    }
  }

  lemma ReachableInv(s: State)
    requires Reachable(s)
    ensures Inv(s)
  {
    var contentLength: nat, chunkSize: nat, gated: bool, steps: seq<Step> :|
      Runs(Init(contentLength, chunkSize, gated), steps, s);
    InitInv(contentLength, chunkSize, gated);
    RunInv(Init(contentLength, chunkSize, gated), steps, s);
  }

  // ----- Counting -----

  /** The upload never holds bytes that `sent` does not include, and they are a prefix of the body. */
  lemma ConsumedNeverAheadOfSent(s: State)
    requires Reachable(s)
    ensures Flat(s.shared.consumed) <= Flat(s.writer.counted) <= s.writer.taken
    ensures |Flat(s.shared.consumed)| <= s.shared.sent <= s.shared.accepted <= s.shared.contentLength
  {
    ReachableInv(s);
    FlatPrefix(s.shared.consumed, s.writer.counted);
  }

  function OptionBytes(chunk: Option<Bytes>): Bytes {
    if chunk.Some? then chunk.value else []
  }

  /** The chunk a send holds and has not counted yet. */
  function Uncounted(w: Writer): Bytes {
    if w.phase.Handing? || w.phase.Reserved? then w.phase.chunk else []
  }

  /** At most one of four byte strings is not empty. */
  predicate AtMostOne(a: Bytes, b: Bytes, c: Bytes, d: Bytes) {
    && (a != [] ==> b == [] && c == [] && d == [])
    && (b != [] ==> c == [] && d == [])
    && (c != [] ==> d == [])
  }

  lemma RemainderIsOnePart(w: Writer)
    requires WriterShape(w)
    ensures AtMostOne(Uncounted(w), OptionBytes(w.pending), OptionBytes(w.refused), w.buffer)
    ensures Remainder(w) == Uncounted(w) + OptionBytes(w.pending) + OptionBytes(w.refused) + w.buffer
  {
    assert AtMostOne(Uncounted(w), OptionBytes(w.pending), OptionBytes(w.refused), w.buffer);
  }

  /**
    Conservation and order: the bytes taken are the counted chunks followed by one of a chunk in
    hand, a parked chunk, a refused chunk and the buffer - the other three are empty.
  */
  lemma BytesAreConserved(s: State)
    requires Reachable(s)
    ensures s.writer.taken == Flat(s.writer.counted)
              + (Uncounted(s.writer) + OptionBytes(s.writer.pending) + OptionBytes(s.writer.refused) + s.writer.buffer)
    ensures AtMostOne(Uncounted(s.writer), OptionBytes(s.writer.pending), OptionBytes(s.writer.refused), s.writer.buffer)
    ensures s.shared.accepted == |s.writer.taken| && s.shared.sent == |Flat(s.writer.counted)|
  {
    ReachableInv(s);
    RemainderIsOnePart(s.writer);
  }

  // ----- Losing a chunk -----

  /** A chunk can only be lost to a closed channel, and `upload_ended` says so before the poll is over. */
  lemma LossImpliesUploadEnded(s: State)
    requires Reachable(s) && s.writer.refused.Some?
    ensures !s.shared.receiverOpen
    ensures s.shared.uploadEnded || (s.writer.phase == Refusing && !s.shared.bodyEnded)
  {
    ReachableInv(s);
  }

  lemma WriterKeepsLoss(s: State, step: WriterStep)
    requires WriterShape(s.writer) && FlagOrder(s) && s.writer.refused.Some? && WriterEnabled(s, step)
    ensures var t := WriterApply(s, step).writer;
            t.refused == s.writer.refused && t.counted == s.writer.counted && t.taken == s.writer.taken
  {
  }

  /** After a loss no run takes, counts or loses anything more. */
  lemma {:induction false} LossIsFinal(s: State, steps: seq<Step>, t: State)
    requires Inv(s) && s.writer.refused.Some? && Runs(s, steps, t)
    ensures t.writer.refused == s.writer.refused
    ensures t.writer.counted == s.writer.counted && t.writer.taken == s.writer.taken
    decreases |steps|
  {
    if steps != [] {
      StepInv(s, steps[0]);
      if steps[0].W? {
        WriterKeepsLoss(s, steps[0].writer);
      }
      LossIsFinal(Apply(s, steps[0]), steps[1..], t);
    }
  }

  // ----- The end of the body -----

  /** `recv` reports the end: every sender is gone and nothing is queued. */
  predicate SeesEnd(sh: Shared) {
    sh.receiverOpen && sh.senders == 0 && sh.queue == []
  }

  /** The upload cannot see the end of the body before the end was recorded, and then it has it all. */
  lemma EndIsRecordedBeforeItIsSeen(s: State)
    requires Reachable(s) && SeesEnd(s.shared)
    ensures s.shared.bodyEnded
    ensures Flat(s.shared.consumed) == Flat(s.writer.counted) && |Flat(s.shared.consumed)| == s.shared.sent
  {
    ReachableInv(s);
    assert s.shared.consumed + [] + [] == s.shared.consumed;
  }

  /** Once the end is recorded, `sent` is final on every run - also when a parked send is dropped. */
  lemma {:induction false} SentIsFinalOnceEnded(s: State, steps: seq<Step>, t: State)
    requires Inv(s) && s.shared.bodyEnded && Runs(s, steps, t)
    ensures t.shared.bodyEnded && t.shared.sent == s.shared.sent
    ensures t.writer.counted == s.writer.counted && t.writer.taken == s.writer.taken
    ensures t.writer.refused == s.writer.refused
    decreases |steps|
  {
    if steps != [] {
      StepInv(s, steps[0]);
      if steps[0].W? {
        EndIsFinal(s, steps[0].writer);
      }
      SentIsFinalOnceEnded(Apply(s, steps[0]), steps[1..], t);
    }
  }

  // ----- Verdicts -----

  /** Success, on both paths: the request was accepted and every declared byte was counted, in order. */
  lemma SuccessIsSound(s: State)
    requires Reachable(s) && s.shared.handle.Decided? && s.shared.handle.verdict == Stored
    ensures s.shared.task == Done(Returned(Accepted))
    ensures s.shared.sent == s.shared.accepted == s.shared.contentLength
    ensures Flat(s.writer.counted) == s.writer.taken && |s.writer.taken| == s.shared.contentLength
    ensures s.writer.buffer == [] && s.writer.pending.None? && s.writer.refused.None?
    ensures !s.writer.phase.Handing? && !s.writer.phase.Reserved?
  {
    ReachableInv(s);
    assert Remainder(s.writer) == [];
  }

  /** Nothing was decided, or is about to be, on the ground that the body was short. */
  predicate NotShort(sh: Shared) {
    && sh.sent >= sh.contentLength
    && match sh.handle
       case Settling(_, _, _, failure) => failure != Some(UnexpectedEof)
       case Decided(_, _, _, _, verdict) => verdict != ProducerFailed(UnexpectedEof)
       case _ => true
  }

  lemma HandleKeepsNotShort(sh: Shared, h: HandleStep)
    requires NotShort(sh) && HandleEnabled(sh, h)
    ensures NotShort(HandleApply(sh, h))
  {
    match h
    case FinishAwait =>
    case FinishReadEnd =>
    case FinishReadSent =>
    case FinishSettle =>
    case ProducerDone(produced) =>
    case HandleDrop =>
    case HandleMark =>
    case HandleAbort =>
  }

  lemma {:induction false} RunKeepsNotShort(s: State, steps: seq<Step>, t: State)
    requires NotShort(s.shared) && Runs(s, steps, t)
    ensures NotShort(t.shared)
    decreases |steps|
  {
    if steps != [] {
      match steps[0] {
        case W(w) => WriterTouches(s, w);
        case E(Task(e)) => TaskTouches(s.shared, e);
        case E(Handle(h)) => HandleKeepsNotShort(s.shared, h);
      }
      RunKeepsNotShort(Apply(s, steps[0]), steps[1..], t);
    }
  }

  /**
    An upload that has taken the whole body is never reported as a short one, on either path and
    whatever happens next; and `finish` then reports an accepted one as stored.
  */
  lemma DeliveredIsNeverShort(s: State, steps: seq<Step>, t: State)
    requires Reachable(s) && s.shared.handle == Held
    requires |Flat(s.shared.consumed)| >= s.shared.contentLength
    requires Runs(s, steps, t) && t.shared.handle.Decided?
    ensures t.shared.handle.verdict != ProducerFailed(UnexpectedEof)
    ensures t.shared.gated && t.shared.handle.result == Returned(Accepted) ==> t.shared.handle.verdict == Stored
  {
    ReachableInv(s);
    ConsumedNeverAheadOfSent(s);
    RunKeepsNotShort(s, steps, t);
    RunInv(s, steps, t);
  }

  /** A run keeps the shape of the upload, and takes bytes only after those it took. */
  lemma {:induction false} RunGrows(s: State, steps: seq<Step>, t: State)
    requires Runs(s, steps, t)
    ensures t.shared.contentLength == s.shared.contentLength && t.shared.gated == s.shared.gated
    ensures s.writer.taken <= t.writer.taken
    decreases |steps|
  {
    if steps != [] {
      match steps[0] {
        case W(w) =>
          WriterTouches(s, w);
          WriterRemembers(s, w);
        case E(Task(e)) => TaskTouches(s.shared, e);
        case E(Handle(h)) => HandleTouches(s.shared, h);
      }
      RunGrows(Apply(s, steps[0]), steps[1..], t);
    }
  }

  lemma RunReaches(s: State, steps: seq<Step>, t: State)
    requires Reachable(s) && Runs(s, steps, t)
    ensures Reachable(t)
  {
    var contentLength: nat, chunkSize: nat, gated: bool, first: seq<Step> :|
      Runs(Init(contentLength, chunkSize, gated), first, s);
    RunsConcat(Init(contentLength, chunkSize, gated), first, s, steps, t);
  }

  /**
    A request that reads its body to the end before it is accepted: `finish` reports it as stored if
    and only if what it read was `content_length` bytes, and then they are the bytes the writer took;
    otherwise the writer is told its body was short. On the other path only the producer's own
    failure can come in between.
  */
  lemma AcceptedAfterTheEndIsExact(m: State, steps: seq<Step>, t: State)
    requires Reachable(m) && SeesEnd(m.shared) && m.shared.handle == Held
    requires Runs(m, steps, t) && t.shared.handle.Decided? && t.shared.handle.result == Returned(Accepted)
    ensures
      var whole, verdict := |Flat(m.shared.consumed)| == m.shared.contentLength, t.shared.handle.verdict;
      && (m.shared.gated ==> verdict == if whole then Stored else ProducerFailed(UnexpectedEof))
      && (verdict == Stored ==> whole && Flat(m.shared.consumed) == t.writer.taken)
      && (verdict != Stored ==> verdict.ProducerFailed? && (whole ==> verdict != ProducerFailed(UnexpectedEof)))
  {
    ReachableInv(m);
    EndIsRecordedBeforeItIsSeen(m);
    SentIsFinalOnceEnded(m, steps, t);
    RunGrows(m, steps, t);
    RunReaches(m, steps, t);
    ReachableInv(t);
    if t.shared.handle.verdict == Stored {
      SuccessIsSound(t);
    }
    if |Flat(m.shared.consumed)| == m.shared.contentLength {
      DeliveredIsNeverShort(m, steps, t);
    }
  }

  /** While the receiver is there, the request has all that was counted exactly when none of it waits. */
  lemma ChannelIsEmptyExactlyWhen(s: State)
    requires ChunkShape(s.writer) && Conserved(s) && ChannelShape(s) && s.shared.receiverOpen
    ensures |Flat(s.shared.consumed)| == s.shared.sent <==> s.shared.queue == [] && !s.writer.phase.Counted?
  {
    var sh, rest := s.shared, s.shared.queue + Unpublished(s.writer);
    Associates(sh.consumed, sh.queue, Unpublished(s.writer));
    FlatConcat(sh.consumed, rest);
    if rest != [] {
      assert rest[|rest| - 1] == s.writer.counted[|s.writer.counted| - 1];
      assert |Flat(rest)| >= 1;
    }
  }

  /**
    What the request has, at any moment while it holds the receiver, in a run that ends in success:
    the whole body if and only if by then every declared byte is counted and none is still in the
    channel or on its way into it.
  */
  lemma HasTheBodyExactlyWhen(m: State, steps: seq<Step>, t: State)
    requires Reachable(m) && m.shared.receiverOpen
    requires Runs(m, steps, t) && t.shared.handle.Decided? && t.shared.handle.verdict == Stored
    ensures Flat(m.shared.consumed) == t.writer.taken <==> Drained(m)
  {
    ReachableInv(m);
    ConsumedNeverAheadOfSent(m);
    RunGrows(m, steps, t);
    RunReaches(m, steps, t);
    SuccessIsSound(t);
    ChannelIsEmptyExactlyWhen(m);
  }

  /** Every declared byte is counted, and none is in the channel or on its way into it. */
  predicate Drained(s: State) {
    s.shared.sent == s.shared.contentLength && s.shared.queue == [] && !s.writer.phase.Counted?
  }

  /** A closed receiver stays closed, and nothing more is taken through it. */
  lemma StepKeepsClosed(s: State, step: Step)
    requires !s.shared.receiverOpen && Enabled(s, step)
    ensures !Apply(s, step).shared.receiverOpen && Apply(s, step).shared.consumed == s.shared.consumed
  {
    match step
    case W(w) => WriterTouches(s, w);
    case E(Task(e)) =>
      TaskTouches(s.shared, e);
      TaskLeavesOrDrains(s.shared, e);
    case E(Handle(h)) => HandleTouches(s.shared, h);
  }

  lemma {:induction false} ClosedIsFinal(s: State, steps: seq<Step>, t: State)
    requires !s.shared.receiverOpen && Runs(s, steps, t)
    ensures !t.shared.receiverOpen && t.shared.consumed == s.shared.consumed
    decreases |steps|
  {
    if steps != [] {
      StepKeepsClosed(s, steps[0]);
      ClosedIsFinal(Apply(s, steps[0]), steps[1..], t);
    }
  }

  /** Only a step of the upload lets go of the receiver, and it takes nothing with it. */
  lemma ClosingTakesNothing(s: State, step: Step)
    requires s.shared.receiverOpen && Enabled(s, step) && !Apply(s, step).shared.receiverOpen
    ensures step.E? && step.env.Task? && Apply(s, step).shared.consumed == s.shared.consumed
  {
    match step
    case W(w) => WriterTouches(s, w);
    case E(Task(e)) => TaskLeavesOrDrains(s.shared, e);
    case E(Handle(h)) => HandleTouches(s.shared, h);
  }

  /**
    The request lets go of the receiver by `step` - it answered, failed, or has read enough - and the
    run still ends in success: the request took the body if and only if the channel was drained of
    all that was declared at the moment it let go.
  */
  lemma LetGoWithTheBodyExactlyWhen(m: State, step: Step, steps: seq<Step>, t: State)
    requires Reachable(m) && m.shared.receiverOpen && Enabled(m, step) && !Apply(m, step).shared.receiverOpen
    requires Runs(Apply(m, step), steps, t) && t.shared.handle.Decided? && t.shared.handle.verdict == Stored
    ensures Flat(t.shared.consumed) == t.writer.taken <==> Drained(m)
  {
    ClosingTakesNothing(m, step);
    ClosedIsFinal(Apply(m, step), steps, t);
    RunsOne(m, step);
    RunsConcat(m, [step], Apply(m, step), steps, t);
    HasTheBodyExactlyWhen(m, [step] + steps, t);
  }

  /** `m` is the last state of the run from `m` to `t` in which the request held the receiver. */
  ghost predicate LastOpen(m: State, rest: seq<Step>, t: State) {
    && m.shared.receiverOpen && Runs(m, rest, t)
    && (if t.shared.receiverOpen then rest == [] else rest != [] && !Apply(m, rest[0]).shared.receiverOpen)
  }

  lemma {:induction false} FindLastOpen(s: State, steps: seq<Step>, t: State) returns (m: State, rest: seq<Step>)
    requires Reachable(s) && s.shared.receiverOpen && Runs(s, steps, t)
    ensures Reachable(m) && LastOpen(m, rest, t)
    decreases |steps|
  {
    if t.shared.receiverOpen {
      RunReaches(s, steps, t);
      return t, [];
    }
    var next := Apply(s, steps[0]);
    if next.shared.receiverOpen {
      RunsOne(s, steps[0]);
      RunReaches(s, [steps[0]], next);
      m, rest := FindLastOpen(next, steps[1..], t);
    } else {
      m, rest := s, steps;
    }
  }

  /**
    When a success means that the request took the body: every successful state is reached through a
    last moment at which the request held the receiver, and it took the body if and only if the
    channel was drained of all that was declared at that moment.
  */
  lemma SuccessTookTheBodyExactlyWhen(t: State)
    requires Reachable(t) && t.shared.handle.Decided? && t.shared.handle.verdict == Stored
    ensures exists m: State, rest: seq<Step> :: Reachable(m) && LastOpen(m, rest, t)
    ensures forall m: State, rest: seq<Step> :: Reachable(m) && LastOpen(m, rest, t) ==>
              (Flat(t.shared.consumed) == t.writer.taken <==> Drained(m))
  {
    var contentLength: nat, chunkSize: nat, gated: bool, steps: seq<Step> :|
      Runs(Init(contentLength, chunkSize, gated), steps, t);
    var s := Init(contentLength, chunkSize, gated);
    assert Runs(s, [], s);
    var last, after := FindLastOpen(s, steps, t);
    forall m: State, rest: seq<Step> | Reachable(m) && LastOpen(m, rest, t)
      ensures Flat(t.shared.consumed) == t.writer.taken <==> Drained(m)
    {
      if rest == [] {
        HasTheBodyExactlyWhen(m, rest, t);
      } else {
        LetGoWithTheBodyExactlyWhen(m, rest[0], rest[1..], t);
      }
    }
  }

  /** The count alone, wherever the upload is by the time the success is reported. */
  lemma SuccessfulUploadTookTheBody(s: State)
    requires Reachable(s) && s.shared.handle.Decided? && s.shared.handle.verdict == Stored
    ensures Flat(s.shared.consumed) == s.writer.taken <==> |Flat(s.shared.consumed)| == s.shared.contentLength
  {
    SuccessIsSound(s);
    ConsumedNeverAheadOfSent(s);
  }

  /** The blame rule of `finish`, both ways: what it read, and whether a send had ever been refused. */
  lemma BlameIsExact(s: State)
    requires Reachable(s) && s.shared.gated && s.shared.handle.Decided?
    ensures
      var Decided(result, sawEnd, seen, _, verdict) := s.shared.handle;
      && s.shared.task == Done(result)
      && (verdict.ProducerFailed? <==>
            && result.Returned? && seen < s.shared.contentLength
            && (result.answer.Accepted? || (sawEnd && s.writer.refused.None?)))
      && (verdict.ProducerFailed? ==> verdict.failure == UnexpectedEof)
      && (verdict.ProducerFailed? && result.answer.Failed? ==> s.shared.bodyEnded && s.shared.sent == seen)
      && (verdict == TaskLost <==> result == NotFinished)
  {
    ReachableInv(s);
  }

  /**
    The blame rule of `upload_with_writer`, both ways, at the step that decides: the producer failed,
    or returned with fewer bytes sent than declared; and the storage accepted, or no send that found
    the channel closed had stored the flag.
  */
  lemma ProducerBlameIsExact(s: State)
    requires Reachable(s) && !s.shared.gated && s.shared.handle.Settling?
    ensures
      var Settling(answer, _, seen, failure) := s.shared.handle;
      var verdict := HandleApply(s.shared, FinishSettle).handle.verdict;
      var produced := failure.Some? && failure.value.Producer?;
      && (verdict.ProducerFailed? <==>
            && (produced || seen < s.shared.contentLength)
            && (answer.Accepted? || !s.shared.uploadEnded))
      && (verdict.ProducerFailed? ==> verdict.failure == if produced then failure.value else UnexpectedEof)
      && (s.shared.uploadEnded ==> s.writer.refused.Some?)
      && (s.writer.refused.Some? ==> s.shared.uploadEnded || s.writer.phase == Refusing)
  {
    ReachableInv(s);
  }

  /** A failed upload whose writer found the channel closed surfaces its own error. */
  lemma RefusedWriterSurfacesTheUploadError(s: State)
    requires Reachable(s) && s.shared.gated && s.shared.handle.Decided? && s.writer.refused.Some?
    requires s.shared.handle.result.Returned? && s.shared.handle.result.answer.Failed?
    ensures s.shared.handle.verdict == UploadFailed(s.shared.handle.result.answer.error)
  {
    ReachableInv(s);
  }

  /**
    The rule both paths settle by, with the body failure the producer left behind: it decides against
    an accepted upload, and against a failed one unless a send had found the channel closed.
  */
  lemma SettlingIsSound(s: State)
    requires Reachable(s) && s.shared.handle.Decided? && s.shared.handle.result.Returned?
    ensures
      var Decided(result, _, _, failure, verdict) := s.shared.handle;
      && (verdict == Stored <==> result.answer == Accepted && failure.None?)
      && (result.answer.Accepted? && failure.Some? ==> verdict == ProducerFailed(failure.value))
      && (result.answer.Failed? && failure.None? ==> verdict == UploadFailed(result.answer.error))
      && (result.answer.Failed? && failure.Some? ==>
            || verdict == ProducerFailed(failure.value)
            || (verdict == UploadFailed(result.answer.error) && s.writer.refused.Some?))
  {
    ReachableInv(s);
  }

  /** Nothing has been decided against an upload that failed. */
  predicate NotBlamed(sh: Shared) {
    sh.uploadEnded && (sh.handle.Decided? && sh.handle.result.Returned? && sh.handle.result.answer.Failed? ==>
                         sh.handle.verdict == UploadFailed(sh.handle.result.answer.error))
  }

  lemma HandleKeepsNotBlamed(sh: Shared, h: HandleStep)
    requires NotBlamed(sh) && HandleEnabled(sh, h)
    ensures NotBlamed(HandleApply(sh, h))
  {
    match h
    case FinishAwait =>
    case FinishReadEnd =>
    case FinishReadSent =>
    case FinishSettle =>
    case ProducerDone(produced) =>
    case HandleDrop =>
    case HandleMark =>
    case HandleAbort =>
  }

  lemma StepKeepsNotBlamed(s: State, step: Step)
    requires NotBlamed(s.shared) && Enabled(s, step)
    ensures NotBlamed(Apply(s, step).shared)
  {
    match step
    case W(w) => WriterTouches(s, w);
    case E(Task(e)) => TaskTouches(s.shared, e);
    case E(Handle(h)) => HandleKeepsNotBlamed(s.shared, h);
  }

  /** Once the writer has seen the channel close, a failed upload surfaces its own error on every run. */
  lemma {:induction false} SeenClosedSurfacesTheUploadError(s: State, steps: seq<Step>, t: State)
    requires NotBlamed(s.shared) && Runs(s, steps, t)
    ensures t.shared.handle.Decided? && t.shared.handle.result.Returned? && t.shared.handle.result.answer.Failed? ==>
              t.shared.handle.verdict == UploadFailed(t.shared.handle.result.answer.error)
    decreases |steps|
  {
    if steps != [] {
      StepKeepsNotBlamed(s, steps[0]);
      SeenClosedSurfacesTheUploadError(Apply(s, steps[0]), steps[1..], t);
    }
  }

  /** The task's own "ended short" error is never what `finish` returns: the writer is blamed. */
  lemma EndedShortNeverSurfaces(s: State)
    requires Reachable(s) && s.shared.gated && s.shared.handle.Decided?
    ensures s.shared.handle.verdict != UploadFailed(EndedShort)
    ensures s.shared.task == Done(Returned(Failed(EndedShort))) ==>
              s.shared.handle.verdict == ProducerFailed(UnexpectedEof)
  {
    ReachableInv(s);
  }

  /** From the moment the task decides on that error, the body is over, short, and not the upload's doing. */
  lemma EndedShortIsTheWriters(s: State, steps: seq<Step>, t: State)
    requires Reachable(s) && (s.shared.task.Leaving? || s.shared.task.Done?) && EndedShortResult(s.shared.task.result)
    requires Runs(s, steps, t)
    ensures t.shared.bodyEnded && t.shared.sent == s.shared.sent < s.shared.contentLength
    ensures !HandleDropped(t.shared) ==> !t.shared.uploadEnded
  {
    ReachableInv(s);
    RunInv(s, steps, t);
    SentIsFinalOnceEnded(s, steps, t);
  }

  // ----- After the upload has ended -----

  /** What holds from the end of the poll in which `upload_ended` was set. */
  ghost predicate Refused(s: State, counted: seq<Bytes>, parked: Option<Bytes>, taken: Bytes) {
    var w := s.writer;
    && s.shared.uploadEnded && w.taken == taken
    && !w.phase.Cleared? && !w.phase.Filled? && !w.phase.Sent? && !w.phase.EndStored? && !w.phase.EndAnnounced?
    && (InHand(w) ==> !w.phase.newSend)
    && (w.counted == counted || (parked.Some? && w.counted == counted + [parked.value] && w.pending.None?))
    && (w.counted == counted && w.pending.Some? ==> w.pending == parked)
    && (w.counted == counted && (w.phase.Handing? || w.phase.Reserved?) ==> Some(w.phase.chunk) == parked)
    && (w.counted != counted ==> !w.phase.Handing? && !w.phase.Reserved?)
  }

  lemma WriterKeepsRefused(s: State, step: WriterStep, counted: seq<Bytes>, parked: Option<Bytes>, taken: Bytes)
    requires WriterShape(s.writer) && Refused(s, counted, parked, taken) && WriterEnabled(s, step)
    ensures Refused(WriterApply(s, step), counted, parked, taken)
  {
  }

  lemma StepKeepsRefused(s: State, step: Step, counted: seq<Bytes>, parked: Option<Bytes>, taken: Bytes)
    requires Inv(s) && Refused(s, counted, parked, taken) && Enabled(s, step)
    ensures Refused(Apply(s, step), counted, parked, taken)
  {
    match step
    case W(w) => WriterKeepsRefused(s, w, counted, parked, taken);
    case E(Task(t)) => assert TaskApply(s.shared, t).uploadEnded;
    case E(Handle(h)) => HandleTouches(s.shared, h);
  }

  lemma {:induction false} RunKeepsRefused(
    s: State, steps: seq<Step>, t: State, counted: seq<Bytes>, parked: Option<Bytes>, taken: Bytes)
    requires Inv(s) && Refused(s, counted, parked, taken) && Runs(s, steps, t)
    ensures Refused(t, counted, parked, taken)
    decreases |steps|
  {
    if steps != [] {
      StepInv(s, steps[0]);
      StepKeepsRefused(s, steps[0], counted, parked, taken);
      RunKeepsRefused(Apply(s, steps[0]), steps[1..], t, counted, parked, taken);
    }
  }

  /**
    Once `upload_ended` is set, the polls that follow take no byte, start no send and end no body;
    at most the send that was already parked is still counted.
  */
  lemma NothingStartsAfterUploadEnded(s: State, steps: seq<Step>, t: State)
    requires Reachable(s) && s.shared.uploadEnded && s.writer.phase == Idle && Runs(s, steps, t)
    ensures t.shared.uploadEnded && t.writer.taken == s.writer.taken
    ensures || t.writer.counted == s.writer.counted
            || (s.writer.pending.Some? && t.writer.counted == s.writer.counted + [s.writer.pending.value])
    ensures InHand(t.writer) ==> !t.writer.phase.newSend
    ensures t.writer.phase != EndStored && t.writer.phase != Sent && t.writer.phase != Cleared
  {
    ReachableInv(s);
    RunKeepsRefused(s, steps, t, s.writer.counted, s.writer.pending, s.writer.taken);
  }

  // ----- Space and shape -----

  /** The bytes the writer holds: its buffer, a parked chunk, or a chunk in hand. */
  function HeldBytes(w: Writer): nat {
    |w.buffer| + |OptionBytes(w.pending)| + (if InHand(w) then |w.phase.chunk| else 0)
  }

  lemma Times(a: nat, b: nat, size: nat)
    requires a <= b
    ensures a * size <= b * size
  {
  }

  lemma HeldBytesBounded(w: Writer)
    requires WriterShape(w) && ChunkShape(w)
    ensures HeldBytes(w) <= w.chunkSize
  {
  }

  lemma SpaceIsBounded(s: State)
    requires Reachable(s)
    ensures |Flat(s.shared.queue)| + HeldBytes(s.writer) <= 5 * s.writer.chunkSize
    ensures s.writer.phase == Idle ==> |s.writer.buffer| < s.writer.chunkSize
    ensures s.writer.pending.Some? ==> s.writer.buffer == []
    ensures forall i :: 0 <= i < |s.writer.counted| ==> 1 <= |s.writer.counted[i]| <= s.writer.chunkSize
  {
    ReachableInv(s);
    FlatBound(s.shared.queue, s.writer.chunkSize);
    HeldBytesBounded(s.writer);
    Times(|s.shared.queue|, UPLOAD_CHANNEL_CAPACITY, s.writer.chunkSize);
  }

  /** `bytes` cut into pieces of `size`, the last one shorter if it does not come out even. */
  function FixedSplit(bytes: Bytes, size: nat): seq<Bytes>
    requires size >= 1
    decreases |bytes|
  {
    if bytes == [] then []
    else if |bytes| <= size then [bytes]
    else [bytes[..size]] + FixedSplit(bytes[size..], size)
  }

  lemma SplitFirst(first: Bytes, rest: Bytes, size: nat)
    requires size >= 1 && |first| == size && rest != []
    ensures FixedSplit(first + rest, size) == [first] + FixedSplit(rest, size)
  {
    assert (first + rest)[..size] == first;
    assert (first + rest)[size..] == rest;
  }

  ghost predicate EvenPieces(pieces: seq<Bytes>, size: nat) {
    && (forall i :: 0 <= i < |pieces| ==> 1 <= |pieces[i]| <= size)
    && (forall i :: 0 <= i < |pieces| - 1 ==> |pieces[i]| == size)
  }

  lemma {:induction false} EvenPiecesAreTheSplit(pieces: seq<Bytes>, size: nat)
    requires size >= 1 && EvenPieces(pieces, size)
    ensures FixedSplit(Flat(pieces), size) == pieces
    decreases |pieces|
  {
    if pieces != [] {
      var first, rest := pieces[0], pieces[1..];
      assert pieces == [first] + rest;
      FlatConcat([first], rest);
      FlatOne(first);
      EvenPiecesAreTheSplit(rest, size);
      if rest != [] {
        assert |Flat(rest)| >= |rest[|rest| - 1]| >= 1;
        SplitFirst(first, Flat(rest), size);
      }
    }
  }

  lemma {:induction false} SplitIsEven(bytes: Bytes, size: nat)
    requires size >= 1
    ensures EvenPieces(FixedSplit(bytes, size), size)
    decreases |bytes|
  {
    if |bytes| > size {
      SplitIsEven(bytes[size..], size);
    }
  }

  /**
    The writer cuts the body into the fixed-size split exactly as long as no byte was taken after a
    chunk shorter than `chunk_size` was started.
  */
  lemma ChunksAreTheFixedSplit(s: State)
    requires Reachable(s)
    ensures Flat(Pieces(s.writer)) == s.writer.taken
    ensures s.writer.chunkSize >= 1
    ensures !s.writer.resumed <==> Pieces(s.writer) == FixedSplit(s.writer.taken, s.writer.chunkSize)
  {
    ReachableInv(s);
    var w := s.writer;
    var pieces := Pieces(w);
    if Remainder(w) == [] {
      assert pieces == w.counted;
    } else {
      FlatSnoc(w.counted, Remainder(w));
    }
    assert forall i :: 0 <= i < |pieces| ==> 1 <= |pieces[i]| <= w.chunkSize;
    if !w.resumed {
      EvenPiecesAreTheSplit(pieces, w.chunkSize);
    } else {
      var i :| 0 <= i < |pieces| - 1 && |pieces[i]| < w.chunkSize;
      SplitIsEven(w.taken, w.chunkSize);
      assert !EvenPieces(pieces, w.chunkSize);
    }
  }
}
