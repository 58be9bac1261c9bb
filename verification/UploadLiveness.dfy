/** The held-back request: when it is released, and that nothing waits for it forever. */
module UploadLiveness {
  import opened Bytes
  import opened UploadProtocol
  import opened UploadInvariant
  import opened UploadTheorems

  /** The request goes out only once a send was started or the body ended. */
  lemma RequestWaitsForTheBody(s: State)
    requires Reachable(s) && s.shared.gated
    requires s.shared.request || s.shared.task in {Woken, Released, SawEnd}
    ensures Started(s.writer) || s.shared.bodyEnded
  {
    ReachableInv(s);
  }

  /** In whatever order the writer announces and the task waits, an announced body releases the task. */
  lemma NoWakeUpIsLost(s: State)
    requires Reachable(s) && (Started(s.writer) || EndAnnouncedOrLater(s.writer))
    ensures s.shared.task != Registered
    ensures s.shared.task == AtGate ==> TaskApply(s.shared, TaskWait).task == Released
  {
    ReachableInv(s);
  }

  /** Steps of the upload alone, and none of them a panic or a cancellation. */
  ghost predicate TaskStepsOnly(steps: seq<Step>) {
    forall i :: 0 <= i < |steps| ==> steps[i].E? && steps[i].env.Task? && steps[i].env.task != TaskFail
  }

  lemma OneTaskStep(s: State, e: TaskStep) returns (t: State)
    requires Inv(s) && TaskEnabled(s.shared, e)
    ensures Inv(t) && t == s.(shared := TaskApply(s.shared, e))
    ensures Runs(s, [E(Task(e))], t)
  {
    t := Apply(s, E(Task(e)));
    TaskKeepsInv(s, e);
    RunsOne(s, E(Task(e)));
  }

  /** The steps the task still has to take before it is past the gate. */
  function StepsToGo(sh: Shared): nat {
    match sh.task
    case AtGate => 4
    case Woken => 3
    case Released => 2
    case SawEnd => 1
    case _ => 0
  }

  /** The step a task before its request takes next; none of the writer's is needed for it. */
  lemma NextTaskStep(s: State) returns (e: TaskStep)
    requires GateIsOpen(s) && (Started(s.writer) || EndAnnouncedOrLater(s.writer)) && BeforeRequest(s.shared)
    ensures e != TaskFail && TaskEnabled(s.shared, e) && StepsToGo(TaskApply(s.shared, e)) < StepsToGo(s.shared)
  {
    match s.shared.task
    case AtGate => e := TaskWait;
    case Woken => e := TaskPass;
    case Released => e := TaskReadEnd;
    case SawEnd => e := TaskReadSent;
  }

  lemma TaskStepFirst(s: State, e: TaskStep, m: State, rest: seq<Step>, t: State) returns (steps: seq<Step>)
    requires e != TaskFail && Runs(s, [E(Task(e))], m) && TaskStepsOnly(rest) && Runs(m, rest, t)
    ensures TaskStepsOnly(steps) && Runs(s, steps, t)
  {
    steps := [E(Task(e))] + rest;
    RunsConcat(s, [E(Task(e))], m, rest, t);
  }

  /** A task behind a started send or an announced end gets past the gate by its own steps alone. */
  lemma {:induction false} TaskGetsPastTheGate(s: State) returns (steps: seq<Step>, t: State)
    requires Inv(s) && (Started(s.writer) || EndAnnouncedOrLater(s.writer))
    ensures TaskStepsOnly(steps) && Runs(s, steps, t) && Inv(t)
    ensures t.writer == s.writer && !BeforeRequest(t.shared)
    decreases StepsToGo(s.shared)
  {
    if !BeforeRequest(s.shared) {
      steps, t := [], s;
      return;
    }
    var e := NextTaskStep(s);
    var m := OneTaskStep(s, e);
    var rest;
    rest, t := TaskGetsPastTheGate(m);
    steps := TaskStepFirst(s, e, m, rest, t);
  }

  /** No reachable state keeps the task waiting for a body that has started or ended. */
  lemma HeldBackTaskIsReleased(s: State)
    requires Reachable(s) && (Started(s.writer) || EndAnnouncedOrLater(s.writer))
    ensures exists steps: seq<Step>, t: State ::
              TaskStepsOnly(steps) && Runs(s, steps, t) && t.writer == s.writer && !BeforeRequest(t.shared)
  {
    ReachableInv(s);
    var steps, t := TaskGetsPastTheGate(s);
  }

  /** The parked send can be answered: there is room, or the receiver is gone. */
  predicate CanAnswer(sh: Shared) {
    !sh.receiverOpen || |sh.queue| < UPLOAD_CHANNEL_CAPACITY
  }

  /** A channel too full to answer belongs to a request that can read from it. */
  lemma FullChannelIsRead(s: State)
    requires TaskShape(s) && !BeforeRequest(s.shared) && !CanAnswer(s.shared)
    ensures TaskEnabled(s.shared, Consume)
    ensures |s.shared.queue| <= UPLOAD_CHANNEL_CAPACITY ==> CanAnswer(TaskApply(s.shared, Consume))
  {
  }

  lemma ReadOneChunk(s: State) returns (t: State)
    requires Inv(s) && !BeforeRequest(s.shared) && !CanAnswer(s.shared)
    ensures Runs(s, [E(Task(Consume))], t) && t.writer == s.writer && CanAnswer(t.shared)
  {
    FullChannelIsRead(s);
    t := OneTaskStep(s, Consume);
  }

  lemma TaskStepLast(s: State, steps: seq<Step>, m: State, e: TaskStep, t: State) returns (more: seq<Step>)
    requires e != TaskFail && TaskStepsOnly(steps) && Runs(s, steps, m) && Runs(m, [E(Task(e))], t)
    ensures TaskStepsOnly(more) && Runs(s, more, t)
  {
    more := steps + [E(Task(e))];
    RunsConcat(s, steps, m, [E(Task(e))], t);
  }

  /** The upload alone gets to where a send that is in hand or parked is answered. */
  lemma UploadMakesRoom(s: State) returns (steps: seq<Step>, t: State)
    requires Inv(s) && Started(s.writer)
    ensures TaskStepsOnly(steps) && Runs(s, steps, t) && t.writer == s.writer && CanAnswer(t.shared)
  {
    steps, t := TaskGetsPastTheGate(s);
    if !CanAnswer(t.shared) {
      var full := t;
      t := ReadOneChunk(full);
      steps := TaskStepLast(s, steps, full, Consume, t);
    }
  }

  /** The steps of a poll that finds its parked send answered. */
  function AnsweredPoll(open: bool): seq<Step> {
    if open then [W(Poll), W(Resume), W(ReserveRoom), W(Count), W(Publish)] else [W(Poll), W(Resume), W(ReserveClosed)]
  }

  /** The chunk that was parked is counted and in the channel, or refused; nothing is parked any more. */
  predicate SendIsOver(before: Writer, after: State) {
    && before.pending.Some? && after.writer.pending.None?
    && (if after.writer.refused.Some? then
          after.writer.refused == before.pending && after.writer.counted == before.counted
        else
          && after.writer.counted == before.counted + [before.pending.value]
          && after.shared.queue != [] && after.shared.queue[|after.shared.queue| - 1] == before.pending.value)
  }

  lemma ResumedSend(s: State) returns (t: State)
    requires s.writer.phase == Idle && s.writer.pending.Some?
    ensures Runs(s, [W(Poll), W(Resume)], t) && t.shared == s.shared
    ensures t.writer == s.writer.(phase := Handing(s.writer.pending.value, false), pending := None)
  {
    var m := Apply(s, W(Poll));
    t := Apply(m, W(Resume));
    RunsOne(s, W(Poll));
    RunsOne(m, W(Resume));
    RunsConcat(s, [W(Poll)], m, [W(Resume)], t);
    assert [W(Poll)] + [W(Resume)] == [W(Poll), W(Resume)];
  }

  lemma HandedSendIsPublished(s: State) returns (t: State)
    requires s.writer.phase.Handing? && s.shared.receiverOpen && |s.shared.queue| < UPLOAD_CHANNEL_CAPACITY
    ensures Runs(s, [W(ReserveRoom), W(Count), W(Publish)], t)
    ensures t.writer.counted == s.writer.counted + [s.writer.phase.chunk]
    ensures t.writer.pending == s.writer.pending && t.writer.refused == s.writer.refused
    ensures t.shared.queue == s.shared.queue + [s.writer.phase.chunk]
  {
    var a := Apply(s, W(ReserveRoom));
    var b := Apply(a, W(Count));
    t := Apply(b, W(Publish));
    RunsOne(s, W(ReserveRoom));
    RunsOne(a, W(Count));
    RunsOne(b, W(Publish));
    RunsConcat(a, [W(Count)], b, [W(Publish)], t);
    RunsConcat(s, [W(ReserveRoom)], a, [W(Count)] + [W(Publish)], t);
    assert [W(ReserveRoom)] + ([W(Count)] + [W(Publish)]) == [W(ReserveRoom), W(Count), W(Publish)];
  }

  /** Once `reserve` can answer, the next poll of the writer alone finishes the send. */
  lemma AnsweredSendFinishes(s: State) returns (t: State)
    requires s.writer.phase == Idle && s.writer.pending.Some? && s.writer.refused.None? && CanAnswer(s.shared)
    ensures Runs(s, AnsweredPoll(s.shared.receiverOpen), t) && SendIsOver(s.writer, t)
  {
    var m := ResumedSend(s);
    if s.shared.receiverOpen {
      t := HandedSendIsPublished(m);
      RunsConcat(s, [W(Poll), W(Resume)], m, [W(ReserveRoom), W(Count), W(Publish)], t);
      assert AnsweredPoll(true) == [W(Poll), W(Resume)] + [W(ReserveRoom), W(Count), W(Publish)];
    } else {
      t := Apply(m, W(ReserveClosed));
      RunsOne(m, W(ReserveClosed));
      RunsConcat(s, [W(Poll), W(Resume)], m, [W(ReserveClosed)], t);
      assert AnsweredPoll(false) == [W(Poll), W(Resume)] + [W(ReserveClosed)];
    }
  }

  /**
    No reachable state has a send parked for good: from every one of them steps of the upload alone,
    and then one poll of the writer, lead to where the chunk is in the channel or was refused.
  */
  lemma ParkedSendCanAlwaysFinish(s: State) returns (steps: seq<Step>, t: State, u: State)
    requires Reachable(s) && s.writer.phase == Idle && s.writer.pending.Some?
    ensures TaskStepsOnly(steps) && Runs(s, steps, t)
    ensures Runs(t, AnsweredPoll(t.shared.receiverOpen), u) && SendIsOver(s.writer, u)
  {
    ReachableInv(s);
    steps, t := UploadMakesRoom(s);
    u := AnsweredSendFinishes(t);
  }

  // ----- Nobody gets stuck -----

  /** The steps the writer still has to take before its poll, or its drop, is over. */
  function StepsOfPoll(w: Writer): nat {
    match w.phase
    case Idle => 0
    case Gone => 0
    case Polled => 2
    case Unblocked => 1
    case Cleared => 1
    case Sent => 1
    case Refusing => 1
    case Filled => 2
    case Handing(_, _) => 1
    case Reserved(_, _) => 3
    case Counted(_, _) => 2
    case EndStored => 2
    case EndAnnounced => 1
    case DropStored => 3
    case DropAnnounced => 2
    case DropUnsent => 1
  }

  /** A step that takes the writer closer to the end of its poll, whatever the upload does. */
  lemma NextPollStep(s: State) returns (step: WriterStep)
    requires WriterShape(s.writer) && !s.writer.phase.Idle? && !s.writer.phase.Gone?
    ensures WriterEnabled(s, step) && StepsOfPoll(NextWriter(s, step)) < StepsOfPoll(s.writer)
  {
    match s.writer.phase
    case Polled => step := if s.writer.pending.None? then NothingPending else Resume;
    case Unblocked => step := Return;
    case Cleared => step := Return;
    case Sent => step := Return;
    case Refusing => step := StoreEnded;
    case Filled => step := StartSend;
    case Handing(_, _) => step := ReserveWait;
    case Reserved(_, _) => step := Count;
    case Counted(_, _) => step := Publish;
    case EndStored => step := AnnounceEnd;
    case EndAnnounced => step := DropSender;
    case DropStored => step := DropAnnounce;
    case DropAnnounced => step := DropField;
    case DropUnsent => step := DropPending;
  }

  ghost predicate WriterStepsOnly(steps: seq<Step>) {
    forall i :: 0 <= i < |steps| ==> steps[i].W?
  }

  /** Every poll can end by the writer's own steps: none of them waits for the upload. */
  lemma {:induction false} PollEnds(s: State) returns (steps: seq<Step>, t: State)
    requires Inv(s)
    ensures WriterStepsOnly(steps) && Runs(s, steps, t) && (t.writer.phase.Idle? || t.writer.phase.Gone?)
    decreases StepsOfPoll(s.writer)
  {
    if s.writer.phase.Idle? || s.writer.phase.Gone? {
      steps, t := [], s;
      return;
    }
    var step := NextPollStep(s);
    var m := Apply(s, W(step));
    WriterKeepsInv(s, step);
    RunsOne(s, W(step));
    var rest;
    rest, t := PollEnds(m);
    steps := [W(step)] + rest;
    RunsConcat(s, [W(step)], m, rest, t);
  }

  ghost predicate HandleStepsOnly(steps: seq<Step>) {
    forall i :: 0 <= i < |steps| ==> steps[i].E? && steps[i].env.Handle?
  }

  lemma HandleStepFirst(s: State, h: HandleStep, rest: seq<Step>, t: State) returns (steps: seq<Step>)
    requires HandleEnabled(s.shared, h) && HandleStepsOnly(rest) && Runs(Apply(s, E(Handle(h))), rest, t)
    ensures HandleStepsOnly(steps) && Runs(s, steps, t)
  {
    steps := [E(Handle(h))] + rest;
    RunsOne(s, E(Handle(h)));
    RunsConcat(s, [E(Handle(h))], Apply(s, E(Handle(h))), rest, t);
  }

  lemma SettlingDecides(s: State) returns (steps: seq<Step>, t: State)
    requires s.shared.handle.Settling?
    ensures HandleStepsOnly(steps) && Runs(s, steps, t)
    ensures t.shared.handle.Decided? && t.shared.handle.result == Returned(s.shared.handle.answer)
  {
    t := Apply(s, E(Handle(FinishSettle)));
    assert Runs(t, [], t);
    steps := HandleStepFirst(s, FinishSettle, [], t);
  }

  lemma MeasuringDecides(s: State) returns (steps: seq<Step>, t: State)
    requires s.shared.handle.Measuring?
    ensures HandleStepsOnly(steps) && Runs(s, steps, t)
    ensures t.shared.handle.Decided? && t.shared.handle.result == Returned(s.shared.handle.answer)
  {
    steps, t := SettlingDecides(Apply(s, E(Handle(FinishReadSent))));
    steps := HandleStepFirst(s, FinishReadSent, steps, t);
  }

  lemma AnswerDecides(s: State) returns (steps: seq<Step>, t: State)
    requires s.shared.handle.GotAnswer?
    ensures HandleStepsOnly(steps) && Runs(s, steps, t)
    ensures t.shared.handle.Decided? && t.shared.handle.result == Returned(s.shared.handle.answer)
  {
    var m := Apply(s, E(Handle(FinishReadEnd)));
    if m.shared.handle.Measuring? {
      steps, t := MeasuringDecides(m);
    } else {
      steps, t := SettlingDecides(m);
    }
    steps := HandleStepFirst(s, FinishReadEnd, steps, t);
  }

  /** `finish` on a task that is over decides by its own steps. */
  lemma FinishDecides(s: State) returns (steps: seq<Step>, t: State)
    requires s.shared.gated && s.shared.handle == Held && s.shared.task.Done?
    ensures HandleStepsOnly(steps) && Runs(s, steps, t)
    ensures t.shared.handle.Decided? && t.shared.handle.result == s.shared.task.result
  {
    t := Apply(s, E(Handle(FinishAwait)));
    steps := [];
    if t.shared.handle.GotAnswer? {
      steps, t := AnswerDecides(t);
    } else {
      assert Runs(t, [], t);
    }
    steps := HandleStepFirst(s, FinishAwait, steps, t);
  }

  /** A task that is not over may be lost at any moment, and a request may be answered in any way. */
  lemma AnyEndIsPossible(s: State, result: JoinResult)
    requires !s.shared.task.Leaving? && !s.shared.task.Done?
    requires result.Returned? ==> s.shared.task == Requesting && result.answer != Failed(EndedShort)
    ensures exists steps: seq<Step>, t: State :: Runs(s, steps, t) && t.shared.task == Done(result) && t.writer == s.writer
  {
    if result.Returned? {
      RunsOne(s, E(Task(TaskAnswer(result.answer))));
    } else {
      var m := Apply(s, E(Task(TaskFail)));
      var t := Apply(m, E(Task(TaskLeave)));
      RunsOne(s, E(Task(TaskFail)));
      RunsOne(m, E(Task(TaskLeave)));
      RunsConcat(s, [E(Task(TaskFail))], m, [E(Task(TaskLeave))], t);
    }
  }

  // ----- A storage that answers early -----

  lemma ReachableStep(s: State, step: Step) returns (t: State)
    requires Reachable(s) && Enabled(s, step)
    ensures Reachable(t) && t == Apply(s, step)
  {
    var contentLength: nat, chunkSize: nat, gated: bool, steps: seq<Step> :|
      Runs(Init(contentLength, chunkSize, gated), steps, s);
    t := Apply(s, step);
    RunsOne(s, step);
    RunsConcat(Init(contentLength, chunkSize, gated), steps, s, [step], t);
  }

  /** A one-byte body in the buffer of a writer with chunks of one byte; the task has not run. */
  function FilledOne(b: byte): State {
    State(
      Writer(1, true, [b], None, Filled, [b], [], None, false),
      Shared(1, true, 1, 0, false, false, NoPermit, [], true, 1, false, AtGate, Held, []))
  }

  /** The same body, counted and not yet published. */
  function CountedOne(b: byte): State {
    State(
      Writer(1, true, [], None, Counted([b], true), [b], [[b]], None, false),
      Shared(1, true, 1, 1, false, false, Permit, [], true, 2, false, AtGate, Held, []))
  }

  lemma FilledOneIsReachable(b: byte)
    ensures Reachable(FilledOne(b))
  {
    var s := Init(1, 1, true);
    assert Runs(s, [], s);
    var blank := s.writer;
    s := ReachableStep(s, W(Poll));
    assert s.writer == blank.(phase := Polled);
    s := ReachableStep(s, W(NothingPending));
    assert s.writer == blank.(phase := Unblocked);
    s := ReachableStep(s, W(LoadEnded));
    assert s.writer == blank.(phase := Cleared) && s.shared == Init(1, 1, true).shared;
    s := ReachableStep(s, W(Take([b])));
    assert s.writer.buffer == [b] && s.writer.taken == [b];
    assert s.writer == FilledOne(b).writer && s.shared == FilledOne(b).shared;
  }

  lemma CountedOneIsReachable(b: byte)
    ensures Reachable(CountedOne(b))
  {
    FilledOneIsReachable(b);
    var s := ReachableStep(FilledOne(b), W(StartSend));
    assert s.writer.phase == Handing([b], true) && s.shared.queue == [] && s.shared.receiverOpen;
    s := ReachableStep(s, W(ReserveRoom));
    assert s.writer.phase == Reserved([b], true) && s.writer.counted == [];
    s := ReachableStep(s, W(Count));
    assert s.writer.counted == [[b]];
    assert s.writer == CountedOne(b).writer;
    assert s.shared == CountedOne(b).shared;
  }

  /** A storage that accepts without reading: `finish` reports a success the request never carried. */
  lemma EarlyAnswerIsReportedAsStored(b: byte)
    ensures exists t: State ::
              && Reachable(t) && t.shared.handle == Decided(Returned(Accepted), false, 1, None, Stored)
              && t.shared.consumed == [] && t.shared.queue == []
  {
    CountedOneIsReachable(b);
    var s := ReachableStep(CountedOne(b), E(Task(TaskWait)));
    var sh := CountedOne(b).shared;
    assert s.shared == sh.(bodyStarted := NoPermit, task := Released);
    s := ReachableStep(s, E(Task(TaskReadEnd)));
    s := ReachableStep(s, E(Task(TaskAnswer(Accepted))));
    var answered := sh.(bodyStarted := NoPermit, request := true, task := Done(Returned(Accepted)));
    assert s.shared == answered;
    s := ReachableStep(s, E(Handle(FinishAwait)));
    s := ReachableStep(s, E(Handle(FinishReadEnd)));
    assert s.shared == answered.(handle := Measuring(Accepted, false));
    s := ReachableStep(s, E(Handle(FinishReadSent)));
    s := ReachableStep(s, E(Handle(FinishSettle)));
  }

  /**
    `upload_with_writer` does not look at `body_ended`: a producer that returns while its writer lives
    on elsewhere is blamed for the storage's own failure.
  */
  lemma LivingWriterIsBlamed(code: nat)
    ensures exists t: State ::
              && Reachable(t) && !t.shared.gated && t.writer.sender && !t.shared.bodyEnded
              && t.shared.task == Done(Returned(Failed(Storage(code))))
              && t.shared.handle.Decided? && t.shared.handle.verdict == ProducerFailed(UnexpectedEof)
  {
    var s := Init(1, 1, false);
    assert Runs(s, [], s);
    var failed := Failed(Storage(code));
    s := ReachableStep(s, E(Task(TaskAnswer(failed))));
    s := ReachableStep(s, E(Handle(ProducerDone(ProducedOk))));
    assert s.shared.handle == Measuring(failed, false) && s.shared.sent == 0 && !s.shared.uploadEnded;
    s := ReachableStep(s, E(Handle(FinishReadSent)));
    assert s.shared.handle == Settling(failed, false, 0, Some(UnexpectedEof));
    s := ReachableStep(s, E(Handle(FinishSettle)));
  }
}
