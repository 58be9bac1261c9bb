/** How an upload ends early: a dropped handle stops the writer, and a body that ended short makes no request. */
module UploadEnding {
  import opened Bytes
  import opened UploadProtocol
  import opened UploadInvariant
  import opened UploadTheorems

  // ----- Dropping the handle -----

  /** The handle of a running upload is being dropped, and once it has marked the upload it stays marked. */
  predicate Stopping(sh: Shared) {
    sh.gated && (sh.handle == Dropping || ((sh.handle == Aborting || sh.handle == Dropped) && sh.uploadEnded))
  }

  lemma StepKeepsStopping(s: State, step: Step)
    requires Stopping(s.shared) && Enabled(s, step)
    ensures Stopping(Apply(s, step).shared)
  {
    match step
    case W(w) => WriterTouches(s, w);
    case E(Task(e)) => TaskTouches(s.shared, e);
    case E(Handle(h)) =>
      match h {
        case HandleMark =>
        case HandleAbort =>
        case _ =>
      }
  }

  lemma {:induction false} RunKeepsStopping(s: State, steps: seq<Step>, t: State)
    requires Stopping(s.shared) && Runs(s, steps, t)
    ensures Stopping(t.shared)
    decreases |steps|
  {
    if steps != [] {
      StepKeepsStopping(s, steps[0]);
      RunKeepsStopping(Apply(s, steps[0]), steps[1..], t);
    }
  }

  /** Dropping the handle of an upload that is still going ends it: `upload_ended` is set by the time the handle is gone. */
  lemma DroppingEndsTheUpload(s: State, steps: seq<Step>, t: State)
    requires Reachable(s) && s.shared.gated && s.shared.handle == Held && !s.shared.task.Done?
    requires Runs(Apply(s, E(Handle(HandleDrop))), steps, t) && t.shared.handle == Dropped
    ensures t.shared.uploadEnded
  {
    RunKeepsStopping(Apply(s, E(Handle(HandleDrop))), steps, t);
  }

  /** And from the next poll on the writer takes nothing, starts nothing, and ends no body. */
  lemma DroppingStopsTheWriter(s: State, steps: seq<Step>, t: State, later: seq<Step>, u: State)
    requires Reachable(s) && s.shared.gated && s.shared.handle == Held && !s.shared.task.Done?
    requires Runs(Apply(s, E(Handle(HandleDrop))), steps, t) && t.shared.handle == Dropped
    requires t.writer.phase == Idle && Runs(t, later, u)
    ensures u.writer.taken == t.writer.taken
    ensures || u.writer.counted == t.writer.counted
            || (t.writer.pending.Some? && u.writer.counted == t.writer.counted + [t.writer.pending.value])
    ensures u.writer.phase != Cleared && u.writer.phase != Sent && u.writer.phase != EndStored
  {
    var m := Apply(s, E(Handle(HandleDrop)));
    DroppingEndsTheUpload(s, steps, t);
    RunsOne(s, E(Handle(HandleDrop)));
    RunReaches(s, [E(Handle(HandleDrop))], m);
    RunReaches(m, steps, t);
    NothingStartsAfterUploadEnded(t, later, u);
  }

  /** The handle is gone, and only a refused send can have ended the upload. */
  predicate LeftAlone(s: State) {
    s.shared.handle == Dropped && (s.shared.uploadEnded ==> s.writer.refused.Some?)
  }

  lemma StepLeavesAlone(s: State, step: Step)
    requires FlagOrder(s) && LeftAlone(s) && Enabled(s, step)
    ensures LeftAlone(Apply(s, step))
  {
    match step
    case W(w) =>
      WriterTouches(s, w);
      WriterRemembers(s, w);
      if w != StoreEnded {
        OnlyStoreEndedEnds(s, w);
      }
    case E(Task(e)) => TaskTouches(s.shared, e);
    case E(Handle(h)) =>
  }

  lemma OnlyStoreEndedEnds(s: State, w: WriterStep)
    requires WriterEnabled(s, w) && w != StoreEnded
    ensures NextShared(s, w).uploadEnded == s.shared.uploadEnded
  {
    if Announces(w) {
      AnnouncementTouches(s, w);
    } else {
      match w
      case DropBegin =>
      case DropPending =>
      case _ =>
    }
  }

  lemma {:induction false} RunLeavesAlone(s: State, steps: seq<Step>, t: State)
    requires Inv(s) && LeftAlone(s) && Runs(s, steps, t)
    ensures LeftAlone(t)
    decreases |steps|
  {
    if steps != [] {
      StepInv(s, steps[0]);
      StepLeavesAlone(s, steps[0]);
      RunLeavesAlone(Apply(s, steps[0]), steps[1..], t);
    }
  }

  /**
    Dropping the handle of an upload that is over changes nothing else, and on every run after it the
    upload is only ever marked as ended by a send of the writer that was refused.
  */
  lemma DroppingAFinishedUploadLeavesItAlone(s: State, steps: seq<Step>, t: State)
    requires Reachable(s) && s.shared.gated && s.shared.handle == Held && s.shared.task.Done?
    requires Runs(Apply(s, E(Handle(HandleDrop))), steps, t)
    ensures Apply(s, E(Handle(HandleDrop))) == s.(shared := s.shared.(handle := Dropped))
    ensures t.shared.handle == Dropped && (t.shared.uploadEnded ==> t.writer.refused.Some?)
  {
    ReachableInv(s);
    StepInv(s, E(Handle(HandleDrop)));
    RunLeavesAlone(Apply(s, E(Handle(HandleDrop))), steps, t);
  }

  // ----- A body that ended short before its request -----

  predicate EndedShortUnstarted(sh: Shared) {
    && sh.gated && sh.bodyEnded && sh.sent < sh.contentLength && !sh.request
    && (sh.task.Leaving? || sh.task.Done? ==> sh.task.result.NotFinished? || EndedShortResult(sh.task.result))
  }

  lemma TaskKeepsUnstarted(s: State, e: TaskStep)
    requires Inv(s) && EndedShortUnstarted(s.shared) && TaskEnabled(s.shared, e)
    ensures EndedShortUnstarted(TaskApply(s.shared, e))
  {
    match e
    case TaskWait =>
    case TaskPass =>
    case TaskReadEnd =>
    case TaskReadSent =>
    case Consume =>
    case DropReceiver =>
    case TaskAnswer(answer) =>
    case TaskFail =>
    case TaskLeave =>
  }

  lemma StepKeepsUnstarted(s: State, step: Step)
    requires Inv(s) && EndedShortUnstarted(s.shared) && Enabled(s, step)
    ensures EndedShortUnstarted(Apply(s, step).shared)
  {
    match step
    case W(w) =>
      WriterTouches(s, w);
      WriterNotifies(s, w);
      EndIsFinal(s, w);
    case E(Task(e)) => TaskKeepsUnstarted(s, e);
    case E(Handle(h)) => HandleTouches(s.shared, h);
  }

  lemma {:induction false} RunKeepsUnstarted(s: State, steps: seq<Step>, t: State)
    requires Inv(s) && EndedShortUnstarted(s.shared) && Runs(s, steps, t)
    ensures Inv(t) && EndedShortUnstarted(t.shared)
    decreases |steps|
  {
    if steps != [] {
      StepInv(s, steps[0]);
      StepKeepsUnstarted(s, steps[0]);
      RunKeepsUnstarted(Apply(s, steps[0]), steps[1..], t);
    }
  }

  /**
    A body that ended short before its request: on every run no request is made and nothing is taken;
    a task that returns says so, and `finish` tells the writer.
  */
  lemma ShortBodyMakesNoRequest(s: State, steps: seq<Step>, t: State)
    requires Reachable(s) && s.shared.gated && s.shared.bodyEnded
    requires s.shared.sent < s.shared.contentLength && !s.shared.request
    requires Runs(s, steps, t)
    ensures !t.shared.request && t.shared.task != Requesting && t.shared.consumed == []
    ensures t.shared.task.Done? && t.shared.task.result.Returned? ==>
              t.shared.task.result == Returned(Failed(EndedShort))
    ensures t.shared.handle.Decided? ==>
              t.shared.handle.verdict == if t.shared.task == Done(NotFinished) then TaskLost else ProducerFailed(UnexpectedEof)
  {
    ReachableInv(s);
    RunKeepsUnstarted(s, steps, t);
    RunReaches(s, steps, t);
    if t.shared.handle.Decided? {
      EndedShortNeverSurfaces(t);
    }
  }

  // ----- What a task and a producer came back with -----

  predicate CameBackWith(sh: Shared, result: JoinResult) {
    sh.task == Leaving(result) || sh.task == Done(result)
  }

  /** A task that is over stays over with the result it had, also while nobody has looked yet. */
  lemma {:induction false} ResultIsKept(s: State, result: JoinResult, steps: seq<Step>, t: State)
    requires Inv(s) && CameBackWith(s.shared, result) && Runs(s, steps, t)
    ensures CameBackWith(t.shared, result)
    decreases |steps|
  {
    if steps != [] {
      StepInv(s, steps[0]);
      match steps[0] {
        case W(w) => WriterNotifies(s, w);
        case E(Task(e)) => OverStaysOver(s.shared, e, result);
        case E(Handle(h)) => HandleTouches(s.shared, h);
      }
      ResultIsKept(Apply(s, steps[0]), result, steps[1..], t);
    }
  }

  lemma OverStaysOver(sh: Shared, e: TaskStep, result: JoinResult)
    requires CameBackWith(sh, result) && TaskEnabled(sh, e)
    ensures CameBackWith(TaskApply(sh, e), result)
  {
    match e
    case Consume =>
    case DropReceiver =>
    case TaskLeave =>
    case _ =>
  }

  /** The producer of `upload_with_writer` failed with `code`, and that is what is settled with. */
  predicate SettlesWith(sh: Shared, code: nat) {
    && !sh.gated
    && ((sh.handle.Settling? && sh.handle.failure == Some(Producer(code)))
        || (sh.handle.Decided? && sh.handle.result.Returned? && sh.handle.failure == Some(Producer(code))))
  }

  lemma {:induction false} ProducerErrorIsKept(s: State, code: nat, steps: seq<Step>, t: State)
    requires SettlesWith(s.shared, code) && Runs(s, steps, t)
    ensures SettlesWith(t.shared, code)
    decreases |steps|
  {
    if steps != [] {
      match steps[0] {
        case W(w) => WriterTouches(s, w);
        case E(Task(e)) => TaskTouches(s.shared, e);
        case E(Handle(h)) =>
      }
      ProducerErrorIsKept(Apply(s, steps[0]), code, steps[1..], t);
    }
  }

  /**
    A producer that failed is never a success: its own error is reported, or that of an upload which
    failed and had refused one of the writer's sends.
  */
  lemma ProducerErrorSurfaces(s: State, code: nat, steps: seq<Step>, t: State)
    requires Reachable(s) && HandleEnabled(s.shared, ProducerDone(ProducedErr(code)))
    requires Runs(Apply(s, E(Handle(ProducerDone(ProducedErr(code))))), steps, t) && t.shared.handle.Decided?
    ensures || t.shared.handle.verdict == ProducerFailed(Producer(code))
            || (t.shared.handle.result.Returned? && t.shared.handle.result.answer.Failed? && t.writer.refused.Some?
                && t.shared.handle.verdict == UploadFailed(t.shared.handle.result.answer.error))
  {
    var m := Apply(s, E(Handle(ProducerDone(ProducedErr(code)))));
    ProducerErrorIsKept(m, code, steps, t);
    RunsOne(s, E(Handle(ProducerDone(ProducedErr(code)))));
    RunReaches(s, [E(Handle(ProducerDone(ProducedErr(code))))], m);
    RunReaches(m, steps, t);
    SettlingIsSound(t);
  }
}
