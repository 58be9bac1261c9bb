/**
  `S3UploadWriter` as an object, polled while the upload and its handle run beside it.

  Every access to the shared state is preceded by `Interfere`, which lets the other parties take any
  number of their steps. The object carries the run it has taken part in, from `Init` on; its
  invariant is that this is a run of the protocol, so everything proved about runs holds of it.
*/
module UploadWriter {
  import opened Bytes
  import opened UploadProtocol
  import opened UploadInvariant
  import UploadTheorems

  lemma {:induction false} RunsSnoc(s: State, steps: seq<Step>, m: State, step: Step)
    requires Runs(s, steps, m) && Enabled(m, step)
    ensures Runs(s, steps + [step], Apply(m, step))
  {
    RunsOne(m, step);
    RunsConcat(s, steps, m, [step], Apply(m, step));
  }

  /** What the upload and the handle never do to the writer's side, and never undo. */
  ghost predicate EnvRespects(before: Shared, after: Shared) {
    && after.contentLength == before.contentLength && after.gated == before.gated
    && after.accepted == before.accepted && after.sent == before.sent
    && after.bodyEnded == before.bodyEnded && after.senders == before.senders
    && (before.uploadEnded ==> after.uploadEnded)
  }

  lemma EnvStepRespects(sh: Shared, e: EnvStep)
    requires EnvEnabled(sh, e)
    ensures EnvRespects(sh, EnvApply(sh, e))
  {
    match e
    case Task(t) => TaskTouches(sh, t);
    case Handle(h) => HandleTouches(sh, h);
  }

  /** The shared half: the `Arc`ed atomics, the channel, and where the other parties are. */
  class Upload {
    const contentLength: nat
    const gated: bool
    var accepted: nat
    var sent: nat
    var uploadEnded: bool
    var bodyEnded: bool
    var bodyStarted: Notify
    var queue: seq<Bytes>
    var receiverOpen: bool
    var senders: int
    var request: bool
    var task: TaskPhase
    var handle: HandlePhase
    var consumed: seq<Bytes>

    function View(): Shared
      reads this
    {
      Shared(contentLength, gated, accepted, sent, uploadEnded, bodyEnded, bodyStarted, queue, receiverOpen,
             senders, request, task, handle, consumed)
    }

    constructor (contentLength: nat, gated: bool)
      ensures View() == Init(contentLength, 1, gated).shared
      ensures this.contentLength == contentLength && this.gated == gated
    {
      this.contentLength, this.gated := contentLength, gated;
      accepted, sent, uploadEnded, bodyEnded, bodyStarted := 0, 0, false, false, NoPermit;
      queue, receiverOpen, senders, request := [], true, 1, !gated;
      task, handle, consumed := if gated then AtGate else Requesting, Held, [];
    }

    /** One step of the upload or of its handle. */
    method EnvStep(e: EnvStep)
      requires EnvEnabled(View(), e)
      modifies this
      ensures View() == EnvApply(old(View()), e)
    {
      EnvStepRespects(View(), e);
      var t := EnvApply(View(), e);
      uploadEnded, bodyStarted, queue, receiverOpen := t.uploadEnded, t.bodyStarted, t.queue, t.receiverOpen;
      request, task, handle, consumed := t.request, t.task, t.handle, t.consumed;
    }

    /** `notify_one` on `body_started`. */
    method NotifyBodyStarted()
      modifies this`bodyStarted, this`task
      ensures View() == NotifyOne(old(View()))
    {
      if bodyStarted == Waiter {
        bodyStarted, task := NoPermit, Woken;
      } else {
        bodyStarted := Permit;
      }
    }

    /** `notify_one`, and a clone of the sender for the send. */
    method AnnounceSend()
      modifies this`bodyStarted, this`task, this`senders
      ensures View() == NotifyOne(old(View())).(senders := old(senders) + 1)
    {
      NotifyBodyStarted();
      senders := senders + 1;
    }

    /** A clone of the sender, or the writer's own, goes. */
    method DropSender()
      modifies this`senders
      ensures View() == old(View()).(senders := old(senders) - 1)
    {
      senders := senders - 1;
    }

    /** What a parked send holds goes with it. */
    method DropParked(parked: bool)
      modifies this`senders
      ensures View() == old(View()).(senders := if parked then old(senders) - 1 else old(senders))
    {
      if parked {
        DropSender();
      }
    }
  }

  lemma StartSendIs(s: State)
    requires WriterEnabled(s, StartSend)
    ensures NextWriter(s, StartSend) == s.writer.(buffer := [], phase := Handing(s.writer.buffer, true))
    ensures NextShared(s, StartSend) == NotifyOne(s.shared).(senders := s.shared.senders + 1)
  {
  }

  lemma DropPendingIs(s: State)
    requires WriterEnabled(s, DropPending)
    ensures NextWriter(s, DropPending) == s.writer.(phase := Gone)
    ensures NextShared(s, DropPending) ==
            s.shared.(senders := if s.writer.pending.Some? then s.shared.senders - 1 else s.shared.senders)
  {
  }

  /** As much as each of the three allows, and no less than one of them. */
  function Fits(offered: int, room: int, owed: int): (k: int)
    ensures k <= offered && k <= room && k <= owed && (k == offered || k == room || k == owed)
  {
    var least := if offered <= room then offered else room;
    if least <= owed then least else owed
  }

  /** As many bytes of `buf` as fit were taken, and the chunk they filled was refused. */
  ghost predicate LostWith(buffer: Bytes, taken: Bytes, after: Writer, buf: Bytes, contentLength: nat) {
    var k := Fits(|buf|, after.chunkSize - |buffer|, contentLength - |taken|);
    && 0 < k <= |buf| && after.taken == taken + buf[..k]
    && |buffer| + k == after.chunkSize && after.refused == Some(buffer + buf[..k])
  }

  datatype IoError = UploadIsGone | AlreadyShutDown | PastContentLength

  datatype Reservation = Wait | Room | Closed

  datatype PollResult<+T> = Pending | Ready(value: T) | Error(kind: IoError)

  class S3UploadWriter {
    const up: Upload
    const chunkSize: nat
    var sender: bool
    var buffer: Bytes
    var pending: Option<Bytes>

    ghost var phase: Phase
    ghost var taken: Bytes
    ghost var counted: seq<Bytes>
    ghost var refused: Option<Bytes>
    ghost var resumed: bool
    ghost var trace: seq<Step>

    /** The writer's half of the state. */
    ghost function Me(): Writer
      reads this
    {
      Writer(chunkSize, sender, buffer, pending, phase, taken, counted, refused, resumed)
    }

    ghost function Snap(): State
      reads this, up
    {
      State(Me(), up.View())
    }

    /** The run so far is a run of the protocol. */
    ghost predicate OnRun()
      reads this, up
    {
      chunkSize >= 1 && Runs(Init(up.contentLength, chunkSize, up.gated), trace, Snap())
    }

    /** Between polls. */
    ghost predicate Valid()
      reads this, up
    {
      OnRun() && phase == Idle
    }

    lemma RunIsInv()
      requires OnRun()
      ensures Reachable(Snap()) && Inv(Snap())
    {
      UploadTheorems.ReachableInv(Snap());
    }

    constructor (contentLength: nat, chunkSize: nat, gated: bool)
      ensures Valid() && fresh(up)
      ensures this.chunkSize == Max(chunkSize, 1) && up.contentLength == contentLength && up.gated == gated
      ensures Snap() == Init(contentLength, chunkSize, gated)
    {
      this.up := new Upload(contentLength, gated);
      this.chunkSize := Max(chunkSize, 1);
      sender, buffer, pending := true, [], None;
      phase, taken, counted, refused, resumed, trace := Idle, [], [], None, false, [];
    }

    /** Records that the fields now are what `step` makes of `s`. */
    ghost method Advance(s: State, step: WriterStep)
      requires chunkSize >= 1 && Runs(Init(up.contentLength, chunkSize, up.gated), trace, s) && WriterEnabled(s, step)
      requires
        var t := WriterApply(s, step);
        && t.shared == up.View() && t.writer.chunkSize == chunkSize
        && t.writer.sender == sender && t.writer.buffer == buffer && t.writer.pending == pending
      modifies `phase, `taken, `counted, `refused, `resumed, `trace
      ensures Snap() == WriterApply(s, step) && OnRun()
      ensures trace == old(trace) + [W(step)]
    {
      RunsSnoc(Init(up.contentLength, chunkSize, up.gated), trace, s, W(step));
      var t := WriterApply(s, step).writer;
      phase, taken, counted, refused, resumed := t.phase, t.taken, t.counted, t.refused, t.resumed;
      trace := trace + [W(step)];
    }

    /** The upload and its handle take any number of their steps. */
    method Interfere()
      requires OnRun()
      modifies up, `trace
      ensures OnRun() && old(trace) <= trace
      ensures Snap().writer == old(Snap()).writer && EnvRespects(old(up.View()), up.View())
    {
      var steps: seq<EnvStep> := *;
      for i := 0 to |steps|
        invariant OnRun() && old(trace) <= trace
        invariant Snap().writer == old(Snap()).writer && EnvRespects(old(up.View()), up.View())
      {
        if EnvEnabled(up.View(), steps[i]) {
          ghost var s := Snap();
          EnvStepRespects(up.View(), steps[i]);
          up.EnvStep(steps[i]);
          RunsSnoc(Init(up.contentLength, chunkSize, up.gated), trace, s, E(steps[i]));
          trace := trace + [E(steps[i])];
        }
      }
    }

    // ----- One method per atomic point -----

    method BeginPoll()
      requires OnRun() && phase == Idle
      modifies this
      ensures OnRun() && old(trace) <= trace && Me() == old(Me()).(phase := Polled)
    {
      Advance(Snap(), Poll);
    }

    method EndPoll()
      requires OnRun() && (phase == Unblocked || phase == Cleared || phase == Sent)
      modifies this
      ensures OnRun() && old(trace) <= trace && Me() == old(Me()).(phase := Idle)
    {
      Advance(Snap(), Return);
    }

    /** `self.pending.take()`. */
    method TakePending() returns (send: Option<Bytes>)
      requires OnRun() && phase == Polled
      modifies this
      ensures OnRun() && old(trace) <= trace && send == old(pending)
      ensures Me() == old(Me()).(phase := if send.None? then Unblocked else Handing(send.value, false), pending := None)
    {
      ghost var s := Snap();
      send := pending;
      pending := None;
      Advance(s, if send.None? then NothingPending else Resume);
    }

    /** `sender.reserve()`, polled once. It may make the send wait even when there is room. */
    method Reserve() returns (r: Reservation)
      requires OnRun() && phase.Handing?
      modifies this, up
      ensures OnRun() && old(trace) <= trace
      ensures up.bodyEnded == old(up.bodyEnded) && (old(up.uploadEnded) ==> up.uploadEnded)
      ensures match r
              case Wait => Me() == old(Me()).(phase := Handing(old(phase.chunk), old(phase.newSend)))
              case Room => Me() == old(Me()).(phase := Reserved(old(phase.chunk), old(phase.newSend)))
              case Closed => Me() == old(Me()).(phase := Refusing, refused := Some(old(phase.chunk)))
    {
      Interfere();
      ghost var s := Snap();
      var spurious: bool := *;
      if spurious || (up.receiverOpen && |up.queue| >= UPLOAD_CHANNEL_CAPACITY) {
        r := Wait;
      } else if up.receiverOpen {
        Advance(s, ReserveRoom);
        r := Room;
      } else {
        FindClosed();
        r := Closed;
      }
    }

    /** `reserve` found the receiver gone: the send is over, and so is its clone of the sender. */
    method FindClosed()
      requires OnRun() && phase.Handing? && !up.receiverOpen
      modifies this, up`senders
      ensures OnRun() && trace == old(trace) + [W(ReserveClosed)]
      ensures Me() == old(Me()).(phase := Refusing, refused := Some(old(phase.chunk)))
    {
      ghost var s := Snap();
      up.DropSender();
      Advance(s, ReserveClosed);
    }

    /** `self.pending = Some(pending)`: the send is kept for the next poll. */
    method Park(chunk: Bytes)
      requires OnRun() && phase.Handing? && chunk == phase.chunk
      modifies this
      ensures OnRun() && old(trace) <= trace && Me() == old(Me()).(phase := Idle, pending := Some(chunk))
    {
      ghost var s := Snap();
      pending := Some(chunk);
      Advance(s, ReserveWait);
    }

    /** `state.sent.fetch_add(length)`. */
    method CountChunk(chunk: Bytes)
      requires OnRun() && phase.Reserved? && chunk == phase.chunk
      modifies this, up
      ensures OnRun() && old(trace) <= trace
      ensures up.bodyEnded == old(up.bodyEnded) && (old(up.uploadEnded) ==> up.uploadEnded)
      ensures Me() == old(Me()).(phase := Counted(chunk, old(phase.newSend)), counted := old(counted) + [chunk])
    {
      Interfere();
      ghost var s := Snap();
      up.sent := up.sent + |chunk|;
      Advance(s, Count);
    }

    /** `permit.send(chunk)`; the send is over and its clone of the sender is dropped. */
    method PublishChunk(chunk: Bytes)
      requires OnRun() && phase.Counted? && chunk == phase.chunk
      modifies this, up
      ensures OnRun() && old(trace) <= trace
      ensures up.bodyEnded == old(up.bodyEnded) && (old(up.uploadEnded) ==> up.uploadEnded)
      ensures Me() == old(Me()).(phase := if old(phase.newSend) then Sent else Unblocked)
    {
      Interfere();
      ghost var s := Snap();
      up.queue, up.senders := up.queue + [chunk], up.senders - 1;
      Advance(s, Publish);
    }

    /** `upload_is_gone`: recorded before it is reported. */
    method StoreUploadEnded()
      requires OnRun() && phase == Refusing
      modifies this, up
      ensures OnRun() && old(trace) <= trace && up.uploadEnded && up.bodyEnded == old(up.bodyEnded)
      ensures Me() == old(Me()).(phase := Idle)
    {
      Interfere();
      ghost var s := Snap();
      up.uploadEnded := true;
      Advance(s, StoreEnded);
    }

    /** `state.upload_ended()`. */
    method LoadUploadEnded() returns (ended: bool)
      requires OnRun() && phase == Unblocked
      modifies this, up
      ensures OnRun() && old(trace) <= trace && up.bodyEnded == old(up.bodyEnded)
      ensures (old(up.uploadEnded) ==> ended) && (ended ==> up.uploadEnded)
      ensures Me() == old(Me()).(phase := if ended then Refusing else Cleared)
    {
      Interfere();
      ghost var s := Snap();
      ended := up.uploadEnded;
      Advance(s, LoadEnded);
    }

    /** `buffer.extend_from_slice` and `accepted.fetch_add`. */
    method TakeBytes(bytes: Bytes)
      requires OnRun() && phase == Cleared && sender && bytes != []
      requires |buffer| + |bytes| <= chunkSize && up.accepted + |bytes| <= up.contentLength
      modifies this, up
      ensures OnRun() && old(trace) <= trace && up.bodyEnded == old(up.bodyEnded)
      ensures sender && pending == old(pending) && buffer == old(buffer) + bytes && taken == old(taken) + bytes
      ensures phase == if |buffer| < chunkSize then Cleared else Filled
    {
      ghost var s := Snap();
      buffer := buffer + bytes;
      up.accepted := up.accepted + |bytes|;
      Advance(s, Take(bytes));
    }

    /** The head of `start_send`: the chunk leaves the buffer and the body is announced as started. */
    method BeginSend() returns (chunk: Bytes)
      requires OnRun() && sender && buffer != [] && (phase == Filled || phase == Cleared)
      modifies this, up
      ensures OnRun() && old(trace) <= trace && up.bodyEnded == old(up.bodyEnded)
      ensures chunk == old(buffer) && Me() == old(Me()).(buffer := [], phase := Handing(chunk, true))
    {
      Interfere();
      chunk := HandBuffer();
    }

    method HandBuffer() returns (chunk: Bytes)
      requires OnRun() && sender && buffer != [] && (phase == Filled || phase == Cleared)
      modifies this, up`bodyStarted, up`task, up`senders
      ensures OnRun() && trace == old(trace) + [W(StartSend)]
      ensures chunk == old(buffer) && Me() == old(Me()).(buffer := [], phase := Handing(chunk, true))
    {
      ghost var s := Snap();
      chunk := buffer;
      buffer := [];
      up.AnnounceSend();
      StartSendIs(s);
      Advance(s, StartSend);
    }

    /** `mark_body_ended`, first half: the end is recorded. */
    method RecordEnd()
      requires OnRun() && sender && (phase == Idle || phase == Sent || (phase == Cleared && buffer == []))
      modifies this, up
      ensures OnRun() && old(trace) <= trace && up.bodyEnded
      ensures Me() == old(Me()).(phase := if old(phase) == Idle then DropStored else EndStored)
    {
      Interfere();
      ghost var s := Snap();
      up.bodyEnded := true;
      Advance(s, if phase == Idle then DropBegin else EndBody);
    }

    /** `mark_body_ended`, second half: the end is announced. */
    method AnnounceEnd()
      requires OnRun() && (phase == EndStored || phase == DropStored)
      modifies this, up
      ensures OnRun() && old(trace) <= trace && up.bodyEnded == old(up.bodyEnded)
      ensures Me() == old(Me()).(phase := if old(phase) == EndStored then EndAnnounced else DropAnnounced)
    {
      Interfere();
      ghost var s := Snap();
      up.NotifyBodyStarted();
      Advance(s, if phase == EndStored then UploadProtocol.AnnounceEnd else DropAnnounce);
    }

    /** The `Sender` goes. */
    method LetGoOfSender()
      requires OnRun() && (phase == EndAnnounced || phase == DropAnnounced)
      modifies this, up
      ensures OnRun() && old(trace) <= trace && up.bodyEnded == old(up.bodyEnded)
      ensures Me() == old(Me()).(sender := false, phase := if old(phase) == EndAnnounced then Idle else DropUnsent)
    {
      Interfere();
      ghost var s := Snap();
      sender := false;
      up.DropSender();
      Advance(s, if phase == EndAnnounced then DropSender else DropField);
    }

    /** The last field goes: a parked send dies without having delivered its chunk. */
    method LetGoOfPending()
      requires OnRun() && phase == DropUnsent
      modifies this, up
      ensures OnRun() && old(trace) <= trace && up.bodyEnded == old(up.bodyEnded)
      ensures Me() == old(Me()).(phase := Gone)
    {
      Interfere();
      ghost var s := Snap();
      up.DropParked(pending.Some?);
      DropPendingIs(s);
      Advance(s, DropPending);
    }

    // ----- The polls -----

    /** Polls the send of `chunk`, in the one order that keeps `sent` ahead of what the upload can take. */
    method PollSend(chunk: Bytes) returns (r: PollResult<()>)
      requires OnRun() && phase.Handing? && chunk == phase.chunk
      modifies this, up
      ensures OnRun() && old(trace) <= trace
      ensures up.bodyEnded == old(up.bodyEnded) && (old(up.uploadEnded) ==> up.uploadEnded)
      ensures match r
              case Pending => Me() == old(Me()).(phase := Idle, pending := Some(chunk))
              case Ready(_) =>
                Me() == old(Me()).(phase := if old(phase.newSend) then Sent else Unblocked, counted := old(counted) + [chunk])
              case Error(kind) =>
                kind == UploadIsGone && up.uploadEnded && Me() == old(Me()).(phase := Idle, refused := Some(chunk))
    {
      var permit := Reserve();
      match permit
      case Wait =>
        Park(chunk);
        r := Pending;
      case Room =>
        CountChunk(chunk);
        PublishChunk(chunk);
        r := Ready(());
      case Closed =>
        StoreUploadEnded();
        r := Error(UploadIsGone);
    }

    /** What a poll leaves alone while it drives or starts a send. */
    twostate predicate KeepsBody()
      reads this, up
    {
      && OnRun() && old(trace) <= trace
      && sender == old(sender) && taken == old(taken) && up.bodyEnded == old(up.bodyEnded)
      && (old(up.uploadEnded) ==> up.uploadEnded)
    }

    /** Polls the send that an earlier poll parked, if there is one. */
    method PollPending() returns (r: PollResult<()>)
      requires OnRun() && phase == Polled
      modifies this, up
      ensures KeepsBody() && buffer == old(buffer)
      ensures r.Ready? ==> phase == Unblocked && pending.None?
      ensures !r.Ready? ==> phase == Idle && old(pending).Some?
      ensures r.Pending? ==> pending == old(pending)
      ensures r.Error? ==> r.kind == UploadIsGone && up.uploadEnded
    {
      var send := TakePending();
      if send.None? {
        return Ready(());
      }
      r := PollSend(send.value);
    }

    /** Hands the buffered chunk to the channel, parking the send if it has to wait. */
    method SendBuffer() returns (r: PollResult<()>)
      requires OnRun() && sender && buffer != [] && (phase == Filled || phase == Cleared)
      modifies this, up
      ensures OnRun() && old(trace) <= trace && sender && taken == old(taken) && up.bodyEnded == old(up.bodyEnded)
      ensures r.Pending? ==> phase == Idle && pending == Some(old(buffer))
      ensures r.Ready? ==> phase == Sent && pending == old(pending) && counted == old(counted) + [old(buffer)]
      ensures !r.Ready? ==> counted == old(counted)
      ensures r.Error? ==> phase == Idle && r.kind == UploadIsGone && up.uploadEnded && refused == Some(old(buffer))
    {
      var chunk := BeginSend();
      r := PollSend(chunk);
    }

    /** The check that follows `poll_pending`: refuses once the upload is known to have ended. */
    method RefuseIfEnded() returns (ended: bool)
      requires OnRun() && phase == Unblocked
      modifies this, up
      ensures KeepsBody() && buffer == old(buffer) && pending == old(pending)
      ensures if ended then phase == Idle && up.uploadEnded else phase == Cleared
      ensures old(up.uploadEnded) ==> ended
    {
      ended := LoadUploadEnded();
      if ended {
        StoreUploadEnded();
      }
    }

    /** The tail of `poll_write`: a send that has to wait is parked, and the bytes are taken either way. */
    method SendIfFull() returns (r: PollResult<()>)
      requires OnRun() && sender && (if |buffer| < chunkSize then phase == Cleared else phase == Filled)
      modifies this, up
      ensures Valid() && old(trace) <= trace && sender && taken == old(taken)
      ensures r.Error? ==>
                r.kind == UploadIsGone && up.uploadEnded && refused == Some(old(buffer)) && |old(buffer)| >= chunkSize
    {
      if |buffer| < chunkSize {
        EndPoll();
        return Ready(());
      }
      r := SendBuffer();
      if r.Ready? {
        EndPoll();
      }
    }

    lemma RoomIsLeft()
      requires OnRun() && phase == Cleared
      ensures |buffer| < chunkSize && up.accepted == |taken| <= up.contentLength
    {
      RunIsInv();
    }

    /** The rest of `poll_write`: takes bytes, and sends a chunk that is full. */
    method Fill(buf: Bytes) returns (r: PollResult<nat>)
      requires OnRun() && phase == Cleared && sender && buf != []
      modifies this, up
      ensures Valid() && old(trace) <= trace && sender && !r.Pending?
      ensures r.Ready? ==> 0 < r.value <= |buf| && taken == old(taken) + buf[..r.value]
      ensures r.Ready? ==> r.value == Fits(|buf|, chunkSize - |old(buffer)|, up.contentLength - |old(taken)|)
      ensures r.Error? && r.kind == PastContentLength ==> taken == old(taken) && |taken| == up.contentLength
      ensures r.Error? && r.kind != PastContentLength ==>
                r.kind == UploadIsGone && up.uploadEnded && LostWith(old(buffer), old(taken), Me(), buf, up.contentLength)
    {
      RoomIsLeft();
      var owed := up.contentLength - up.accepted;
      if owed == 0 {
        EndPoll();
        return Error(PastContentLength);
      }
      var take := Fits(|buf|, chunkSize - |buffer|, owed);
      TakeBytes(buf[..take]);
      var p := SendIfFull();
      return if p.Error? then Error(p.kind) else Ready(take);
    }

    lemma NothingParkedAfterShutDown()
      requires Valid()
      ensures !sender ==> pending.None?
    {
      RunIsInv();
    }

    /** `poll_write` once no send is outstanding. */
    method WriteUnblocked(buf: Bytes) returns (r: PollResult<nat>)
      requires OnRun() && phase == Unblocked && buf != []
      modifies this, up
      ensures Valid() && old(trace) <= trace && sender == old(sender) && !r.Pending?
      ensures r.Ready? ==> 0 < r.value <= |buf| && taken == old(taken) + buf[..r.value]
      ensures r.Ready? ==> r.value == Fits(|buf|, chunkSize - |old(buffer)|, up.contentLength - |old(taken)|)
      ensures r.Error? && r.kind == UploadIsGone ==>
                up.uploadEnded && (taken == old(taken) || LostWith(old(buffer), old(taken), Me(), buf, up.contentLength))
      ensures r == Error(AlreadyShutDown) <==> !old(sender)
      ensures r.Error? && r.kind == AlreadyShutDown ==> taken == old(taken)
      ensures r.Error? && r.kind == PastContentLength ==> sender && taken == old(taken) && |taken| == up.contentLength
      ensures old(up.uploadEnded) ==> taken == old(taken) && !r.Ready?
      ensures old(up.uploadEnded && sender) ==> r == Error(UploadIsGone)
    {
      if !sender {
        EndPoll();
        return Error(AlreadyShutDown);
      }
      var ended := RefuseIfEnded();
      if ended {
        return Error(UploadIsGone);
      }
      r := Fill(buf);
    }

    /** Takes what the current chunk and the declared length leave room for; a full chunk is handed on. */
    method PollWrite(buf: Bytes) returns (r: PollResult<nat>)
      requires Valid()
      modifies this, up
      ensures Valid() && old(trace) <= trace && sender == old(sender)
      ensures r.Pending? ==> taken == old(taken) && pending.Some? && pending == old(pending)
      ensures r.Ready? ==> r.value <= |buf| && taken == old(taken) + buf[..r.value] && (buf != [] ==> r.value > 0)
      ensures r.Ready? && buf != [] ==>
                r.value == Fits(|buf|, chunkSize - |old(buffer)|, up.contentLength - |old(taken)|)
      ensures r.Error? && r.kind == UploadIsGone ==>
                up.uploadEnded && (taken == old(taken) || LostWith(old(buffer), old(taken), Me(), buf, up.contentLength))
      ensures r.Ready? && buf == [] ==> pending.None?
      ensures r.Error? && r.kind == AlreadyShutDown ==> !sender && taken == old(taken)
      ensures !old(sender) && buf != [] ==> r == Error(AlreadyShutDown)
      ensures r.Error? && r.kind == PastContentLength ==>
                sender && buf != [] && taken == old(taken) && |taken| == up.contentLength
      ensures old(up.uploadEnded) ==> taken == old(taken) && (buf != [] ==> !r.Ready?)
      ensures old(up.uploadEnded && sender) && buf != [] ==> r.Pending? || r == Error(UploadIsGone)
    {
      NothingParkedAfterShutDown();
      BeginPoll();
      var p := PollPending();
      if !p.Ready? {
        return if p.Pending? then Pending else Error(p.kind);
      }
      if buf == [] {
        EndPoll();
        return Ready(0);
      }
      r := WriteUnblocked(buf);
    }

    lemma BufferedHasSender()
      requires OnRun() && phase == Cleared && buffer != []
      ensures sender
    {
      RunIsInv();
    }

    /** The body of `poll_flush`. `Ready` leaves the poll open, so that `poll_shutdown` can go on. */
    method FlushInPoll() returns (r: PollResult<()>)
      requires Valid()
      modifies this, up
      ensures OnRun() && old(trace) <= trace
      ensures sender == old(sender) && taken == old(taken) && up.bodyEnded == old(up.bodyEnded)
      ensures r.Ready? ==> phase == Sent || (phase == Cleared && buffer == [])
      ensures !r.Ready? ==> phase == Idle
      ensures r.Pending? ==> pending.Some?
      ensures r.Error? ==> r.kind == UploadIsGone && up.uploadEnded
      ensures old(up.uploadEnded) ==> !r.Ready?
    {
      BeginPoll();
      r := PollPending();
      if !r.Ready? {
        return;
      }
      var ended := RefuseIfEnded();
      if ended {
        return Error(UploadIsGone);
      }
      if buffer != [] {
        BufferedHasSender();
        r := SendBuffer();
      }
    }

    lemma FlushedIsCounted()
      requires OnRun() && (phase == Sent || (phase == Cleared && buffer == []))
      ensures Flat(counted) == taken && pending.None? && refused.None? && buffer == []
    {
      RunIsInv();
      assert Remainder(Me()) == [];
    }

    /** Sends the partly filled chunk. `Ready` means every byte taken so far has been counted. */
    method PollFlush() returns (r: PollResult<()>)
      requires Valid()
      modifies this, up
      ensures Valid() && old(trace) <= trace
      ensures sender == old(sender) && taken == old(taken) && up.bodyEnded == old(up.bodyEnded)
      ensures r.Ready? ==> Flat(counted) == taken && pending.None? && buffer == []
      ensures r.Pending? ==> pending.Some?
      ensures r.Error? ==> r.kind == UploadIsGone && up.uploadEnded
      ensures old(up.uploadEnded) ==> !r.Ready?
    {
      r := FlushInPoll();
      if r.Ready? {
        FlushedIsCounted();
        EndPoll();
      }
    }

    /** A body ended by `shutdown` was counted whole, and no sender is left. */
    lemma ShutDownIsWhole()
      requires Valid() && !sender
      ensures up.bodyEnded && up.senders == 0 && Flat(counted) == taken && up.sent == up.accepted
    {
      RunIsInv();
      assert Remainder(Me()) == [];
    }

    /** Flushes, records the end of the body, announces it, and only then drops the sender. */
    method PollShutdown() returns (r: PollResult<()>)
      requires Valid()
      modifies this, up
      ensures Valid() && old(trace) <= trace && taken == old(taken)
      ensures r.Ready? ==> !sender && up.bodyEnded && up.senders == 0
      ensures r.Ready? ==> Flat(counted) == taken && up.sent == up.accepted
      ensures !r.Ready? ==> sender && up.bodyEnded == old(up.bodyEnded)
      ensures r.Pending? ==> pending.Some?
      ensures r.Error? ==> r.kind == UploadIsGone && up.uploadEnded
      ensures old(sender && up.uploadEnded) ==> !r.Ready?
      ensures !old(sender) ==> r.Ready? && Snap() == old(Snap())
    {
      if sender {
        r := FlushInPoll();
        if !r.Ready? {
          return;
        }
        RecordEnd();
        AnnounceEnd();
        LetGoOfSender();
      }
      ShutDownIsWhole();
      r := Ready(());
    }

    lemma GoneIsClosed()
      requires OnRun() && phase == Gone
      ensures !sender && up.bodyEnded && up.senders == 0
    {
      RunIsInv();
    }

    /** A dropped writer records the end of the body; what is buffered or parked is given up. */
    method Drop()
      requires Valid()
      modifies this, up
      ensures OnRun() && phase == Gone && old(trace) <= trace
      ensures !sender && up.bodyEnded && up.senders == 0
      ensures taken == old(taken) && counted == old(counted)
    {
      if sender {
        RecordEnd();
        AnnounceEnd();
        LetGoOfSender();
        LetGoOfPending();
      } else {
        ShutDownIsWhole();
        Advance(Snap(), DropBegin);
      }
      GoneIsClosed();
    }
  }
}
