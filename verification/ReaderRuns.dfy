/** `S3Reader` refines a seekable file over an unchanged object, over every run of polls. */
module ReaderRuns {
  import opened Bytes
  import opened DownloadStream
  import opened Reader

  datatype Op = DoRead(remaining: nat, outcome: Outcome) | DoStartSeek(from: SeekFrom) | DoComplete

  datatype Reply = ReadReply(result: ReadResult) | SeekReply(answer: Result<(), SeekError>) | At(position: nat)

  function Step(r: State, op: Op): (State, Reply) {
    match op
    case DoRead(remaining, outcome) =>
      var (t, result) := Read(r, remaining, outcome);
      (t, ReadReply(result))
    case DoStartSeek(from) =>
      var (t, answer) := SeekStarted(r, from);
      (t, SeekReply(answer))
    case DoComplete => (SeekCompleted(r), At(SeekCompleted(r).position))
  }

  // ----- The file -----

  /** A file handle: a position, and a seek that has been started but not completed. */
  datatype File = File(pos: nat, seekTo: Option<nat>)

  ghost predicate IsSlice(obj: Bytes, pos: nat, bytes: Bytes) {
    bytes == [] || (pos + |bytes| <= |obj| && bytes == obj[pos..pos + |bytes|])
  }

  /** What a file holding `obj` may do; a read or a seek that fails leaves the handle where it was. */
  ghost predicate FileAllows(obj: Bytes, f: File, op: Op, reply: Reply, g: File) {
    match op
    case DoRead(remaining, _) =>
      && reply.ReadReply?
      && (if reply.result.Data? then
            var bytes := reply.result.bytes;
            && IsSlice(obj, f.pos, bytes) && |bytes| <= remaining
            && g == f.(pos := f.pos + |bytes|)
            && (remaining > 0 ==> (bytes == [] <==> f.pos >= |obj|))
          else g == f)
    case DoStartSeek(from) =>
      && reply.SeekReply?
      && (if reply.answer.Ok? then
            && f.seekTo.None?
            && g == f.(seekTo := Some(match from
                                      case Start(offset) => offset
                                      case Current(delta) => if f.pos + delta < 0 then 0 else f.pos + delta
                                      case End(delta) => if |obj| + delta < 0 then 0 else |obj| + delta))
            && (from.Current? ==> 0 <= f.pos + from.delta <= U64_MAX)
            && (from.End? ==> 0 <= |obj| + from.delta <= U64_MAX)
          else g == f)
    case DoComplete =>
      && g == File(if f.seekTo.Some? then f.seekTo.value else f.pos, None)
      && reply == At(g.pos)
  }

  function AsFile(r: State): File {
    File(r.position, r.seekTo)
  }

  // ----- The invariant -----

  /** The request in flight is for bytes that read like those at the position. */
  ghost predicate InFlightReadsRight(obj: Bytes, r: State) {
    r.pending.Some? ==>
      var p := r.pending.value;
      && r.leftover == [] && 1 <= p.requested && p.start + p.requested <= |obj|
      && IsSlice(obj, r.position, obj[p.start..p.start + p.requested])
  }

  ghost predicate Coherent(obj: Bytes, r: State) {
    && r.size == |obj|
    && InFlightReadsRight(obj, r)
    && IsSlice(obj, r.position, r.leftover)
    && IsSlice(obj, r.base, r.out) && r.position == r.base + |r.out|
    && r.fetched == r.delivered + |r.leftover| + r.discarded
  }

  /** The object did not change: what the server sends for a range are the bytes at its start. */
  ghost predicate HonestBody(obj: Bytes, start: nat, outcome: Outcome) {
    outcome.Answered? ==>
      forall k :: 0 <= k < |Flat(outcome.transport.chunks)| && start + k < |obj| ==>
        Flat(outcome.transport.chunks)[k] == obj[start + k]
  }

  ghost predicate Honest(obj: Bytes, r: State, op: Op) {
    op.DoRead? ==> HonestBody(obj, if r.pending.Some? then r.pending.value.start else r.position, op.outcome)
  }

  /** A seek is not applied over a request in flight for another place. */
  predicate SeekIsSafe(r: State, op: Op) {
    op.DoComplete? && r.seekTo.Some? && r.pending.Some? ==> r.seekTo.value == r.pending.value.start
  }

  lemma DrainKeepsCoherent(obj: Bytes, r: State, remaining: nat)
    requires Coherent(obj, r) && r.pending.None?
    ensures Coherent(obj, Drained(r, remaining).0)
    ensures IsSlice(obj, r.position, Drained(r, remaining).1.bytes)
  {
    var taken := Min(|r.leftover|, remaining);
    var t := Drained(r, remaining).0;
    if r.leftover != [] {
      assert r.leftover[..taken] == obj[r.position..r.position + taken];
      assert r.leftover[taken..] == obj[r.position + taken..r.position + |r.leftover|];
      if r.out != [] {
        assert t.out == obj[r.base..r.base + |t.out|];
      }
    }
  }

  /** The bytes of an accepted range are those of the object at its start. */
  lemma AcceptedBody(obj: Bytes, start: nat, requested: nat, transport: Transport)
    requires HonestBody(obj, start, Answered(transport)) && start + requested <= |obj|
    requires Collected(transport, requested).Ok? && |Collected(transport, requested).value| == requested
    ensures Collected(transport, requested).value == obj[start..start + requested]
  {
    AcceptedIffDelivered(transport, requested);
  }

  lemma CompletedKeepsCoherent(obj: Bytes, r: State, remaining: nat, outcome: Outcome)
    requires Coherent(obj, r) && r.pending.Some? && HonestBody(obj, r.pending.value.start, outcome)
    ensures Coherent(obj, Completed(r, remaining, outcome).0)
    ensures FileAllows(obj, AsFile(r), DoRead(remaining, outcome), ReadReply(Completed(r, remaining, outcome).1),
                       AsFile(Completed(r, remaining, outcome).0))
  {
    if outcome.Answered? {
      var p := r.pending.value;
      var body := Collected(outcome.transport, p.requested);
      if body.Ok? && |body.value| == p.requested {
        AcceptedBody(obj, p.start, p.requested, outcome.transport);
        DrainKeepsCoherent(obj, Filled(r, body.value), remaining);
      }
    }
  }

  lemma RequestKeepsCoherent(obj: Bytes, r: State, remaining: nat)
    requires Coherent(obj, r) && r.pending.None? && r.leftover == [] && r.position < r.size && remaining > 0
    ensures Coherent(obj, WithRequest(r, remaining)) && AsFile(WithRequest(r, remaining)) == AsFile(r)
  {
  }

  lemma ReadRefines(obj: Bytes, r: State, remaining: nat, outcome: Outcome)
    requires Coherent(obj, r) && Honest(obj, r, DoRead(remaining, outcome))
    ensures Coherent(obj, Read(r, remaining, outcome).0)
    ensures FileAllows(obj, AsFile(r), DoRead(remaining, outcome), ReadReply(Read(r, remaining, outcome).1),
                       AsFile(Read(r, remaining, outcome).0))
  {
    if r.leftover != [] {
      DrainKeepsCoherent(obj, r, remaining);
    } else if r.pending.Some? {
      CompletedKeepsCoherent(obj, r, remaining, outcome);
    } else if r.position < r.size && remaining > 0 {
      RequestKeepsCoherent(obj, r, remaining);
      CompletedKeepsCoherent(obj, WithRequest(r, remaining), remaining, outcome);
    }
  }

  /** Every poll is a move of the file, and keeps the reader describing the object. */
  lemma StepRefines(obj: Bytes, r: State, op: Op)
    requires Coherent(obj, r) && Honest(obj, r, op) && SeekIsSafe(r, op)
    ensures Coherent(obj, Step(r, op).0)
    ensures FileAllows(obj, AsFile(r), op, Step(r, op).1, AsFile(Step(r, op).0))
  {
    if op.DoRead? {
      ReadRefines(obj, r, op.remaining, op.outcome);
    }
  }

  lemma SliceOfSlice(obj: Bytes, from: nat, n: nat, given: nat)
    requires from + n <= |obj| && given <= n
    ensures obj[from..from + n][..given] == obj[from..from + given]
    ensures obj[from..from + n][given..] == obj[from + given..from + n]
  {
  }

  /** What a request is answered with in full goes to the leftover, and from there to the caller. */
  lemma FilledIsHandedOut(obj: Bytes, r: State, remaining: nat, transport: Transport)
    requires Coherent(obj, r) && r.pending.Some?
    requires HonestBody(obj, r.pending.value.start, Answered(transport)) && Delivers(transport, r.pending.value.requested)
    ensures Completed(r, remaining, Answered(transport)) ==
            Drained(Filled(r, obj[r.position..r.position + r.pending.value.requested]), remaining)
  {
    var p := r.pending.value;
    AcceptedIffDelivered(transport, p.requested);
    AcceptedBody(obj, p.start, p.requested, transport);
  }

  lemma ReadCompletes(r: State, remaining: nat, outcome: Outcome)
    requires r.leftover == [] && r.position < r.size && remaining > 0
    ensures Read(r, remaining, outcome) == Completed(if r.pending.Some? then r else WithRequest(r, remaining), remaining, outcome)
  {
  }

  lemma DrainedIsCut(r: State, remaining: nat)
    ensures
      var (t, result) := Drained(r, remaining);
      var given := Min(|r.leftover|, remaining);
      result == Data(r.leftover[..given]) && t.leftover == r.leftover[given..] && t.requests == r.requests
  {
  }

  lemma CompletedIsHandedOut(obj: Bytes, r: State, remaining: nat, transport: Transport)
    requires Coherent(obj, r) && r.pending.Some?
    requires HonestBody(obj, r.pending.value.start, Answered(transport)) && Delivers(transport, r.pending.value.requested)
    ensures
      var (t, result) := Completed(r, remaining, Answered(transport));
      var requested := r.pending.value.requested;
      var given := Min(requested, remaining);
      && result == Data(obj[r.position..r.position + given])
      && t.leftover == obj[r.position + given..r.position + requested]
      && t.requests == r.requests
  {
    var requested := r.pending.value.requested;
    FilledIsHandedOut(obj, r, remaining, transport);
    DrainedIsCut(Filled(r, obj[r.position..r.position + requested]), remaining);
    SliceOfSlice(obj, r.position, requested, Min(requested, remaining));
  }

  /** A range that arrives whole is handed out: as much of it as the buffer takes, the rest kept. */
  lemma DeliveredRangeIsHandedOut(obj: Bytes, r: State, remaining: nat, transport: Transport)
    requires Coherent(obj, r) && r.leftover == [] && r.position < r.size && remaining > 0
    requires
      var asked := if r.pending.Some? then r else WithRequest(r, remaining);
      HonestBody(obj, asked.pending.value.start, Answered(transport)) && Delivers(transport, asked.pending.value.requested)
    ensures
      var asked := if r.pending.Some? then r else WithRequest(r, remaining);
      var (t, result) := Read(r, remaining, Answered(transport));
      var given := Min(asked.pending.value.requested, remaining);
      && result == Data(obj[r.position..r.position + given])
      && t.leftover == obj[r.position + given..r.position + asked.pending.value.requested]
      && t.requests == asked.requests
  {
    ReadCompletes(r, remaining, Answered(transport));
    if r.pending.Some? {
      CompletedIsHandedOut(obj, r, remaining, transport);
    } else {
      RequestKeepsCoherent(obj, r, remaining);
      CompletedIsHandedOut(obj, WithRequest(r, remaining), remaining, transport);
    }
  }

  /** Where a seek from the start, the position or the end is to lead. */
  function Wanted(r: State, from: SeekFrom): int {
    match from
    case Start(offset) => offset
    case Current(delta) => r.position + delta
    case End(delta) => r.size + delta
  }

  /**
    A seek is taken exactly when nothing is in flight or in progress and the target is an offset; and
    otherwise the first of these that fails is the error.
  */
  lemma SeekStartsExactlyWhen(r: State, from: SeekFrom)
    ensures
      var (t, answer) := SeekStarted(r, from);
      var to := Wanted(r, from);
      && (answer.Ok? <==> r.pending.None? && r.seekTo.None? && (from.Start? || 0 <= to < 0x1_0000_0000_0000_0000))
      && (answer.Ok? ==> to >= 0 && t == r.(seekTo := Some(to)))
      && (answer.Err? ==> t == r)
      && (answer == Err(ReadInFlight) <==> r.pending.Some?)
      && (answer == Err(SeekInProgress) <==> r.pending.None? && r.seekTo.Some?)
      && (answer == Err(BeforeStart) <==> r.pending.None? && r.seekTo.None? && to < 0)
      && (answer == Err(PastU64) <==> r.pending.None? && r.seekTo.None? && !from.Start? && to >= 0x1_0000_0000_0000_0000)
  {
  }

  // ----- Runs -----

  datatype Event = Event(op: Op, reply: Reply)

  /** `events` leads from `r` to `t` with an unchanged object and no unsafe seek. */
  ghost predicate Runs(obj: Bytes, r: State, events: seq<Event>, t: State)
    decreases |events|
  {
    if events == [] then r == t
    else
      var op := events[0].op;
      && Honest(obj, r, op) && SeekIsSafe(r, op)
      && Step(r, op).1 == events[0].reply
      && Runs(obj, Step(r, op).0, events[1..], t)
  }

  ghost predicate FileRuns(obj: Bytes, f: File, events: seq<Event>, g: File)
    decreases |events|
  {
    if events == [] then f == g
    else exists m: File ::
        FileAllows(obj, f, events[0].op, events[0].reply, m) && FileRuns(obj, m, events[1..], g)
  }

  lemma {:induction false} RunRefines(obj: Bytes, r: State, events: seq<Event>, t: State)
    requires Coherent(obj, r) && Runs(obj, r, events, t)
    ensures Coherent(obj, t) && FileRuns(obj, AsFile(r), events, AsFile(t))
    decreases |events|
  {
    if events != [] {
      var op := events[0].op;
      StepRefines(obj, r, op);
      RunRefines(obj, Step(r, op).0, events[1..], t);
    }
  }

  /**
    Every run of reads with any buffers, cancelled reads, failing servers and seeks is a run of a
    seekable file, and what was handed out since the last seek is the slice of the object from there.
  */
  lemma ReaderRefinesFile(obj: Bytes, events: seq<Event>, t: State)
    requires Runs(obj, Open(|obj|), events, t)
    ensures FileRuns(obj, File(0, None), events, AsFile(t))
    ensures IsSlice(obj, t.base, t.out) && t.position == t.base + |t.out|
    ensures t.fetched == t.delivered + |t.leftover| + t.discarded
  {
    RunRefines(obj, Open(|obj|), events, t);
  }

  // ----- Requests -----

  /** A request inside the object. */
  predicate InObject(get: Get, size: nat) {
    get.start <= get.end < size
  }

  /** `ranges` follow one another without gap or overlap, from `from` up to `to`. */
  predicate Tiles(ranges: seq<Get>, from: nat, to: int) {
    if ranges == [] then from == to
    else
      var last := ranges[|ranges| - 1];
      last.start <= last.end && last.end + 1 == to && Tiles(ranges[..|ranges| - 1], from, last.start)
  }

  /** The request in flight is for the bytes at the position, and is the one the reader recorded. */
  predicate InFlightIsHere(r: State) {
    r.pending.Some? ==>
      && r.pending.value.start == r.position && r.leftover == []
      && InObject(RangeOf(r.pending.value), r.size) && RangeOf(r.pending.value) in r.requests
  }

  /** Every request is inside the object, and the accepted ones tile what was received since the last seek. */
  ghost predicate Disciplined(r: State) {
    && InFlightIsHere(r)
    && (forall i :: 0 <= i < |r.requests| ==> InObject(r.requests[i], r.size))
    && (forall i :: 0 <= i < |r.ranges| ==> r.ranges[i] in r.requests)
    && Tiles(r.ranges, r.base, r.position + |r.leftover|)
  }

  lemma FilledKeepsDisciplined(r: State, body: Bytes)
    requires Disciplined(r) && r.pending.Some? && |body| == r.pending.value.requested
    ensures Disciplined(Filled(r, body))
  {
    var t := Filled(r, body);
    assert t.ranges[..|t.ranges| - 1] == r.ranges;
  }

  lemma RequestKeepsDisciplined(r: State, remaining: nat)
    requires Disciplined(r) && r.pending.None? && r.leftover == [] && r.position < r.size && remaining > 0
    ensures Disciplined(WithRequest(r, remaining))
  {
    var t := WithRequest(r, remaining);
    assert t.requests[|r.requests|] == RangeOf(t.pending.value);
  }

  lemma CompletedKeepsDisciplined(r: State, remaining: nat, outcome: Outcome)
    requires Disciplined(r) && r.pending.Some?
    ensures Disciplined(Completed(r, remaining, outcome).0)
  {
    if outcome.Answered? {
      var body := Collected(outcome.transport, r.pending.value.requested);
      if body.Ok? && |body.value| == r.pending.value.requested {
        FilledKeepsDisciplined(r, body.value);
      }
    }
  }

  lemma StepKeepsDisciplined(r: State, op: Op)
    requires Disciplined(r) && SeekIsSafe(r, op)
    ensures Disciplined(Step(r, op).0)
  {
    if op.DoRead? && r.leftover == [] {
      if r.pending.Some? {
        CompletedKeepsDisciplined(r, op.remaining, op.outcome);
      } else if r.position < r.size && op.remaining > 0 {
        RequestKeepsDisciplined(r, op.remaining);
        CompletedKeepsDisciplined(WithRequest(r, op.remaining), op.remaining, op.outcome);
      }
    }
  }

  lemma {:induction false} RunIsDisciplined(obj: Bytes, r: State, events: seq<Event>, t: State)
    requires Disciplined(r) && Runs(obj, r, events, t)
    ensures Disciplined(t) && t.size == r.size
    decreases |events|
  {
    if events != [] {
      var op := events[0].op;
      StepKeepsDisciplined(r, op);
      RunIsDisciplined(obj, Step(r, op).0, events[1..], t);
    }
  }

  /**
    On every run: a poll makes a request if and only if it is a read with nothing left over, nothing
    in flight, room in the buffer and bytes to come; it makes one; and that one starts at the first
    byte not received since the last seek and ends with the buffer or with the object.
  */
  lemma RequestDiscipline(obj: Bytes, events: seq<Event>, r: State, op: Op)
    requires Runs(obj, Open(|obj|), events, r)
    ensures forall i :: 0 <= i < |r.requests| ==> InObject(r.requests[i], |obj|)
    ensures
      var asks := op.DoRead? && r.leftover == [] && r.pending.None? && r.position < |obj| && op.remaining > 0;
      var t := Step(r, op).0;
      && (t.requests != r.requests <==> asks)
      && (asks ==>
            var get := t.requests[|t.requests| - 1];
            && t.requests == r.requests + [get]
            && get.start == r.position == r.base + |r.out| && InObject(get, |obj|)
            && get.end - get.start + 1 <= op.remaining
            && (get.end - get.start + 1 == op.remaining || get.end == |obj| - 1))
  {
    RunRefines(obj, Open(|obj|), events, r);
    RunIsDisciplined(obj, Open(|obj|), events, r);
  }

  predicate Covers(get: Get, k: nat) {
    get.start <= k <= get.end
  }

  lemma {:induction false} TilesCoverOnce(ranges: seq<Get>, from: nat, to: nat, k: nat)
    requires Tiles(ranges, from, to)
    ensures from <= to
    ensures from <= k < to <==> exists i :: 0 <= i < |ranges| && Covers(ranges[i], k)
    ensures forall i :: 0 <= i < |ranges| ==> from <= ranges[i].start && ranges[i].end < to
    ensures forall i, j :: 0 <= i < j < |ranges| ==> ranges[i].end < ranges[j].start
  {
    if ranges != [] {
      var init, last := ranges[..|ranges| - 1], ranges[|ranges| - 1];
      TilesCoverOnce(init, from, last.start, k);
      assert Covers(last, k) <==> last.start <= k < to;
      assert forall i :: 0 <= i < |init| ==> ranges[i] == init[i];
    }
  }

  /**
    Nothing is fetched twice. On every run each byte received since the last seek came with exactly
    one accepted range, whatever was cancelled in between; and those ranges are requests it made.
  */
  lemma NothingIsRefetched(obj: Bytes, events: seq<Event>, t: State, k: nat)
    requires Runs(obj, Open(|obj|), events, t)
    ensures t.base <= k < t.position + |t.leftover| <==> exists i :: 0 <= i < |t.ranges| && Covers(t.ranges[i], k)
    ensures forall i, j :: 0 <= i < j < |t.ranges| ==> t.ranges[i].end < t.ranges[j].start
    ensures forall i :: 0 <= i < |t.ranges| ==> t.ranges[i] in t.requests
  {
    RunIsDisciplined(obj, Open(|obj|), events, t);
    TilesCoverOnce(t.ranges, t.base, t.position + |t.leftover|, k);
  }

  /** A failed read leaves position and leftover alone, so the next one asks from the same offset. */
  lemma FailureMovesNothing(r: State, remaining: nat, outcome: Outcome)
    requires Read(r, remaining, outcome).1.Failed?
    ensures
      var t := Read(r, remaining, outcome).0;
      t.position == r.position && t.leftover == r.leftover == [] && t.pending.None? && t.seekTo == r.seekTo
  {
  }

  /** The poll gets as far as the request, an old one or a new one. */
  predicate Asks(r: State, remaining: nat) {
    r.leftover == [] && (r.pending.Some? || (r.position < r.size && remaining > 0))
  }

  function AskedFor(r: State, remaining: nat): nat
    requires Asks(r, remaining)
  {
    if r.pending.Some? then r.pending.value.requested else Min(remaining, r.size - r.position)
  }

  /**
    Which error a read gives, over what the server sent alone: with `n` bytes of `p` asked for, a
    short body is an unexpected end, a long one is invalid data, a connection that broke or ended
    before the length it stated is reported as that, and a refused request as the refusal.
  */
  lemma FailureSaysWhy(r: State, remaining: nat, outcome: Outcome)
    ensures var result := Read(r, remaining, outcome).1; result.Failed? ==> Asks(r, remaining) && outcome != NotYet
    ensures
      Asks(r, remaining) && outcome.Answered? ==>
        var t, p, result := outcome.transport, AskedFor(r, remaining), Read(r, remaining, outcome).1;
        var n := |Flat(t.chunks)|;
        && (result == Failed(UnexpectedEof) <==> n < p && !t.broken && (t.stated.Some? ==> t.stated.value <= n))
        && (result == Failed(InvalidData) <==> n > p)
        && (result == Failed(Broken(TransportFailed)) <==> n <= p && t.broken)
        && (t.stated.Some? ==>
              (result == Failed(Broken(EndedEarly(n, t.stated.value))) <==> n <= p && !t.broken && n < t.stated.value))
        && (result.Data? <==> Delivers(t, p))
    ensures
      Asks(r, remaining) && outcome.Refused? ==> Read(r, remaining, outcome).1 == Failed(Upstream(outcome.code))
    ensures Asks(r, remaining) && outcome == NotYet ==> Read(r, remaining, outcome).1 == Pending
  {
    if Asks(r, remaining) && outcome.Answered? {
      RefusedBecause(outcome.transport, AskedFor(r, remaining));
      AcceptedIffDelivered(outcome.transport, AskedFor(r, remaining));
    }
  }

  // ----- The discipline of `AsyncSeekExt::seek` -----

  /** A started seek is completed before the next read. */
  predicate SeekBeforeRead(r: State, op: Op) {
    op.DoRead? ==> r.seekTo.None?
  }

  ghost predicate SeekBeforeReads(r: State, ops: seq<Op>)
    decreases |ops|
  {
    ops == [] || (SeekBeforeRead(r, ops[0]) && SeekBeforeReads(Step(r, ops[0]).0, ops[1..]))
  }

  ghost predicate SeeksAreSafe(r: State, ops: seq<Op>)
    decreases |ops|
  {
    ops == [] || (SeekIsSafe(r, ops[0]) && SeeksAreSafe(Step(r, ops[0]).0, ops[1..]))
  }

  /** Completing every seek before the next read makes every seek safe. */
  lemma {:induction false} SeekExtIsSafe(r: State, ops: seq<Op>)
    requires r.seekTo.Some? ==> r.pending.None?
    requires SeekBeforeReads(r, ops)
    ensures SeeksAreSafe(r, ops)
    decreases |ops|
  {
    if ops != [] {
      SeekExtIsSafe(Step(r, ops[0]).0, ops[1..]);
    }
  }

  // ----- Seeking over a request in flight -----

  /** Every run after the seek is applied is a run of a file at the place it went to. */
  ghost predicate CompletesRight(obj: Bytes, r: State) {
    forall events: seq<Event>, t: State ::
      Runs(obj, SeekCompleted(r), events, t) ==> FileRuns(obj, AsFile(SeekCompleted(r)), events, AsFile(t))
  }

  /** The request in flight, answered in full to a buffer that takes it all. */
  function WholeAnswer(obj: Bytes, p: PendingRead): (op: Op)
    requires p.start + p.requested <= |obj|
  {
    var body := obj[p.start..p.start + p.requested];
    DoRead(p.requested, Answered(Transport([body], false, Some(p.requested))))
  }

  lemma WholeAnswerIsHandedOut(obj: Bytes, r: State)
    requires r.pending.Some? && r.leftover == [] && r.pending.value.start + r.pending.value.requested <= |obj|
    ensures
      var p := r.pending.value;
      && Honest(obj, r, WholeAnswer(obj, p))
      && Step(r, WholeAnswer(obj, p)).1 == ReadReply(Data(obj[p.start..p.start + p.requested]))
  {
    var p := r.pending.value;
    var body := obj[p.start..p.start + p.requested];
    FlatOne(body);
    AcceptedIffDelivered(WholeAnswer(obj, p).outcome.transport, p.requested);
    assert body[..p.requested] == body;
  }

  /**
    A seek applied over a request in flight does what a file does, on every run that follows, if and
    only if the range asked for reads like the bytes at the target.
  */
  lemma CompleteIsRightExactlyWhen(obj: Bytes, r: State)
    requires Coherent(obj, r) && r.seekTo.Some? && r.pending.Some?
    ensures
      var p := r.pending.value;
      CompletesRight(obj, r) <==> IsSlice(obj, r.seekTo.value, obj[p.start..p.start + p.requested])
  {
    var p, q := r.pending.value, SeekCompleted(r);
    if IsSlice(obj, q.position, obj[p.start..p.start + p.requested]) {
      assert Coherent(obj, q);
      forall events: seq<Event>, t: State | Runs(obj, q, events, t)
        ensures FileRuns(obj, AsFile(q), events, AsFile(t))
      {
        RunRefines(obj, q, events, t);
      }
    }
    if CompletesRight(obj, r) {
      WholeAnswerIsHandedOut(obj, q);
      var op := WholeAnswer(obj, p);
      var events, t := [Event(op, Step(q, op).1)], Step(q, op).0;
      assert Runs(obj, t, events[1..], t);
      assert Runs(obj, q, events, t);
      assert FileRuns(obj, AsFile(q), events, AsFile(t));
    }
  }

  /** An object the reader may just as well be reading, in which the range does not read like the target. */
  lemma OtherObject(obj: Bytes, r: State) returns (o: Bytes)
    requires Coherent(obj, r) && Disciplined(r) && r.seekTo.Some? && r.pending.Some?
    requires r.seekTo.value != r.pending.value.start
    ensures Coherent(o, r)
    ensures var p := r.pending.value; !IsSlice(o, r.seekTo.value, o[p.start..p.start + p.requested])
  {
    var p, target := r.pending.value, r.seekTo.value;
    o := if target < |obj| then obj[p.start := if obj[target] == 0 then 1 else 0] else obj;
    assert IsSlice(o, r.base, r.out);
    var asked := o[p.start..p.start + p.requested];
    assert asked[0] == o[p.start];
  }

  /**
    Without looking at the object: a seek over a request in flight is right whatever the object holds
    if and only if the request is for the target itself.
  */
  lemma CompleteIsSafeExactlyWhen(obj: Bytes, r: State)
    requires Coherent(obj, r) && Disciplined(r) && r.seekTo.Some? && r.pending.Some?
    ensures SeekIsSafe(r, DoComplete) <==> forall o: Bytes :: Coherent(o, r) ==> CompletesRight(o, r)
  {
    if SeekIsSafe(r, DoComplete) {
      forall o: Bytes | Coherent(o, r)
        ensures CompletesRight(o, r)
      {
        CompleteIsRightExactlyWhen(o, r);
      }
    } else {
      var o := OtherObject(obj, r);
      CompleteIsRightExactlyWhen(o, r);
    }
  }

  /** Any reader opened, sent to `target`, polled for a read and only then moved there. */
  lemma ReadBetweenSeekHalvesIsRightExactlyWhen(obj: Bytes, target: nat, remaining: nat)
    requires obj != [] && remaining > 0
    ensures
      var started := Step(Open(|obj|), DoStartSeek(Start(target))).0;
      var reading := Step(started, DoRead(remaining, NotYet)).0;
      CompletesRight(obj, reading) <==> IsSlice(obj, target, obj[..Min(remaining, |obj|)])
  {
    var started := Step(Open(|obj|), DoStartSeek(Start(target))).0;
    var reading := Step(started, DoRead(remaining, NotYet)).0;
    var requested := Min(remaining, |obj|);
    assert reading.pending == Some(PendingRead(0, requested));
    assert obj[0..requested] == obj[..requested];
    CompleteIsRightExactlyWhen(obj, reading);
  }

  /** A read between the two halves of a seek makes a reader hand out bytes of the place it left. */
  lemma ReadBetweenSeekHalvesCorrupts(a: byte, b: byte)
    requires a != b
    ensures
      var obj := [a, b];
      var r0 := Open(2);
      var r1 := Step(r0, DoStartSeek(Start(1))).0;
      var r2 := Step(r1, DoRead(1, NotYet)).0;
      var r3 := Step(r2, DoComplete).0;
      var answer := Answered(Transport([[a]], false, Some(1)));
      && Honest(obj, r1, DoRead(1, NotYet)) && Honest(obj, r3, DoRead(1, answer))
      && r3.position == 1
      && Step(r3, DoRead(1, answer)).1 == ReadReply(Data([a]))
      && obj[1] != a
  {
    FlatOne([a]);
    var answer := Transport([[a]], false, Some(1));
    AcceptedIffDelivered(answer, 1);
    assert Delivers(answer, 1);
    assert [a][..1] == [a];
  }
}
