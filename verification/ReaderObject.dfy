/**
  `S3Reader` as an object over an unchanged object in the store.

  The object carries the run of polls it has taken part in, from its opening on; its invariant is
  that this is a run of the reader, so everything proved about runs holds of it.
*/
module ReaderObject {
  import opened Bytes
  import opened DownloadStream
  import opened Reader
  import opened ReaderRuns

  lemma {:induction false} RunsSnoc(obj: Bytes, r: State, events: seq<Event>, m: State, op: Op)
    requires Runs(obj, r, events, m) && Honest(obj, m, op) && SeekIsSafe(m, op)
    ensures Runs(obj, r, events + [Event(op, Step(m, op).1)], Step(m, op).0)
    decreases |events|
  {
    var next := Event(op, Step(m, op).1);
    if events == [] {
      assert Runs(obj, Step(m, op).0, [next][1..], Step(m, op).0);
    } else {
      assert (events + [next])[1..] == events[1..] + [next];
      RunsSnoc(obj, Step(r, events[0].op).0, events[1..], m, op);
    }
  }

  class S3Reader {
    const size: nat
    var position: nat
    var pending: Option<PendingRead>
    var leftover: Bytes
    var seekTo: Option<nat>

    ghost const obj: Bytes
    ghost var requests: seq<Get>
    ghost var base: nat
    ghost var ranges: seq<Get>
    ghost var out: Bytes
    ghost var fetched: nat
    ghost var delivered: nat
    ghost var discarded: nat
    ghost var trace: seq<Event>

    ghost function View(): State
      reads this
    {
      State(size, position, pending, leftover, seekTo, requests, base, ranges, out, fetched, delivered, discarded)
    }

    /** The file handle this reader stands for. */
    ghost function Handle(): File
      reads this
    {
      AsFile(View())
    }

    /** The polls so far are a run of a reader of `obj`. */
    ghost predicate Valid()
      reads this
    {
      Runs(obj, Open(|obj|), trace, View())
    }

    lemma RunIsCoherent()
      requires Valid()
      ensures Coherent(obj, View()) && Disciplined(View())
    {
      RunRefines(obj, Open(|obj|), trace, View());
      RunIsDisciplined(obj, Open(|obj|), trace, View());
    }

    constructor (size: nat, ghost obj: Bytes)
      requires size == |obj|
      ensures Valid() && this.obj == obj && trace == [] && Handle() == File(0, None)
    {
      this.size, position, pending, leftover, seekTo := size, 0, None, [], None;
      this.obj, requests, base, ranges, out, fetched, delivered, discarded := obj, [], 0, [], [], 0, 0, 0;
      trace := [];
    }

    /** Records that the fields now are what `op` makes of `s`. */
    ghost method Record(s: State, op: Op)
      requires Runs(obj, Open(|obj|), trace, s) && Honest(obj, s, op) && SeekIsSafe(s, op)
      requires View() == Step(s, op).0
      modifies `trace
      ensures Valid() && trace == old(trace) + [Event(op, Step(s, op).1)]
      ensures FileAllows(obj, AsFile(s), op, Step(s, op).1, Handle())
    {
      RunRefines(obj, Open(|obj|), trace, s);
      StepRefines(obj, s, op);
      RunsSnoc(obj, Open(|obj|), trace, s, op);
      trace := trace + [Event(op, Step(s, op).1)];
    }

    /** What was fetched goes to the caller first, as far as the buffer takes it. */
    method DrainLeftover(remaining: nat) returns (bytes: Bytes)
      requires Coherent(obj, View()) && pending.None?
      modifies `leftover, `position, `out, `delivered
      ensures bytes + leftover == old(leftover) && |bytes| <= remaining && (leftover == [] || |bytes| == remaining)
      ensures IsSlice(obj, old(position), bytes) && position == old(position) + |bytes|
      ensures Coherent(obj, View()) && (View(), Data(bytes)) == Drained(old(View()), remaining)
    {
      DrainKeepsCoherent(obj, View(), remaining);
      var taken := if |leftover| <= remaining then |leftover| else remaining;
      bytes := leftover[..taken];
      leftover := leftover[taken..];
      position := position + taken;
      out, delivered := out + bytes, delivered + taken;
    }

    /** Asks for the bytes at the position: inside the object, no more than fits, and no less than it could. */
    method StartRead(remaining: nat)
      requires Coherent(obj, View()) && pending.None? && leftover == [] && position < size && remaining > 0
      modifies `pending, `requests
      ensures pending.Some? && requests == old(requests) + [RangeOf(pending.value)]
      ensures pending.value.start == position && InObject(RangeOf(pending.value), |obj|)
      ensures pending.value.requested == remaining || (pending.value.requested < remaining && RangeOf(pending.value).end == |obj| - 1)
      ensures Coherent(obj, View()) && View() == WithRequest(old(View()), remaining)
    {
      var requested := if remaining <= size - position then remaining else size - position;
      RequestKeepsCoherent(obj, View(), remaining);
      pending := Some(PendingRead(position, requested));
      requests := requests + [RangeOf(pending.value)];
    }

    /** Takes in the answer to the request that was in flight, if it is the range asked for. */
    method Settle(remaining: nat, outcome: Outcome) returns (r: ReadResult)
      requires Coherent(obj, View()) && pending.Some? && HonestBody(obj, pending.value.start, outcome)
      modifies `pending, `leftover, `position, `ranges, `out, `fetched, `delivered
      ensures (View(), r) == Completed(old(View()), remaining, outcome)
      ensures r.Data? ==> |r.bytes| <= remaining && position == old(position) + |r.bytes| && IsSlice(obj, old(position), r.bytes)
      ensures !r.Data? ==> position == old(position) && leftover == []
      ensures r.Pending? <==> pending.Some?
    {
      var requested := pending.value.requested;
      if outcome == NotYet {
        return Pending;
      }
      ghost var s := View();
      pending := None;
      if outcome.Refused? {
        return Failed(Upstream(outcome.code));
      }
      var body := CollectBody(outcome.transport, requested);
      if body.Err? {
        return Failed(Broken(body.error));
      }
      if |body.value| < requested {
        return Failed(UnexpectedEof);
      }
      if |body.value| > requested {
        return Failed(InvalidData);
      }
      AcceptedBody(obj, s.pending.value.start, requested, outcome.transport);
      leftover := body.value;
      ranges, fetched := ranges + [RangeOf(s.pending.value)], fetched + requested;
      assert View() == Filled(s, body.value);
      var bytes := DrainLeftover(remaining);
      return Data(bytes);
    }

    /** The part of `poll_read` that moves the fields. */
    method ReadInPoll(remaining: nat, outcome: Outcome) returns (r: ReadResult)
      requires Coherent(obj, View()) && Honest(obj, View(), DoRead(remaining, outcome))
      modifies `pending, `leftover, `position, `requests, `ranges, `out, `fetched, `delivered
      ensures (View(), r) == Read(old(View()), remaining, outcome)
    {
      if leftover != [] {
        var bytes := DrainLeftover(remaining);
        return Data(bytes);
      }
      if pending.None? {
        if position >= size || remaining == 0 {
          return Data([]);
        }
        StartRead(remaining);
      }
      r := Settle(remaining, outcome);
    }

    /**
      A read is a read of a file at the position: it hands over the next bytes and moves by as many,
      or it fails or waits and moves nothing; a request it makes is for the bytes at the position.
    */
    method PollRead(remaining: nat, outcome: Outcome) returns (r: ReadResult)
      requires Valid() && Honest(obj, View(), DoRead(remaining, outcome))
      modifies this
      ensures Valid() && trace == old(trace) + [Event(DoRead(remaining, outcome), ReadReply(r))]
      ensures FileAllows(obj, old(Handle()), DoRead(remaining, outcome), ReadReply(r), Handle())
      ensures position == old(position) + (if r.Data? then |r.bytes| else 0) && seekTo == old(seekTo)
      ensures r.Failed? ==> pending.None? && leftover == old(leftover) == []
      ensures r.Failed? ==> old(Asks(View(), remaining)) && outcome != NotYet
      ensures r.Failed? && outcome.Refused? ==> r.error == Upstream(outcome.code)
      ensures
        old(Asks(View(), remaining)) && outcome.Answered? ==>
          var t, p := outcome.transport, old(AskedFor(View(), remaining));
          var n := |Flat(t.chunks)|;
          && (r == Failed(UnexpectedEof) <==> n < p && !t.broken && (t.stated.Some? ==> t.stated.value <= n))
          && (r == Failed(InvalidData) <==> n > p)
          && (r == Failed(Broken(TransportFailed)) <==> n <= p && t.broken)
          && (r.Data? <==> Delivers(t, p))
      ensures requests == old(requests) ||
              (requests != [] && requests == old(requests) + [requests[|requests| - 1]]
               && requests[|requests| - 1].start == old(position) && InObject(requests[|requests| - 1], |obj|))
    {
      RunIsCoherent();
      ghost var s := View();
      r := ReadInPoll(remaining, outcome);
      RequestDiscipline(obj, trace, s, DoRead(remaining, outcome));
      FailureSaysWhy(s, remaining, outcome);
      Record(s, DoRead(remaining, outcome));
    }

    /** A seek is taken exactly when nothing is in flight or in progress and its target is an offset; it moves nothing yet. */
    method StartSeek(from: SeekFrom) returns (r: Result<(), SeekError>)
      requires Valid()
      modifies this
      ensures Valid() && trace == old(trace) + [Event(DoStartSeek(from), SeekReply(r))]
      ensures FileAllows(obj, old(Handle()), DoStartSeek(from), SeekReply(r), Handle())
      ensures position == old(position) && leftover == old(leftover) && pending == old(pending)
      ensures r.Ok? <==>
                && old(pending.None? && seekTo.None?)
                && (from.Current? ==> 0 <= position + from.delta <= U64_MAX)
                && (from.End? ==> 0 <= |obj| + from.delta <= U64_MAX)
      ensures r == Err(ReadInFlight) <==> old(pending).Some?
      ensures r == Err(SeekInProgress) <==> old(pending).None? && old(seekTo).Some?
      ensures r == Err(BeforeStart) <==>
                && old(pending.None? && seekTo.None?)
                && ((from.Current? && position + from.delta < 0) || (from.End? && |obj| + from.delta < 0))
    {
      RunIsCoherent();
      ghost var s := View();
      if pending.Some? {
        Record(s, DoStartSeek(from));
        return Err(ReadInFlight);
      }
      if seekTo.Some? {
        Record(s, DoStartSeek(from));
        return Err(SeekInProgress);
      }
      var target: Result<nat, SeekError>;
      match from {
        case Start(offset) => target := Ok(offset);
        case Current(delta) => target := Resolved(position, delta);
        case End(delta) => target := Resolved(size, delta);
      }
      if target.Ok? {
        seekTo := Some(target.value);
      }
      Record(s, DoStartSeek(from));
      return if target.Ok? then Ok(()) else Err(target.error);
    }

    /** The part of `poll_complete` that moves the fields. */
    method ApplySeek()
      modifies `position, `leftover, `seekTo, `base, `ranges, `out, `discarded
      ensures View() == SeekCompleted(old(View()))
    {
      if seekTo.Some? {
        position := seekTo.value;
        base, ranges, out, discarded := seekTo.value, [], [], discarded + |leftover|;
        leftover := [];
        seekTo := None;
      }
    }

    /**
      A started seek is applied, and what was fetched is dropped. That is the move of a file unless a
      request is in flight for another place, and then the reader is left expecting that place's bytes.
    */
    method PollComplete() returns (at: nat)
      requires Valid()
      modifies this
      ensures at == position && position == (if old(seekTo).Some? then old(seekTo).value else old(position))
      ensures seekTo.None? && pending == old(pending) && leftover == (if old(seekTo).Some? then [] else old(leftover))
      ensures old(SeekIsSafe(View(), DoComplete)) ==>
                && Valid() && trace == old(trace) + [Event(DoComplete, At(at))]
                && FileAllows(obj, old(Handle()), DoComplete, At(at), Handle())
      ensures !old(SeekIsSafe(View(), DoComplete)) ==>
                pending.Some? && pending.value.start == old(position) != position
    {
      RunIsCoherent();
      ghost var s := View();
      ApplySeek();
      if SeekIsSafe(s, DoComplete) {
        Record(s, DoComplete);
      }
      return position;
    }
  }
}
