/** What each poll of an `S3Reader` does to its fields: one object as a random-access source. */
module Reader {
  import opened Bytes
  import opened DownloadStream

  /** A ranged request, with inclusive offsets. */
  datatype Get = Get(start: nat, end: int)

  /** The request in flight, with the offset and the length it was started for. */
  datatype PendingRead = PendingRead(start: nat, requested: nat)

  function RangeOf(p: PendingRead): Get {
    Get(p.start, p.start + p.requested - 1)
  }

  /**
    The fields of a reader, and its histories: the requests it made, where the last seek put it, the
    ranges accepted and the bytes handed out since, and how many bytes it fetched, handed out and
    threw away in all.
  */
  datatype State = State(
    size: nat,
    position: nat,
    pending: Option<PendingRead>,
    leftover: Bytes,
    seekTo: Option<nat>,
    requests: seq<Get>,
    base: nat,
    ranges: seq<Get>,
    out: Bytes,
    fetched: nat,
    delivered: nat,
    discarded: nat)

  function Open(size: nat): State {
    State(size, 0, None, [], None, [], 0, [], [], 0, 0, 0)
  }

  function Min(a: nat, b: nat): nat {
    if a <= b then a else b
  }

  // ----- Reading -----

  /** What polling the request future gives. */
  datatype Outcome = NotYet | Refused(code: nat) | Answered(transport: Transport)

  datatype ReadError = Upstream(code: nat) | Broken(error: StreamError) | UnexpectedEof | InvalidData

  datatype ReadResult = Pending | Data(bytes: Bytes) | Failed(error: ReadError)

  /** `drain_leftover`. */
  function Drained(r: State, remaining: nat): (State, ReadResult) {
    var taken := Min(|r.leftover|, remaining);
    (r.(leftover := r.leftover[taken..], position := r.position + taken,
        out := r.out + r.leftover[..taken], delivered := r.delivered + taken),
     Data(r.leftover[..taken]))
  }

  /** `start_read`: one request for at most the buffer and at most what is left. */
  function WithRequest(r: State, remaining: nat): State
    requires r.position < r.size && remaining > 0
  {
    var requested := Min(remaining, r.size - r.position);
    var pending := PendingRead(r.position, requested);
    r.(pending := Some(pending), requests := r.requests + [RangeOf(pending)])
  }

  /** The reader with the range it asked for in its leftover. */
  function Filled(r: State, body: Bytes): State
    requires r.pending.Some?
  {
    r.(pending := None, leftover := body, fetched := r.fetched + |body|,
       ranges := r.ranges + [RangeOf(r.pending.value)])
  }

  /** The rest of `poll_read` once there is a request to poll. */
  function Completed(r: State, remaining: nat, outcome: Outcome): (State, ReadResult)
    requires r.pending.Some?
  {
    var requested := r.pending.value.requested;
    var idle := r.(pending := None);
    match outcome
    case NotYet => (r, Pending)
    case Refused(code) => (idle, Failed(Upstream(code)))
    case Answered(transport) =>
      var body := Collected(transport, requested);
      if body.Err? then (idle, Failed(Broken(body.error)))
      else if |body.value| < requested then (idle, Failed(UnexpectedEof))
      else if |body.value| > requested then (idle, Failed(InvalidData))
      else Drained(Filled(r, body.value), remaining)
  }

  /** `poll_read` with room for `remaining` bytes. */
  function Read(r: State, remaining: nat, outcome: Outcome): (State, ReadResult) {
    if r.leftover != [] then Drained(r, remaining)
    else if r.pending.Some? then Completed(r, remaining, outcome)
    else if r.position >= r.size || remaining == 0 then (r, Data([]))
    else Completed(WithRequest(r, remaining), remaining, outcome)
  }

  // ----- Seeking -----

  datatype SeekFrom = Start(offset: nat) | Current(delta: int) | End(delta: int)

  datatype SeekError = ReadInFlight | SeekInProgress | BeforeStart | PastU64

  /** `resolve_offset`. */
  function Resolved(base: nat, delta: int): Result<nat, SeekError> {
    var target := base + delta;
    if target < 0 then Err(BeforeStart) else if target > U64_MAX then Err(PastU64) else Ok(target)
  }

  function Target(r: State, from: SeekFrom): Result<nat, SeekError> {
    match from
    case Start(offset) => Ok(offset)
    case Current(delta) => Resolved(r.position, delta)
    case End(delta) => Resolved(r.size, delta)
  }

  /** `start_seek`. */
  function SeekStarted(r: State, from: SeekFrom): (State, Result<(), SeekError>) {
    if r.pending.Some? then (r, Err(ReadInFlight))
    else if r.seekTo.Some? then (r, Err(SeekInProgress))
    else
      var target := Target(r, from);
      if target.Err? then (r, Err(target.error)) else (r.(seekTo := Some(target.value)), Ok(()))
  }

  /** `poll_complete`. */
  function SeekCompleted(r: State): State {
    if r.seekTo.None? then r
    else
      r.(seekTo := None, position := r.seekTo.value, leftover := [],
         base := r.seekTo.value, ranges := [], out := [], discarded := r.discarded + |r.leftover|)
  }
}
