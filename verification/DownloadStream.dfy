/** A response body handed over a chunk at a time, and the loop that collects a ranged one. */
module DownloadStream {
  import opened Bytes

  datatype StreamError = TransportFailed | EndedEarly(received: nat, expected: nat)

  /** What the connection delivers: its chunks, and whether it breaks after them instead of ending. */
  datatype Transport = Transport(chunks: seq<Bytes>, broken: bool, stated: Option<nat>)

  class S3DownloadStream {
    const contentLength: Option<nat>
    const broken: bool
    var body: seq<Bytes>
    var received: nat

    constructor (transport: Transport)
      ensures contentLength == transport.stated && broken == transport.broken
      ensures body == transport.chunks && received == 0
    {
      contentLength, broken, body, received := transport.stated, transport.broken, transport.chunks, 0;
    }

    /** The next chunk; `None` only once every byte that was stated has been handed out. */
    method GetNextChunk() returns (r: Result<Option<Bytes>, StreamError>)
      modifies this
      ensures old(body) != [] ==>
                r == Ok(Some(old(body)[0])) && body == old(body)[1..] && received == old(received) + |old(body)[0]|
      ensures old(body) == [] ==> unchanged(this) && (r.Ok? ==> r.value.None?)
      ensures r.Err? && broken ==> r.error == TransportFailed
      ensures r.Err? && !broken ==> contentLength.Some? && r.error == EndedEarly(received, contentLength.value)
      ensures r == Ok(None) <==>
                old(body) == [] && !broken && (contentLength.Some? ==> received >= contentLength.value)
    {
      if body == [] {
        if broken {
          return Err(TransportFailed);
        }
        if contentLength.Some? && received < contentLength.value {
          return Err(EndedEarly(received, contentLength.value));
        }
        return Ok(None);
      }
      var chunk := body[0];
      body := body[1..];
      received := received + |chunk|;
      return Ok(Some(chunk));
    }
  }

  /** What the loop makes of the chunks still to come, with `body` collected so far. */
  function CollectedFrom(t: Transport, requested: nat, body: Bytes, chunks: seq<Bytes>): Result<Bytes, StreamError>
    decreases |chunks|
  {
    if chunks == [] then
      if t.broken then Err(TransportFailed)
      else if t.stated.Some? && |body| < t.stated.value then Err(EndedEarly(|body|, t.stated.value))
      else Ok(body)
    else
      var more := body + chunks[0];
      if |more| > requested then Ok(more) else CollectedFrom(t, requested, more, chunks[1..])
  }

  function Collected(t: Transport, requested: nat): Result<Bytes, StreamError> {
    CollectedFrom(t, requested, [], t.chunks)
  }

  /** The body of the request future in `start_read`. */
  method CollectBody(t: Transport, requested: nat) returns (r: Result<Bytes, StreamError>)
    ensures r == Collected(t, requested)
  {
    var stream := new S3DownloadStream(t);
    var body := [];
    while true
      invariant stream.contentLength == t.stated && stream.broken == t.broken && stream.received == |body|
      invariant CollectedFrom(t, requested, body, stream.body) == Collected(t, requested)
      decreases |stream.body|
    {
      var next := stream.GetNextChunk();
      if next.Err? {
        return Err(next.error);
      }
      if next.value.None? {
        break;
      }
      body := body + next.value.value;
      if |body| > requested {
        break;
      }
    }
    return Ok(body);
  }

  /** The whole range arrived: neither more nor less than was asked for. */
  predicate Delivers(t: Transport, requested: nat) {
    |Flat(t.chunks)| == requested && !t.broken && (t.stated.Some? ==> t.stated.value <= requested)
  }

  lemma {:induction false} CollectedExactly(t: Transport, requested: nat, body: Bytes, chunks: seq<Bytes>)
    requires |body| <= requested
    ensures
      var r := CollectedFrom(t, requested, body, chunks);
      && (r.Ok? && |r.value| == requested <==>
            && |body| + |Flat(chunks)| == requested && !t.broken
            && (t.stated.Some? ==> t.stated.value <= requested))
      && (r.Ok? && |r.value| == requested ==> r.value == body + Flat(chunks))
      && (r.Ok? && |r.value| <= requested ==> r.value == body + Flat(chunks) && !t.broken)
    decreases |chunks|
  {
    if chunks != [] {
      assert chunks == [chunks[0]] + chunks[1..];
      FlatConcat([chunks[0]], chunks[1..]);
      FlatOne(chunks[0]);
      var more := body + chunks[0];
      if |more| <= requested {
        CollectedExactly(t, requested, more, chunks[1..]);
        assert more + Flat(chunks[1..]) == body + Flat(chunks);
      }
    }
  }

  /**
    A range is accepted exactly when its chunks hold `requested` bytes, the connection ended rather
    than broke, and no more than that was stated; and then it is their concatenation.
  */
  lemma AcceptedIffDelivered(t: Transport, requested: nat)
    ensures Collected(t, requested).Ok? && |Collected(t, requested).value| == requested <==> Delivers(t, requested)
    ensures Delivers(t, requested) ==> Collected(t, requested).value == Flat(t.chunks)
  {
    CollectedExactly(t, requested, [], t.chunks);
  }

  lemma {:induction false} CollectingFails(t: Transport, requested: nat, body: Bytes, chunks: seq<Bytes>)
    requires |body| <= requested
    ensures
      var r, n := CollectedFrom(t, requested, body, chunks), |body| + |Flat(chunks)|;
      && (r.Ok? && |r.value| > requested <==> n > requested)
      && (r.Ok? && |r.value| <= requested ==> |r.value| == n)
      && (r == Err(TransportFailed) <==> n <= requested && t.broken)
      && (r.Err? && r.error.EndedEarly? ==> t.stated.Some? && r.error == EndedEarly(n, t.stated.value))
      && (r.Err? && r.error.EndedEarly? <==> n <= requested && !t.broken && t.stated.Some? && n < t.stated.value)
    decreases |chunks|
  {
    if chunks != [] {
      assert chunks == [chunks[0]] + chunks[1..];
      FlatConcat([chunks[0]], chunks[1..]);
      FlatOne(chunks[0]);
      if |body + chunks[0]| <= requested {
        CollectingFails(t, requested, body + chunks[0], chunks[1..]);
      }
    }
  }

  /**
    Why a range is not accepted, over the transport alone: too much of it whatever follows, a broken
    connection, an end before the stated length, or an end before the range was full.
  */
  lemma RefusedBecause(t: Transport, requested: nat)
    ensures
      var r, n := Collected(t, requested), |Flat(t.chunks)|;
      && (r.Ok? && |r.value| > requested <==> n > requested)
      && (r.Ok? && |r.value| < requested <==> n < requested && !t.broken && (t.stated.Some? ==> t.stated.value <= n))
      && (r == Err(TransportFailed) <==> n <= requested && t.broken)
      && (r.Err? && r.error.EndedEarly? <==> n <= requested && !t.broken && t.stated.Some? && n < t.stated.value)
      && (r.Err? && r.error.EndedEarly? ==> r.error == EndedEarly(n, t.stated.value))
  {
    CollectingFails(t, requested, [], t.chunks);
  }

  /** How the server cuts the body into chunks decides neither acceptance nor the bytes. */
  lemma SplittingDoesNotMatter(a: Transport, b: Transport, requested: nat)
    requires Flat(a.chunks) == Flat(b.chunks) && a.broken == b.broken && a.stated == b.stated
    ensures
      var x, y := Collected(a, requested), Collected(b, requested);
      && (x.Ok? && |x.value| == requested <==> y.Ok? && |y.value| == requested)
      && (x.Ok? && |x.value| == requested ==> x == y)
  {
    AcceptedIffDelivered(a, requested);
    AcceptedIffDelivered(b, requested);
  }
}
