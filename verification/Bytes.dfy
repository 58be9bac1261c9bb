/** Bytes, chunks of bytes, and their concatenation. */
module Bytes {

  newtype byte = x: int | 0 <= x < 256

  type Bytes = seq<byte>

  const U64_MAX: nat := 0xFFFF_FFFF_FFFF_FFFF

  datatype Option<+T> = None | Some(value: T)

  datatype Result<+T, +E> = Ok(value: T) | Err(error: E)

  /** The bytes of a sequence of chunks, in order. */
  function Flat(chunks: seq<Bytes>): Bytes {
    if chunks == [] then [] else Flat(chunks[..|chunks| - 1]) + chunks[|chunks| - 1]
  }

  lemma FlatSnoc(chunks: seq<Bytes>, chunk: Bytes)
    ensures Flat(chunks + [chunk]) == Flat(chunks) + chunk
  {
    assert (chunks + [chunk])[..|chunks|] == chunks;
  }

  lemma FlatOne(chunk: Bytes)
    ensures Flat([chunk]) == chunk
  {
    assert [chunk] == [] + [chunk];
    FlatSnoc([], chunk);
  }

  lemma Associates<T>(a: seq<T>, b: seq<T>, c: seq<T>)
    ensures (a + b) + c == a + (b + c)
  {
  }

  lemma {:induction false} FlatConcat(front: seq<Bytes>, back: seq<Bytes>)
    ensures Flat(front + back) == Flat(front) + Flat(back)
    decreases |back|
  {
    if back == [] {
      assert front + back == front;
    } else {
      var init, last := back[..|back| - 1], back[|back| - 1];
      calc {
        Flat(front + back);
        { assert back == init + [last]; Associates(front, init, [last]); }
        Flat((front + init) + [last]);
        { FlatSnoc(front + init, last); }
        Flat(front + init) + last;
        { FlatConcat(front, init); }
        (Flat(front) + Flat(init)) + last;
        { Associates(Flat(front), Flat(init), last); }
        Flat(front) + (Flat(init) + last);
        Flat(front) + Flat(back);
      }
    }
  }

  /** Dropping whole chunks from the end keeps a prefix of the bytes. */
  lemma FlatPrefix(front: seq<Bytes>, chunks: seq<Bytes>)
    requires front <= chunks
    ensures Flat(front) <= Flat(chunks)
  {
    FlatConcat(front, chunks[|front|..]);
    assert chunks == front + chunks[|front|..];
  }

  /** Chunks of at most `size` bytes hold at most `size` times as many bytes. */
  lemma {:induction false} FlatBound(chunks: seq<Bytes>, size: nat)
    requires forall i :: 0 <= i < |chunks| ==> |chunks[i]| <= size
    ensures |Flat(chunks)| <= |chunks| * size
  {
    if chunks != [] {
      FlatBound(chunks[..|chunks| - 1], size);
      assert |chunks| * size == (|chunks| - 1) * size + size;
    }
  }
}
