/** Where the writer cuts the body: into the fixed-size split, unless it is written to after a flush. */
module UploadChunks {
  import opened Bytes
  import opened UploadProtocol
  import opened UploadInvariant
  import opened UploadTheorems

  /** A flush sends the chunk being filled; a write sends one only once it is full. */
  predicate Flushes(s: State, step: Step) {
    step == W(StartSend) && s.writer.phase == Cleared
  }

  predicate Takes(step: Step) {
    step.W? && step.writer.Take?
  }

  /** The run takes bytes after a flush; `flushed` says that one came before the run. */
  ghost predicate TakesAfterFlush(s: State, steps: seq<Step>, flushed: bool)
    decreases |steps|
  {
    steps != [] && Enabled(s, steps[0])
    && ((flushed && Takes(steps[0]))
        || TakesAfterFlush(Apply(s, steps[0]), steps[1..], flushed || Flushes(s, steps[0])))
  }

  /** The chunks that have left the buffer, wherever they are now. */
  function StartedChunks(w: Writer): seq<Bytes> {
    w.counted + (if w.phase.Handing? || w.phase.Reserved? then [w.phase.chunk]
                 else if w.pending.Some? then [w.pending.value]
                 else if w.refused.Some? then [w.refused.value]
                 else [])
  }

  ghost predicate SomeChunkShort(w: Writer) {
    SomeShort(StartedChunks(w), w.chunkSize)
  }

  /** A chunk is started only by taking it out of the buffer, and then stays a chunk. */
  lemma ChunksMoveOn(s: State, w: WriterStep)
    requires WriterShape(s.writer) && WriterEnabled(s, w)
    ensures NextWriter(s, w).chunkSize == s.writer.chunkSize
    ensures StartedChunks(NextWriter(s, w)) ==
            if w == StartSend then StartedChunks(s.writer) + [s.writer.buffer] else StartedChunks(s.writer)
  {
    match w
    case Resume =>
    case ReserveWait =>
    case ReserveRoom =>
    case ReserveClosed =>
    case Count => assert s.writer.counted + [s.writer.phase.chunk] + [] == s.writer.counted + [s.writer.phase.chunk];
    case Publish =>
    case StartSend => assert s.writer.counted + [] + [s.writer.buffer] == s.writer.counted + [s.writer.buffer];
    case Take(bytes) =>
    case DropBegin =>
    case _ =>
  }

  /** While nothing was taken after a short chunk, only the chunk started last can be short. */
  lemma OnlyTheLastIsShort(w: Writer)
    requires WriterShape(w) && ChunkShape(w) && (w.resumed <==> SomePieceShort(w)) && !w.resumed && w.phase == Cleared
    ensures SomeChunkShort(w) <==> LastStartedIsPartial(w)
  {
    assert StartedChunks(w) == w.counted;
    OneMorePiece(w.counted, w.buffer, w.chunkSize);
    if w.buffer == [] {
      assert Pieces(w) == w.counted;
    }
  }

  lemma FlushIsShort(s: State, w: WriterStep)
    requires WriterShape(s.writer) && WriterEnabled(s, w) && w == StartSend
    ensures Flushes(s, W(w)) <==> |s.writer.buffer| < s.writer.chunkSize
  {
  }

  lemma ShortSnoc(before: Writer, after: Writer, chunk: Bytes)
    requires after.chunkSize == before.chunkSize && StartedChunks(after) == StartedChunks(before) + [chunk]
    ensures SomeChunkShort(after) <==> SomeChunkShort(before) || |chunk| < before.chunkSize
  {
    OneMorePiece(StartedChunks(after), chunk, before.chunkSize);
    OneMorePiece(StartedChunks(before), chunk, before.chunkSize);
  }

  /** `flushed` is right about the writer, as long as it matters. */
  ghost predicate Tracks(w: Writer, flushed: bool) {
    w.resumed || (flushed <==> SomeChunkShort(w))
  }

  lemma ResumesExactlyWhen(s: State, w: WriterStep)
    requires WriterShape(s.writer) && ChunkShape(s.writer) && (s.writer.resumed <==> SomePieceShort(s.writer))
    requires WriterEnabled(s, w)
    ensures NextWriter(s, w).resumed <==> s.writer.resumed || (w.Take? && SomeChunkShort(s.writer))
  {
    if w.Take? {
      if !s.writer.resumed {
        OnlyTheLastIsShort(s.writer);
      }
    } else {
      match w
      case StartSend =>
      case _ =>
    }
  }

  lemma WriterTracks(s: State, w: WriterStep, flushed: bool)
    requires Inv(s) && WriterEnabled(s, w) && Tracks(s.writer, flushed)
    ensures Tracks(NextWriter(s, w), flushed || Flushes(s, W(w)))
    ensures NextWriter(s, w).resumed <==> s.writer.resumed || (flushed && w.Take?)
  {
    ResumesExactlyWhen(s, w);
    ChunksMoveOn(s, w);
    if w == StartSend {
      FlushIsShort(s, w);
      ShortSnoc(s.writer, NextWriter(s, w), s.writer.buffer);
    }
  }

  lemma {:induction false} ResumedIsTakingAfterFlush(s: State, steps: seq<Step>, t: State, flushed: bool)
    requires Inv(s) && Runs(s, steps, t) && Tracks(s.writer, flushed)
    ensures t.writer.resumed <==> s.writer.resumed || TakesAfterFlush(s, steps, flushed)
    decreases |steps|
  {
    if steps != [] {
      StepInv(s, steps[0]);
      if steps[0].W? {
        WriterTracks(s, steps[0].writer, flushed);
      }
      ResumedIsTakingAfterFlush(Apply(s, steps[0]), steps[1..], t, flushed || Flushes(s, steps[0]));
    }
  }

  /**
    On every run the pieces the body is cut into, wherever they are by now, are its fixed-size split
    if and only if the run takes no byte after a flush.
  */
  lemma SplitExactlyWithoutFlushes(contentLength: nat, chunkSize: nat, gated: bool, steps: seq<Step>, t: State)
    requires Runs(Init(contentLength, chunkSize, gated), steps, t)
    ensures t.writer.chunkSize >= 1
    ensures Pieces(t.writer) == FixedSplit(t.writer.taken, t.writer.chunkSize) <==>
              !TakesAfterFlush(Init(contentLength, chunkSize, gated), steps, false)
  {
    var s := Init(contentLength, chunkSize, gated);
    InitInv(contentLength, chunkSize, gated);
    ResumedIsTakingAfterFlush(s, steps, t, false);
    ChunksAreTheFixedSplit(t);
  }

  /** A run that never flushes. */
  ghost predicate NeverFlushes(s: State, steps: seq<Step>)
    decreases |steps|
  {
    steps != [] && Enabled(s, steps[0]) ==>
      !Flushes(s, steps[0]) && NeverFlushes(Apply(s, steps[0]), steps[1..])
  }

  lemma {:induction false} NoFlushNoTakeAfterIt(s: State, steps: seq<Step>)
    requires NeverFlushes(s, steps)
    ensures !TakesAfterFlush(s, steps, false)
    decreases |steps|
  {
    if steps != [] && Enabled(s, steps[0]) {
      NoFlushNoTakeAfterIt(Apply(s, steps[0]), steps[1..]);
    }
  }

  lemma {:induction false} NoTakeAtAll(s: State, steps: seq<Step>, flushed: bool)
    requires forall i :: 0 <= i < |steps| ==> !Takes(steps[i])
    ensures !TakesAfterFlush(s, steps, flushed)
    decreases |steps|
  {
    if steps != [] && Enabled(s, steps[0]) {
      NoTakeAtAll(Apply(s, steps[0]), steps[1..], flushed || Flushes(s, steps[0]));
    }
  }

  lemma NoTakeKeepsResumed(s: State, steps: seq<Step>, t: State)
    requires Inv(s) && Runs(s, steps, t) && forall i :: 0 <= i < |steps| ==> !Takes(steps[i])
    ensures t.writer.resumed == s.writer.resumed
  {
    var short := SomeChunkShort(s.writer);
    NoTakeAtAll(s, steps, short);
    ResumedIsTakingAfterFlush(s, steps, t, short);
  }

  lemma NoFlushNoneResumed(contentLength: nat, chunkSize: nat, gated: bool, steps: seq<Step>, t: State)
    requires Runs(Init(contentLength, chunkSize, gated), steps, t)
    requires NeverFlushes(Init(contentLength, chunkSize, gated), steps)
    ensures Inv(t) && !t.writer.resumed
  {
    var s := Init(contentLength, chunkSize, gated);
    InitInv(contentLength, chunkSize, gated);
    NoFlushNoTakeAfterIt(s, steps);
    ResumedIsTakingAfterFlush(s, steps, t, false);
    RunInv(s, steps, t);
  }

  /** A body written without flushes, then flushed and ended in whatever way without writing more. */
  lemma WrittenThenEndedIsTheSplit(
    contentLength: nat, chunkSize: nat, gated: bool, first: seq<Step>, m: State, last: seq<Step>, t: State)
    requires Runs(Init(contentLength, chunkSize, gated), first, m) && Runs(m, last, t)
    requires NeverFlushes(Init(contentLength, chunkSize, gated), first)
    requires forall i :: 0 <= i < |last| ==> !Takes(last[i])
    ensures t.writer.chunkSize >= 1 && Pieces(t.writer) == FixedSplit(t.writer.taken, t.writer.chunkSize)
  {
    NoFlushNoneResumed(contentLength, chunkSize, gated, first, m);
    NoTakeKeepsResumed(m, last, t);
    RunsConcat(Init(contentLength, chunkSize, gated), first, m, last, t);
    ChunksAreTheFixedSplit(t);
  }
}
