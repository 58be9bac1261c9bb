/** The scan that decides whether a body is a complete document the XML reader may be driven over. */
module XmlGuard {
  import opened Bytes

  const LT: byte := 0x3C
  const GT: byte := 0x3E
  const SLASH: byte := 0x2F
  const QUESTION: byte := 0x3F
  const BANG: byte := 0x21

  // ----- What a body is, byte by byte -----

  /**
    Where a reader is after some bytes: in text, just after `<`, inside one of the three kinds of
    tag, or below the top level, from where nothing leads back. `slash` says the last byte was `/`.
  */
  datatype Scan =
    | Text(depth: nat)
    | Opened(depth: nat)
    | Declaration(depth: nat)
    | Closing(depth: nat)
    | Element(depth: nat, slash: bool)
    | Below

  function Next(s: Scan, b: byte): Scan {
    match s
    case Text(d) => if b == LT then Opened(d) else s
    case Opened(d) =>
      if b == GT then Text(d + 1)
      else if b == QUESTION || b == BANG then Declaration(d)
      else if b == SLASH then Closing(d)
      else Element(d, false)
    case Declaration(d) => if b == GT then Text(d) else s
    case Closing(d) => if b != GT then s else if d == 0 then Below else Text(d - 1)
    case Element(d, slash) => if b != GT then Element(d, b == SLASH) else if slash then Text(d) else Text(d + 1)
    case Below => Below
  }

  function ScanFrom(s: Scan, bytes: Bytes): Scan
    decreases |bytes|
  {
    if bytes == [] then s else ScanFrom(Next(s, bytes[0]), bytes[1..])
  }

  /** Every tag is closed, the depth never went below zero, and it ended at zero. */
  predicate Balanced(bytes: Bytes) {
    ScanFrom(Text(0), bytes) == Text(0)
  }

  lemma {:induction false} ScanConcat(s: Scan, a: Bytes, b: Bytes)
    ensures ScanFrom(s, a + b) == ScanFrom(ScanFrom(s, a), b)
    decreases |a|
  {
    if a == [] {
      assert a + b == b;
    } else {
      assert (a + b)[1..] == a[1..] + b;
      ScanConcat(Next(s, a[0]), a[1..], b);
    }
  }

  // ----- The scan of the source, tag by tag -----

  lemma {:induction false} TextStaysText(d: nat, bytes: Bytes)
    requires LT !in bytes
    ensures ScanFrom(Text(d), bytes) == Text(d)
  {
    if bytes != [] {
      TextStaysText(d, bytes[1..]);
    }
  }

  /** Inside a tag, and what kind of tag cannot change any more. */
  predicate InTag(s: Scan) {
    s.Declaration? || s.Closing? || s.Element?
  }

  /** A tag runs on until `>`, remembering only its kind and whether the last byte was `/`. */
  lemma {:induction false} TagRunsOn(s: Scan, bytes: Bytes)
    requires InTag(s) && GT !in bytes
    ensures ScanFrom(s, bytes) ==
            if s.Element? && bytes != [] then Element(s.depth, bytes[|bytes| - 1] == SLASH) else s
    decreases |bytes|
  {
    if bytes != [] {
      TagRunsOn(Next(s, bytes[0]), bytes[1..]);
    }
  }

  /** What one whole tag does to the depth, as the source classifies it. */
  function AfterTag(d: nat, tag: Bytes): Scan
    requires |tag| >= 2
  {
    if tag[1] == QUESTION || tag[1] == BANG then Text(d)
    else if tag[1] == SLASH then (if d == 0 then Below else Text(d - 1))
    else if tag[|tag| - 2] != SLASH then Text(d + 1)
    else Text(d)
  }

  predicate IsTag(tag: Bytes) {
    |tag| >= 2 && tag[0] == LT && tag[|tag| - 1] == GT && GT !in tag[..|tag| - 1]
  }

  lemma TagScans(d: nat, tag: Bytes)
    requires IsTag(tag)
    ensures ScanFrom(Text(d), tag) == AfterTag(d, tag)
  {
    var first := Next(Opened(d), tag[1]);
    assert tag[1..][0] == tag[1] && tag[1..][1..] == tag[2..];
    assert ScanFrom(Text(d), tag) == ScanFrom(Opened(d), tag[1..]) == ScanFrom(first, tag[2..]);
    if |tag| > 2 {
      var inner := tag[2..|tag| - 1];
      assert GT !in inner by {
        assert forall i :: 0 <= i < |inner| ==> inner[i] == tag[..|tag| - 1][i + 2];
      }
      assert first != Text(d + 1) by {
        assert tag[1] == tag[..|tag| - 1][1];
      }
      TagRunsOn(first, inner);
      ScanConcat(first, inner, [GT]);
      assert tag[2..] == inner + [GT];
    } else {
      assert tag[2..] == [];
    }
  }

  /** A tag that never ends leaves the scan inside it. */
  lemma OpenTagScans(d: nat, bytes: Bytes)
    requires bytes != [] && bytes[0] == LT && GT !in bytes
    ensures var s := ScanFrom(Text(d), bytes); !s.Text? && !s.Below? && s.depth == d
  {
    if |bytes| > 1 {
      var first := Next(Opened(d), bytes[1]);
      assert bytes[1..][0] == bytes[1] && bytes[1..][1..] == bytes[2..];
      assert bytes[1] in bytes;
      assert GT !in bytes[2..];
      TagRunsOn(first, bytes[2..]);
    }
  }

  lemma {:induction false} BelowStaysBelow(bytes: Bytes)
    ensures ScanFrom(Below, bytes) == Below
  {
    if bytes != [] {
      BelowStaysBelow(bytes[1..]);
    }
  }

  /** `iter().position`: the first `b` at or after `from`. */
  function Position(bytes: Bytes, from: nat, b: byte): (at: Option<nat>)
    requires from <= |bytes|
    ensures at.Some? ==> from <= at.value < |bytes| && bytes[at.value] == b && b !in bytes[from..at.value]
    ensures at.None? ==> b !in bytes[from..]
    decreases |bytes| - from
  {
    if from == |bytes| then None
    else if bytes[from] == b then Some(from)
    else
      var at := Position(bytes, from + 1, b);
      assert bytes[from..] == [bytes[from]] + bytes[from + 1..];
      assert at.Some? ==> bytes[from..at.value] == [bytes[from]] + bytes[from + 1..at.value];
      at
  }

  /** `is_safe_to_read`, for any notion of valid UTF-8. */
  method IsSafeToRead(body: Bytes, isUtf8: Bytes -> bool) returns (safe: bool)
    ensures safe <==> isUtf8(body) && Balanced(body)
  {
    if !isUtf8(body) {
      return false;
    }
    var depth, pos := 0, 0;
    while true
      invariant 0 <= pos <= |body|
      invariant ScanFrom(Text(depth), body[pos..]) == ScanFrom(Text(0), body)
      decreases |body| - pos
    {
      var start := Position(body, pos, LT);
      if start.None? {
        TextStaysText(depth, body[pos..]);
        break;
      }
      SkipText(depth, body, pos, start.value);
      var end := Position(body, start.value, GT);
      if end.None? {
        OpenTagScans(depth, body[start.value..]);
        return false;
      }
      var tag := body[start.value..end.value + 1];
      SkipTag(depth, body, start.value, end.value);
      pos := end.value + 1;
      if tag[1] == QUESTION || tag[1] == BANG {
        continue;
      }
      if tag[1] == SLASH {
        if depth == 0 {
          BelowStaysBelow(body[pos..]);
          return false;
        }
        depth := depth - 1;
        continue;
      }
      if tag[|tag| - 2] != SLASH {
        depth := depth + 1;
      }
    }
    return depth == 0;
  }

  lemma SkipText(d: nat, body: Bytes, pos: nat, start: nat)
    requires pos <= start <= |body| && LT !in body[pos..start]
    ensures ScanFrom(Text(d), body[pos..]) == ScanFrom(Text(d), body[start..])
  {
    TextStaysText(d, body[pos..start]);
    ScanConcat(Text(d), body[pos..start], body[start..]);
    assert body[pos..] == body[pos..start] + body[start..];
  }

  lemma SkipTag(d: nat, body: Bytes, start: nat, end: nat)
    requires start <= end < |body| && body[start] == LT && body[end] == GT && GT !in body[start..end]
    ensures IsTag(body[start..end + 1])
    ensures ScanFrom(Text(d), body[start..]) == ScanFrom(AfterTag(d, body[start..end + 1]), body[end + 1..])
  {
    var tag := body[start..end + 1];
    assert tag[..|tag| - 1] == body[start..end];
    TagScans(d, tag);
    ScanConcat(Text(d), tag, body[end + 1..]);
    assert body[start..] == tag + body[end + 1..];
  }

  // ----- What a body is, tag by tag -----

  /** The finished tags of a body: each from a `<` to the next `>`. */
  function Tags(body: Bytes): seq<Bytes>
    decreases |body|
  {
    var start := Position(body, 0, LT);
    if start.None? then []
    else
      var end := Position(body, start.value, GT);
      if end.None? then [] else [body[start.value..end.value + 1]] + Tags(body[end.value + 1..])
  }

  predicate Opens(tag: Bytes) {
    |tag| >= 2 && tag[1] != QUESTION && tag[1] != BANG && tag[1] != SLASH && tag[|tag| - 2] != SLASH
  }

  predicate Closes(tag: Bytes) {
    |tag| >= 2 && tag[1] == SLASH
  }

  /** How many more of these tags open an element than close one. */
  function Depth(tags: seq<Bytes>): int {
    if tags == [] then 0 else (if Opens(tags[0]) then 1 else if Closes(tags[0]) then -1 else 0) + Depth(tags[1..])
  }

  /** From depth `d`, some of the tags close more than there is to close. */
  ghost predicate Dips(d: int, tags: seq<Bytes>) {
    exists k :: 0 <= k <= |tags| && d + Depth(tags[..k]) < 0
  }

  /** A `<` is never followed by a `>`. */
  ghost predicate UnfinishedTag(bytes: Bytes) {
    exists i :: 0 <= i < |bytes| && bytes[i] == LT && GT !in bytes[i..]
  }

  lemma DepthFirst(tag: Bytes, rest: seq<Bytes>)
    ensures Depth([tag] + rest) == Depth([tag]) + Depth(rest)
  {
    assert ([tag] + rest)[1..] == rest && [tag][1..] == [];
  }

  lemma DipsAtOnce(d: int, tags: seq<Bytes>)
    requires d < 0
    ensures Dips(d, tags)
  {
    assert tags[..0] == [];
  }

  lemma DipsFirst(d: int, tag: Bytes, rest: seq<Bytes>)
    requires d >= 0
    ensures Dips(d, [tag] + rest) <==> Dips(d + Depth([tag]), rest)
  {
    var tags := [tag] + rest;
    if Dips(d + Depth([tag]), rest) {
      var k :| 0 <= k <= |rest| && d + Depth([tag]) + Depth(rest[..k]) < 0;
      DepthFirst(tag, rest[..k]);
      assert tags[..k + 1] == [tag] + rest[..k];
    }
    if Dips(d, tags) {
      var k :| 0 <= k <= |tags| && d + Depth(tags[..k]) < 0;
      assert k > 0;
      DepthFirst(tag, rest[..k - 1]);
      assert tags[..k] == [tag] + rest[..k - 1];
    }
  }

  /** Whether a tag is unfinished is decided after the last `>`. */
  lemma UnfinishedAfter(bytes: Bytes, end: nat)
    requires end < |bytes| && bytes[end] == GT
    ensures UnfinishedTag(bytes) <==> UnfinishedTag(bytes[end + 1..])
  {
    var rest := bytes[end + 1..];
    assert forall i :: 0 <= i <= end ==> bytes[i..][end - i] == GT;
    if UnfinishedTag(bytes) {
      var i :| 0 <= i < |bytes| && bytes[i] == LT && GT !in bytes[i..];
      assert i > end;
      assert rest[i - end - 1..] == bytes[i..];
    }
    if UnfinishedTag(rest) {
      var i :| 0 <= i < |rest| && rest[i] == LT && GT !in rest[i..];
      assert bytes[end + 1 + i..] == rest[i..];
    }
  }

  /** Where the scan is after some bytes, in terms of their tags. */
  ghost predicate ScanSays(d: nat, s: Scan, bytes: Bytes) {
    && (s.Below? <==> Dips(d, Tags(bytes)))
    && (!s.Below? ==> (s.Text? <==> !UnfinishedTag(bytes)))
    && (s.Text? ==> s.depth == d + Depth(Tags(bytes)))
  }

  lemma NoTagsSay(d: nat, s: Scan, bytes: Bytes)
    requires Tags(bytes) == [] && !s.Below? && (s.Text? <==> !UnfinishedTag(bytes)) && s.depth == d
    ensures ScanSays(d, s, bytes)
  {
    assert Tags(bytes)[..0] == [];
  }

  lemma TagChangesDepth(d: nat, tag: Bytes)
    requires IsTag(tag)
    ensures AfterTag(d, tag) == if d + Depth([tag]) < 0 then Below else Text(d + Depth([tag]))
  {
    assert [tag][1..] == [];
  }

  lemma FirstTagSays(d: nat, s: Scan, bytes: Bytes, tag: Bytes, rest: Bytes)
    requires IsTag(tag) && Tags(bytes) == [tag] + Tags(rest)
    requires UnfinishedTag(bytes) <==> UnfinishedTag(rest)
    requires
      var after := AfterTag(d, tag);
      if after.Below? then s.Below? else ScanSays(after.depth, s, rest)
    ensures ScanSays(d, s, bytes)
  {
    TagChangesDepth(d, tag);
    DipsFirst(d, tag, Tags(rest));
    DepthFirst(tag, Tags(rest));
    if AfterTag(d, tag).Below? {
      DipsAtOnce(d + Depth([tag]), Tags(rest));
    }
  }

  lemma TextOnlySays(d: nat, bytes: Bytes)
    requires Position(bytes, 0, LT).None?
    ensures ScanSays(d, ScanFrom(Text(d), bytes), bytes)
  {
    assert bytes[0..] == bytes;
    TextStaysText(d, bytes);
    NoTagsSay(d, Text(d), bytes);
  }

  lemma OpenEndSays(d: nat, bytes: Bytes, start: nat)
    requires Position(bytes, 0, LT) == Some(start) && Position(bytes, start, GT).None?
    ensures ScanSays(d, ScanFrom(Text(d), bytes), bytes)
  {
    assert bytes[0..] == bytes;
    SkipText(d, bytes, 0, start);
    OpenTagScans(d, bytes[start..]);
    NoTagsSay(d, ScanFrom(Text(d), bytes), bytes);
  }

  lemma FirstTag(d: nat, bytes: Bytes, start: nat, end: nat) returns (tag: Bytes, rest: Bytes)
    requires Position(bytes, 0, LT) == Some(start) && Position(bytes, start, GT) == Some(end)
    ensures IsTag(tag) && |rest| < |bytes| && Tags(bytes) == [tag] + Tags(rest)
    ensures ScanFrom(Text(d), bytes) == ScanFrom(AfterTag(d, tag), rest)
    ensures rest == bytes[end + 1..]
  {
    tag, rest := bytes[start..end + 1], bytes[end + 1..];
    assert bytes[0..] == bytes;
    SkipText(d, bytes, 0, start);
    SkipTag(d, bytes, start, end);
  }

  /** Text, an unfinished tag at the end of it, or a first tag. */
  lemma TakeFirstTag(d: nat, bytes: Bytes) returns (more: bool, tag: Bytes, rest: Bytes)
    ensures !more ==> ScanSays(d, ScanFrom(Text(d), bytes), bytes)
    ensures more ==>
              && IsTag(tag) && |rest| < |bytes| && Tags(bytes) == [tag] + Tags(rest)
              && ScanFrom(Text(d), bytes) == ScanFrom(AfterTag(d, tag), rest)
              && (UnfinishedTag(bytes) <==> UnfinishedTag(rest))
  {
    more, tag, rest := false, [], [];
    var start := Position(bytes, 0, LT);
    if start.None? {
      TextOnlySays(d, bytes);
    } else {
      var end := Position(bytes, start.value, GT);
      if end.None? {
        OpenEndSays(d, bytes, start.value);
      } else {
        more := true;
        tag, rest := FirstTag(d, bytes, start.value, end.value);
        UnfinishedAfter(bytes, end.value);
      }
    }
  }

  /** The scan is exactly a count over the tags of the body. */
  lemma {:induction false} ScanCountsTags(d: nat, bytes: Bytes)
    ensures ScanSays(d, ScanFrom(Text(d), bytes), bytes)
    decreases |bytes|
  {
    var more, tag, rest := TakeFirstTag(d, bytes);
    if more {
      var after := AfterTag(d, tag);
      if after.Below? {
        BelowStaysBelow(rest);
      } else {
        ScanCountsTags(after.depth, rest);
      }
      FirstTagSays(d, ScanFrom(Text(d), bytes), bytes, tag, rest);
    }
  }

  /**
    What the guard accepts, without the scan: every tag is finished, no part of the body closes more
    than it opens, and the whole opens as much as it closes.
  */
  lemma BalancedExactlyWhen(body: Bytes)
    ensures Balanced(body) <==>
              && !UnfinishedTag(body) && Depth(Tags(body)) == 0
              && forall k :: 0 <= k <= |Tags(body)| ==> Depth(Tags(body)[..k]) >= 0
  {
    ScanCountsTags(0, body);
  }

  // ----- Cutting a body short -----

  /** Inside an element: below the top level, or inside the tag of a top-level element. */
  predicate Inside(s: Scan) {
    s.Element? || (!s.Below? && s.depth >= 1)
  }

  /** A top-level element ends here. */
  predicate EndsRoot(s: Scan, b: byte) {
    b == GT && (s == Closing(1) || s == Element(0, true))
  }

  /** How many top-level elements end in `bytes`. */
  function RootsFrom(s: Scan, bytes: Bytes): nat
    decreases |bytes|
  {
    if bytes == [] then 0 else (if EndsRoot(s, bytes[0]) then 1 else 0) + RootsFrom(Next(s, bytes[0]), bytes[1..])
  }

  function Roots(bytes: Bytes): nat {
    RootsFrom(Text(0), bytes)
  }

  lemma {:induction false} RootsConcat(s: Scan, a: Bytes, b: Bytes)
    ensures RootsFrom(s, a + b) == RootsFrom(s, a) + RootsFrom(ScanFrom(s, a), b)
    decreases |a|
  {
    if a == [] {
      assert a + b == b;
    } else {
      assert (a + b)[1..] == a[1..] + b;
      RootsConcat(Next(s, a[0]), a[1..], b);
    }
  }

  /** Getting out of an element to the top level ends a top-level element. */
  lemma {:induction false} LeavingEndsARoot(s: Scan, bytes: Bytes)
    requires Inside(s) && ScanFrom(s, bytes) == Text(0)
    ensures RootsFrom(s, bytes) >= 1
    decreases |bytes|
  {
    if !EndsRoot(s, bytes[0]) {
      LeavingEndsARoot(Next(s, bytes[0]), bytes[1..]);
    }
  }

  /** Balanced bytes in which no top-level element ends hold no element at all. */
  lemma NoRootMeansNoElement(bytes: Bytes, k: nat)
    requires Balanced(bytes) && Roots(bytes) == 0 && k <= |bytes|
    ensures !Inside(ScanFrom(Text(0), bytes[..k]))
  {
    var s := ScanFrom(Text(0), bytes[..k]);
    assert bytes == bytes[..k] + bytes[k..];
    ScanConcat(Text(0), bytes[..k], bytes[k..]);
    RootsConcat(Text(0), bytes[..k], bytes[k..]);
    if Inside(s) {
      LeavingEndsARoot(s, bytes[k..]);
    }
  }

  /**
    A body cut inside a tag, or where more elements are open than closed, is refused; and a cut of an
    accepted body is refused only there.
  */
  lemma CutIsRefusedExactlyWhen(body: Bytes, n: nat)
    requires n <= |body|
    ensures UnfinishedTag(body[..n]) || Depth(Tags(body[..n])) > 0 ==> !Balanced(body[..n])
    ensures Balanced(body) && !Balanced(body[..n]) ==> UnfinishedTag(body[..n]) || Depth(Tags(body[..n])) > 0
  {
    ScanCountsTags(0, body[..n]);
    if ScanFrom(Text(0), body[..n]).Below? {
      assert body == body[..n] + body[n..];
      ScanConcat(Text(0), body[..n], body[n..]);
      BelowStaysBelow(body[n..]);
    }
  }

  /**
    A document with one top-level element, cut anywhere: the part is refused, or holds the whole of
    that element, or holds nothing of it. It is never a shorter version of it.
  */
  lemma CutIsRefusedOrWhole(body: Bytes, n: nat)
    requires Balanced(body) && Roots(body) == 1 && n <= |body|
    ensures Balanced(body[..n]) <==> !UnfinishedTag(body[..n]) && Depth(Tags(body[..n])) <= 0
    ensures Balanced(body[..n]) ==>
              || (Roots(body[..n]) == 0 && forall k :: 0 <= k <= n ==> !Inside(ScanFrom(Text(0), body[..k])))
              || (Roots(body[..n]) == 1
                  && forall k :: n <= k <= |body| ==> !Inside(ScanFrom(Text(0), body[..k])))
  {
    CutIsRefusedExactlyWhen(body, n);
    if Balanced(body[..n]) {
      CutKeepsTheRoot(body, n);
    }
  }

  lemma CutKeepsTheRoot(body: Bytes, n: nat)
    requires Balanced(body) && Roots(body) == 1 && n <= |body| && Balanced(body[..n])
    ensures
      || (Roots(body[..n]) == 0 && forall k :: 0 <= k <= n ==> !Inside(ScanFrom(Text(0), body[..k])))
      || (Roots(body[..n]) == 1 && forall k :: n <= k <= |body| ==> !Inside(ScanFrom(Text(0), body[..k])))
  {
    var front, back := body[..n], body[n..];
    assert body == front + back;
    ScanConcat(Text(0), front, back);
    RootsConcat(Text(0), front, back);
    if Roots(front) == 0 {
      forall k | 0 <= k <= n
        ensures !Inside(ScanFrom(Text(0), body[..k]))
      {
        NoRootMeansNoElement(front, k);
        assert front[..k] == body[..k];
      }
    } else {
      forall k | n <= k <= |body|
        ensures !Inside(ScanFrom(Text(0), body[..k]))
      {
        NoRootMeansNoElement(back, k - n);
        ScanConcat(Text(0), front, back[..k - n]);
        assert body[..k] == front + back[..k - n];
      }
    }
  }
}
