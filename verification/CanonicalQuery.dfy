/** The SigV4 canonical query string: splitting, sorting by name then value, and joining. */
module CanonicalQuery {
  import opened Bytes

  const AMPERSAND: byte := 0x26
  const EQUALS: byte := 0x3D

  datatype Pair = Pair(name: Bytes, value: Bytes)

  // ----- Splitting -----

  /** `split('&')`: always at least one piece. */
  function Split(query: Bytes): (pieces: seq<Bytes>)
    ensures |pieces| >= 1
  {
    if query == [] then [[]]
    else
      var rest := Split(query[1..]);
      if query[0] == AMPERSAND then [[]] + rest else [[query[0]] + rest[0]] + rest[1..]
  }

  function IndexOf(b: byte, s: Bytes): (k: nat)
    ensures k <= |s| && (k < |s| ==> s[k] == b) && forall i :: 0 <= i < k ==> s[i] != b
  {
    if s == [] || s[0] == b then 0 else 1 + IndexOf(b, s[1..])
  }

  /** `split_once('=')`, a piece without one being a name with no value. */
  function ToPair(piece: Bytes): Pair {
    var k := IndexOf(EQUALS, piece);
    if k < |piece| then Pair(piece[..k], piece[k + 1..]) else Pair(piece, [])
  }

  function ToPairs(pieces: seq<Bytes>): seq<Pair> {
    if pieces == [] then []
    else (if pieces[0] == [] then [] else [ToPair(pieces[0])]) + ToPairs(pieces[1..])
  }

  function Pairs(query: Bytes): seq<Pair> {
    ToPairs(Split(query))
  }

  /** A pair that splitting can give: no `&` anywhere, no `=` in the name. */
  predicate Splittable(p: Pair) {
    AMPERSAND !in p.name && AMPERSAND !in p.value && EQUALS !in p.name
  }

  predicate AllSplittable(pairs: seq<Pair>) {
    forall i :: 0 <= i < |pairs| ==> Splittable(pairs[i])
  }

  lemma {:induction false} SplitHasNoAmpersand(query: Bytes)
    ensures forall i :: 0 <= i < |Split(query)| ==> AMPERSAND !in Split(query)[i]
  {
    if query != [] {
      SplitHasNoAmpersand(query[1..]);
    }
  }

  lemma {:induction false} ToPairsAreSplittable(pieces: seq<Bytes>)
    requires forall i :: 0 <= i < |pieces| ==> AMPERSAND !in pieces[i]
    ensures AllSplittable(ToPairs(pieces))
  {
    if pieces != [] {
      ToPairsAreSplittable(pieces[1..]);
    }
  }

  lemma PairsAreSplittable(query: Bytes)
    ensures AllSplittable(Pairs(query))
  {
    SplitHasNoAmpersand(query);
    ToPairsAreSplittable(Split(query));
  }

  // ----- Joining -----

  function Text(p: Pair): Bytes {
    p.name + [EQUALS] + p.value
  }

  function Join(pairs: seq<Pair>): Bytes {
    if pairs == [] then []
    else if |pairs| == 1 then Text(pairs[0])
    else Text(pairs[0]) + [AMPERSAND] + Join(pairs[1..])
  }

  lemma {:induction false} SplitPiece(piece: Bytes)
    requires AMPERSAND !in piece
    ensures Split(piece) == [piece]
  {
    if piece != [] {
      SplitPiece(piece[1..]);
      assert [piece[0]] + piece[1..] == piece;
    }
  }

  lemma {:induction false} SplitFirst(piece: Bytes, rest: Bytes)
    requires AMPERSAND !in piece
    ensures Split(piece + [AMPERSAND] + rest) == [piece] + Split(rest)
  {
    var query := piece + [AMPERSAND] + rest;
    if piece == [] {
      assert query[1..] == rest;
    } else {
      SplitFirst(piece[1..], rest);
      assert query[1..] == piece[1..] + [AMPERSAND] + rest;
      assert [piece[0]] + piece[1..] == piece;
    }
  }

  lemma TextToPair(p: Pair)
    requires Splittable(p)
    ensures ToPair(Text(p)) == p && Text(p) != [] && AMPERSAND !in Text(p)
  {
    var k := IndexOf(EQUALS, Text(p));
    assert Text(p)[|p.name|] == EQUALS;
    assert forall i :: 0 <= i < |p.name| ==> Text(p)[i] == p.name[i];
    assert Text(p)[..k] == p.name && Text(p)[k + 1..] == p.value;
  }

  /** Splitting undoes joining. */
  lemma {:induction false} SplitUndoesJoin(pairs: seq<Pair>)
    requires AllSplittable(pairs)
    ensures Pairs(Join(pairs)) == pairs
  {
    if pairs == [] {
    } else {
      var text := Text(pairs[0]);
      TextToPair(pairs[0]);
      if |pairs| == 1 {
        SplitPiece(text);
        assert ToPairs([text]) == [pairs[0]] + ToPairs([]);
      } else {
        var rest := pairs[1..];
        SplitUndoesJoin(rest);
        SplitFirst(text, Join(rest));
        assert ([text] + Split(Join(rest)))[1..] == Split(Join(rest));
      }
      assert [pairs[0]] + pairs[1..] == pairs;
    }
  }

  lemma {:induction false} SplitConcat(a: Bytes, b: Bytes)
    ensures Split(a + [AMPERSAND] + b) == Split(a) + Split(b)
    decreases |a|
  {
    var query := a + [AMPERSAND] + b;
    if a == [] {
      assert query[1..] == b;
    } else {
      assert query[1..] == a[1..] + [AMPERSAND] + b;
      SplitConcat(a[1..], b);
    }
  }

  lemma {:induction false} ToPairsConcat(a: seq<Bytes>, b: seq<Bytes>)
    ensures ToPairs(a + b) == ToPairs(a) + ToPairs(b)
    decreases |a|
  {
    if a == [] {
      assert a + b == b;
    } else {
      assert (a + b)[1..] == a[1..] + b;
      ToPairsConcat(a[1..], b);
    }
  }

  /** Splitting goes piece by piece: what is on one side of a `&` does not matter to the other. */
  lemma PairsConcat(a: Bytes, b: Bytes)
    ensures Pairs(a + [AMPERSAND] + b) == Pairs(a) + Pairs(b)
  {
    SplitConcat(a, b);
    ToPairsConcat(Split(a), Split(b));
  }

  lemma OnePiece(piece: Bytes)
    requires AMPERSAND !in piece
    ensures Pairs(piece) == if piece == [] then [] else [ToPair(piece)]
  {
    SplitPiece(piece);
    assert ToPairs([piece]) == (if piece == [] then [] else [ToPair(piece)]) + ToPairs([]);
  }

  lemma ToPairIsExact(piece: Bytes)
    ensures
      var p := ToPair(piece);
      && EQUALS !in p.name
      && (if EQUALS in piece then piece == Text(p) else piece == p.name && p.value == [])
  {
    var k := IndexOf(EQUALS, piece);
    assert forall i :: 0 <= i < k ==> piece[..k][i] == piece[i];
    if k < |piece| {
      assert piece[k] in piece;
      assert piece == piece[..k] + [EQUALS] + piece[k + 1..];
    }
  }

  /** One piece: nothing if it is empty, otherwise a name up to its first `=`, and the rest as the value. */
  lemma PieceIsOnePair(piece: Bytes)
    requires AMPERSAND !in piece
    ensures piece == [] ==> Pairs(piece) == []
    ensures
      piece != [] ==>
        && |Pairs(piece)| == 1 && EQUALS !in Pairs(piece)[0].name
        && (if EQUALS in piece then piece == Pairs(piece)[0].name + [EQUALS] + Pairs(piece)[0].value
            else Pairs(piece)[0] == Pair(piece, []))
  {
    OnePiece(piece);
    ToPairIsExact(piece);
  }

  // ----- Sorting -----

  predicate BytesLeq(a: Bytes, b: Bytes)
    decreases |a|
  {
    a == [] || (b != [] && (a[0] < b[0] || (a[0] == b[0] && BytesLeq(a[1..], b[1..]))))
  }

  /** By name, then by value: the order of the tuple, not of the joined text. */
  predicate Leq(p: Pair, q: Pair) {
    if p.name == q.name then BytesLeq(p.value, q.value) else BytesLeq(p.name, q.name)
  }

  /** The order of byte strings: the first byte that differs decides, and a prefix comes first. */
  lemma {:induction false} BytesLeqExactlyWhen(a: Bytes, b: Bytes)
    ensures BytesLeq(a, b) <==> a <= b || exists k :: 0 <= k < |a| && k < |b| && a[..k] == b[..k] && a[k] < b[k]
    decreases |a|
  {
    if a != [] && b != [] && a[0] == b[0] {
      BytesLeqExactlyWhen(a[1..], b[1..]);
      assert a == [a[0]] + a[1..] && b == [b[0]] + b[1..];
      if k :| 0 <= k < |a[1..]| && k < |b[1..]| && a[1..][..k] == b[1..][..k] && a[1..][k] < b[1..][k] {
        assert a[..k + 1] == [a[0]] + a[1..][..k] && b[..k + 1] == [b[0]] + b[1..][..k];
        assert a[k + 1] < b[k + 1];
      }
      if k :| 0 <= k < |a| && k < |b| && a[..k] == b[..k] && a[k] < b[k] {
        assert a[1..][..k - 1] == a[..k][1..] && b[1..][..k - 1] == b[..k][1..];
        assert a[1..][k - 1] < b[1..][k - 1];
      }
    } else if a != [] && b != [] && a[0] < b[0] {
      assert a[..0] == b[..0];
    }
  }

  /** Pairs come in the order of their names, and with one name in the order of their values. */
  lemma LeqExactlyWhen(p: Pair, q: Pair)
    ensures Leq(p, q) <==> (p.name != q.name && BytesLeq(p.name, q.name)) || (p.name == q.name && BytesLeq(p.value, q.value))
  {
  }

  lemma {:induction false} BytesLeqTotal(a: Bytes, b: Bytes)
    ensures BytesLeq(a, b) || BytesLeq(b, a)
    decreases |a|
  {
    if a != [] && b != [] && a[0] == b[0] {
      BytesLeqTotal(a[1..], b[1..]);
    }
  }

  lemma {:induction false} BytesLeqAntisymmetric(a: Bytes, b: Bytes)
    requires BytesLeq(a, b) && BytesLeq(b, a)
    ensures a == b
    decreases |a|
  {
    if a != [] {
      BytesLeqAntisymmetric(a[1..], b[1..]);
      assert a == [a[0]] + a[1..] && b == [b[0]] + b[1..];
    }
  }

  lemma {:induction false} BytesLeqTransitive(a: Bytes, b: Bytes, c: Bytes)
    requires BytesLeq(a, b) && BytesLeq(b, c)
    ensures BytesLeq(a, c)
    decreases |a|
  {
    if a != [] && a[0] == b[0] && b[0] == c[0] {
      BytesLeqTransitive(a[1..], b[1..], c[1..]);
    }
  }

  lemma LeqTotal(p: Pair, q: Pair)
    ensures Leq(p, q) || Leq(q, p)
  {
    BytesLeqTotal(p.name, q.name);
    BytesLeqTotal(p.value, q.value);
  }

  lemma LeqAntisymmetric(p: Pair, q: Pair)
    requires Leq(p, q) && Leq(q, p)
    ensures p == q
  {
    if p.name == q.name {
      BytesLeqAntisymmetric(p.value, q.value);
    } else {
      BytesLeqAntisymmetric(p.name, q.name);
    }
  }

  lemma LeqTransitive(p: Pair, q: Pair, r: Pair)
    requires Leq(p, q) && Leq(q, r)
    ensures Leq(p, r)
  {
    if p.name == q.name == r.name {
      BytesLeqTransitive(p.value, q.value, r.value);
    } else {
      BytesLeqReflexive(p.name);
      BytesLeqReflexive(q.name);
      BytesLeqTransitive(p.name, q.name, r.name);
      if p.name == r.name {
        BytesLeqAntisymmetric(p.name, q.name);
      }
    }
  }

  lemma BytesLeqReflexive(a: Bytes)
    ensures BytesLeq(a, a)
  {
    BytesLeqTotal(a, a);
  }

  predicate Sorted(pairs: seq<Pair>) {
    forall i, j :: 0 <= i < j < |pairs| ==> Leq(pairs[i], pairs[j])
  }

  function Insert(p: Pair, sorted: seq<Pair>): seq<Pair> {
    if sorted == [] || Leq(p, sorted[0]) then [p] + sorted else [sorted[0]] + Insert(p, sorted[1..])
  }

  /** What `sort_unstable` gives; `SortedIsUnique` says that no sort can give anything else. */
  function Sort(pairs: seq<Pair>): seq<Pair> {
    if pairs == [] then [] else Insert(pairs[0], Sort(pairs[1..]))
  }

  lemma {:induction false} InsertSorts(p: Pair, sorted: seq<Pair>)
    requires Sorted(sorted)
    ensures Sorted(Insert(p, sorted)) && multiset(Insert(p, sorted)) == multiset{p} + multiset(sorted)
  {
    if sorted != [] {
      var head, tail := sorted[0], sorted[1..];
      assert sorted == [head] + tail;
      if Leq(p, head) {
        forall i | 0 <= i < |sorted|
          ensures Leq(p, sorted[i])
        {
          if i > 0 {
            LeqTransitive(p, head, sorted[i]);
          }
        }
      } else {
        LeqTotal(p, head);
        InsertSorts(p, tail);
        var rest := Insert(p, tail);
        forall i | 0 <= i < |rest|
          ensures Leq(head, rest[i])
        {
          assert rest[i] in multiset(rest);
        }
      }
    }
  }

  lemma {:induction false} SortSorts(pairs: seq<Pair>)
    ensures Sorted(Sort(pairs)) && multiset(Sort(pairs)) == multiset(pairs)
  {
    if pairs != [] {
      SortSorts(pairs[1..]);
      InsertSorts(pairs[0], Sort(pairs[1..]));
      assert pairs == [pairs[0]] + pairs[1..];
    }
  }

  lemma SameHead(a: seq<Pair>, b: seq<Pair>)
    requires Sorted(a) && Sorted(b) && multiset(a) == multiset(b) && a != [] && b != []
    ensures a[0] == b[0] && multiset(a[1..]) == multiset(b[1..])
  {
    assert a[0] in multiset(b) && b[0] in multiset(a);
    HeadIsLeast(a, b[0]);
    HeadIsLeast(b, a[0]);
    LeqAntisymmetric(a[0], b[0]);
    MultisetOfTail(a);
    MultisetOfTail(b);
  }

  lemma MultisetOfTail(a: seq<Pair>)
    requires a != []
    ensures multiset(a[1..]) == multiset(a) - multiset{a[0]}
  {
    assert a == [a[0]] + a[1..];
  }

  lemma TailIsSorted(a: seq<Pair>)
    requires Sorted(a) && a != []
    ensures Sorted(a[1..])
  {
  }

  /** Only one sequence is sorted and holds the given pairs. */
  lemma {:induction false} SortedIsUnique(a: seq<Pair>, b: seq<Pair>)
    requires Sorted(a) && Sorted(b) && multiset(a) == multiset(b)
    ensures a == b
    decreases |a|
  {
    assert |a| == |multiset(a)| == |multiset(b)| == |b|;
    if a != [] {
      SameHead(a, b);
      TailIsSorted(a);
      TailIsSorted(b);
      SortedIsUnique(a[1..], b[1..]);
      assert a == [a[0]] + a[1..] && b == [b[0]] + b[1..];
    }
  }

  lemma HeadIsLeast(a: seq<Pair>, p: Pair)
    requires Sorted(a) && a != [] && p in a
    ensures Leq(a[0], p)
  {
    LeqTotal(p, p);
  }

  // ----- The canonical form -----

  function Canonical(query: Bytes): Bytes {
    Join(Sort(Pairs(query)))
  }

  lemma SortKeepsSplittable(pairs: seq<Pair>)
    requires AllSplittable(pairs)
    ensures AllSplittable(Sort(pairs))
  {
    SortSorts(pairs);
    forall i | 0 <= i < |Sort(pairs)|
      ensures Splittable(Sort(pairs)[i])
    {
      assert Sort(pairs)[i] in multiset(pairs);
    }
  }

  lemma {:induction false} JoinSnoc(pairs: seq<Pair>, p: Pair)
    ensures Join(pairs + [p]) == Join(pairs) + (if pairs == [] then [] else [AMPERSAND]) + p.name + [EQUALS] + p.value
  {
    if pairs == [] {
      assert pairs + [p] == [p];
    } else {
      assert (pairs + [p])[1..] == pairs[1..] + [p];
      JoinSnoc(pairs[1..], p);
    }
  }

  /** The loop that joins the sorted pairs. */
  method JoinPairs(pairs: seq<Pair>) returns (result: Bytes)
    ensures result == Join(pairs)
  {
    result := [];
    for i := 0 to |pairs|
      invariant result == Join(pairs[..i])
    {
      var name, value := pairs[i].name, pairs[i].value;
      JoinSnoc(pairs[..i], pairs[i]);
      assert pairs[..i + 1] == pairs[..i] + [pairs[i]];
      if i > 0 {
        result := result + [AMPERSAND];
      }
      result := result + name + [EQUALS] + value;
    }
    assert pairs[..|pairs|] == pairs;
  }

  /** `canonical_query_string`: the pairs are only reordered, then joined. */
  method CanonicalQueryString(query: Option<Bytes>) returns (result: Bytes)
    ensures result == if query.Some? then Canonical(query.value) else []
  {
    if query.None? {
      return [];
    }
    if query.value == [] {
      return [];
    }
    result := JoinPairs(Sort(Pairs(query.value)));
  }

  /** Splitting the canonical form gives the pairs of the query, sorted by name and then value. */
  lemma CanonicalSplitsSorted(query: Bytes)
    ensures Pairs(Canonical(query)) == Sort(Pairs(query))
    ensures Sorted(Pairs(Canonical(query))) && multiset(Pairs(Canonical(query))) == multiset(Pairs(query))
  {
    PairsAreSplittable(query);
    SortKeepsSplittable(Pairs(query));
    SplitUndoesJoin(Sort(Pairs(query)));
    SortSorts(Pairs(query));
  }

  lemma CanonicalIsIdempotent(query: Bytes)
    ensures Canonical(Canonical(query)) == Canonical(query)
  {
    CanonicalSplitsSorted(query);
    SortSorts(Sort(Pairs(query)));
    SortedIsUnique(Sort(Sort(Pairs(query))), Sort(Pairs(query)));
  }

  /** Two queries have one canonical form exactly when they hold the same pairs. */
  lemma CanonicalDecidesEquality(a: Bytes, b: Bytes)
    ensures Canonical(a) == Canonical(b) <==> multiset(Pairs(a)) == multiset(Pairs(b))
  {
    CanonicalSplitsSorted(a);
    CanonicalSplitsSorted(b);
    if multiset(Pairs(a)) == multiset(Pairs(b)) {
      SortSorts(Pairs(a));
      SortSorts(Pairs(b));
      SortedIsUnique(Sort(Pairs(a)), Sort(Pairs(b)));
    }
  }
}
