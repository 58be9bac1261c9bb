/** The bytes of a document, or of any part of it that is itself a document, determine its page. */
module XmlUnique {
  import opened Bytes
  import opened XmlWalker
  import opened XmlDocument
  import opened ListObjects
  import G = XmlGuard

  // ----- Documents as a parser makes them -----

  /**
    What a parser makes of a text: names are read off the opening tags, by whatever rule, text is in
    one piece, and an element that closes itself holds nothing.
  */
  predicate Parsed(n: Node, nameOf: string -> string)
    decreases n, 0
  {
    match n
    case Chars(text) => text != []
    case Child(e) =>
      && e.name == nameOf(e.raw)
      && (if SelfClosing(e.raw) then e.content == [] && e.rawEnd == [] else AllParsed(e.content, nameOf))
  }

  predicate AllParsed(nodes: seq<Node>, nameOf: string -> string)
    decreases nodes, 0
  {
    nodes != [] ==>
      && Parsed(nodes[0], nameOf) && AllParsed(nodes[1..], nameOf)
      && (|nodes| > 1 && nodes[0].Chars? ==> nodes[1].Child?)
  }

  // ----- Reading one piece -----

  /** What comes before the first `c`, and what comes after it. */
  lemma {:induction false} SplitAtFirst<T>(a: seq<T>, b: seq<T>, c: T, x: seq<T>, y: seq<T>)
    requires c !in a && c !in b && a + ([c] + x) == b + ([c] + y)
    ensures a == b && x == y
  {
    var s := a + ([c] + x);
    assert s[|a|] == c && s[|b|] == c;
    assert forall i :: 0 <= i < |a| ==> s[i] == a[i];
    assert forall i :: 0 <= i < |b| ==> s[i] == b[i];
    assert |a| == |b|;
    assert a == s[..|a|] && b == s[..|b|];
    assert x == s[|a| + 1..] && y == s[|b| + 1..];
  }

  lemma TagSplits(r: string, x: string, q: string, y: string)
    requires TagShaped(r) && TagShaped(q) && r + x == q + y
    ensures r == q && x == y
  {
    var a, b := r[..|r| - 1], q[..|q| - 1];
    assert r == a + ['>'] && q == b + ['>'];
    assert r + x == a + (['>'] + x) && q + y == b + (['>'] + y);
    SplitAtFirst(a, b, '>', x, y);
  }

  lemma TextSplits(t: string, x: string, u: string, y: string)
    requires '<' !in t && '<' !in u && x != [] && x[0] == '<' && y != [] && y[0] == '<' && t + x == u + y
    ensures t == u && x == y
  {
    assert x == ['<'] + x[1..] && y == ['<'] + y[1..];
    SplitAtFirst(t, u, '<', x[1..], y[1..]);
  }

  // ----- Reading a tree -----

  predicate ClosesNext(x: string) {
    |x| >= 2 && x[0] == '<' && x[1] == '/'
  }

  /** What some siblings and the parent's closing tag start with tells which kind of node is first. */
  lemma FirstCharacters(nodes: seq<Node>, nameOf: string -> string, x: string)
    requires AllWellWritten(nodes) && AllParsed(nodes, nameOf) && ClosesNext(x)
    ensures
      var s := Raw(nodes) + x;
      && |s| >= 2
      && (nodes == [] <==> s[0] == '<' && s[1] == '/')
      && (nodes != [] && nodes[0].Child? <==> s[0] == '<' && s[1] != '/')
  {
    if nodes != [] {
      match nodes[0]
      case Chars(text) => assert Raw(nodes)[0] == text[0];
      case Child(e) => assert Raw(nodes)[0] == e.raw[0] && Raw(nodes)[1] == e.raw[1];
    }
  }

  lemma RawFirst(nodes: seq<Node>, x: string)
    requires nodes != []
    ensures Raw(nodes) + x == RawNode(nodes[0]) + (Raw(nodes[1..]) + x)
  {
    Associates(RawNode(nodes[0]), Raw(nodes[1..]), x);
  }

  /** What follows the text of a first node starts with a tag. */
  lemma TagFollowsText(nodes: seq<Node>, nameOf: string -> string, x: string)
    requires nodes != [] && nodes[0].Chars? && ClosesNext(x)
    requires AllWellWritten(nodes) && AllParsed(nodes, nameOf)
    ensures Raw(nodes[1..]) + x != [] && (Raw(nodes[1..]) + x)[0] == '<'
  {
    FirstCharacters(nodes[1..], nameOf, x);
  }

  /** Two readings of one text as siblings up to a closing tag are the same. */
  lemma {:induction false} SiblingsAreUnique(a: seq<Node>, b: seq<Node>, nameOf: string -> string, x: string, y: string)
    requires AllWellWritten(a) && AllWellWritten(b) && AllParsed(a, nameOf) && AllParsed(b, nameOf)
    requires ClosesNext(x) && ClosesNext(y) && Raw(a) + x == Raw(b) + y
    ensures a == b && x == y
    decreases a, 1
  {
    FirstCharacters(a, nameOf, x);
    FirstCharacters(b, nameOf, y);
    if a == [] {
      assert Raw(a) + x == x && Raw(b) + y == y;
    } else {
      RawFirst(a, x);
      RawFirst(b, y);
      if a[0].Chars? {
        TagFollowsText(a, nameOf, x);
        TagFollowsText(b, nameOf, y);
        TextSplits(a[0].text, Raw(a[1..]) + x, b[0].text, Raw(b[1..]) + y);
      } else {
        ElementIsUnique(a[0].element, b[0].element, nameOf, Raw(a[1..]) + x, Raw(b[1..]) + y);
      }
      SiblingsAreUnique(a[1..], b[1..], nameOf, x, y);
      assert a == [a[0]] + a[1..] && b == [b[0]] + b[1..];
    }
  }

  /** Two readings of one text as an element are the same, and stop at the same place. */
  lemma {:induction false} ElementIsUnique(e: Element, f: Element, nameOf: string -> string, x: string, y: string)
    requires WellWritten(Child(e)) && WellWritten(Child(f)) && Parsed(Child(e), nameOf) && Parsed(Child(f), nameOf)
    requires RawNode(Child(e)) + x == RawNode(Child(f)) + y
    ensures e == f && x == y
    decreases Child(e), 2
  {
    RawElement(e, x);
    RawElement(f, y);
    TagSplits(e.raw, AfterOpen(e, x), f.raw, AfterOpen(f, y));
    if !SelfClosing(e.raw) {
      SiblingsAreUnique(e.content, f.content, nameOf, e.rawEnd + x, f.rawEnd + y);
      TagSplits(e.rawEnd, x, f.rawEnd, y);
    }
  }

  /** What is written after the opening tag of an element. */
  function AfterOpen(e: Element, x: string): string {
    if SelfClosing(e.raw) then x else Raw(e.content) + (e.rawEnd + x)
  }

  lemma RawElement(e: Element, x: string)
    ensures RawNode(Child(e)) + x == e.raw + AfterOpen(e, x)
  {
    if SelfClosing(e.raw) {
      assert RawNode(Child(e)) == e.raw;
    } else {
      Associates(e.raw, Raw(e.content) + e.rawEnd, x);
      Associates(Raw(e.content), e.rawEnd, x);
    }
  }

  // ----- UTF-8 can be read back -----

  /** The character a byte sequence starts with. */
  function CodeOf(u: Bytes): int
    requires |u| >= 4
  {
    var a, b, c, d := u[0] as int, u[1] as int - 0x80, u[2] as int - 0x80, u[3] as int - 0x80;
    if a < 0x80 then a
    else if a < 0xE0 then (a - 0xC0) * 64 + b
    else if a < 0xF0 then (a - 0xE0) * 4096 + b * 64 + c
    else (a - 0xF0) * 262144 + b * 4096 + c * 64 + d
  }

  lemma CharIsRead(c: char, x: Bytes)
    requires |x| >= 3
    ensures CodeOf(Utf8Char(c) + x) == c as int
  {
    var n := c as int;
    assert n == n / 64 * 64 + n % 64;
    assert n / 64 == n / 4096 * 64 + n / 64 % 64;
    assert n / 4096 == n / 262144 * 64 + n / 4096 % 64;
  }

  lemma SameFirstChar(a: char, x: Bytes, b: char, y: Bytes)
    requires Utf8Char(a) + x == Utf8Char(b) + y
    ensures a == b && x == y
  {
    var pad: Bytes := [0, 0, 0];
    Associates(Utf8Char(a), x, pad);
    Associates(Utf8Char(b), y, pad);
    CharIsRead(a, x + pad);
    CharIsRead(b, y + pad);
    assert x == (Utf8Char(a) + x)[|Utf8Char(a)|..];
    assert y == (Utf8Char(b) + y)[|Utf8Char(b)|..];
  }

  lemma {:induction false} Utf8IsInjective(a: string, b: string)
    requires Utf8(a) == Utf8(b)
    ensures a == b
  {
    if a != [] && b != [] {
      SameFirstChar(a[0], Utf8(a[1..]), b[0], Utf8(b[1..]));
      Utf8IsInjective(a[1..], b[1..]);
      assert a == [a[0]] + a[1..] && b == [b[0]] + b[1..];
    }
  }

  // ----- Finding the root in the bytes -----

  /** The first two bytes of an element. */
  lemma RootStarts(e: Element)
    requires WellWritten(Child(e))
    ensures
      var r := Utf8(RawNode(Child(e)));
      |r| >= 3 && r[0] == G.LT && G.Next(G.Opened(0), r[1]) == G.Element(0, false)
  {
    var rest := RawNode(Child(e))[|e.raw|..];
    assert RawNode(Child(e)) == e.raw + rest;
    Utf8Concat(e.raw, rest);
    TagBytes(e.raw);
    var tag := Utf8(e.raw);
    assert tag[1] != G.GT by {
      assert tag[1] in tag[..|tag| - 1];
    }
  }

  /** A prolog ends before the first element starts. */
  lemma PrologEnds(bytes: Bytes, p: Bytes, b: byte, q: Bytes)
    requires p + [G.LT, b] <= bytes && q <= bytes && G.Next(G.Opened(0), b) == G.Element(0, false)
    requires G.Balanced(p) && G.Balanced(q) && G.Roots(q) == 0
    ensures |q| <= |p|
  {
    var n := |p|;
    assert bytes[..n + 1] == p + [G.LT] && bytes[..n + 2] == (p + [G.LT]) + [b];
    assert [G.LT][1..] == [] && [b][1..] == [];
    G.ScanConcat(G.Text(0), p, [G.LT]);
    G.ScanConcat(G.Text(0), p + [G.LT], [b]);
    assert q == bytes[..|q|];
    if |q| > n + 1 {
      assert q[..n + 2] == bytes[..n + 2];
      G.NoRootMeansNoElement(q, n + 2);
    }
  }

  lemma DocumentStarts(d: Document, bytes: Bytes) returns (b: byte)
    requires IsDocument(d) && Written(d) <= bytes
    ensures d.prolog + [G.LT, b] <= bytes && G.Next(G.Opened(0), b) == G.Element(0, false)
  {
    RootStarts(d.root);
    var r := RootBytes(d);
    b := r[1];
    assert r[..2] == [G.LT, b];
    assert Written(d)[..|d.prolog| + 2] == d.prolog + r[..2];
  }

  /** An element that starts the same bytes is not shorter than another that does. */
  lemma NotShorter(bytes: Bytes, e: Element, f: Element)
    requires WellWritten(Child(e)) && WellWritten(Child(f))
    requires Utf8(RawNode(Child(e))) <= bytes && Utf8(RawNode(Child(f))) <= bytes
    ensures |Utf8(RawNode(Child(e)))| >= |Utf8(RawNode(Child(f)))|
  {
    var r, q := Utf8(RawNode(Child(e))), Utf8(RawNode(Child(f)));
    RootStarts(e);
    NodeScan(Child(e), 0);
    assert r == bytes[..|r|] && q == bytes[..|q|];
    if |r| < |q| {
      assert q[..|r|] == r;
      CutRoot(f, |r|);
    }
  }

  /** A document as it is parsed, with no element before its root. */
  predicate IsParsedDocument(d: Document, nameOf: string -> string) {
    IsDocument(d) && G.Roots(d.prolog) == 0 && Parsed(Child(d.root), nameOf)
  }

  lemma RootBytesAgree(c: Document, d: Document, nameOf: string -> string)
    requires IsParsedDocument(c, nameOf) && IsParsedDocument(d, nameOf) && Written(c) <= Written(d)
    ensures RootBytes(c) == RootBytes(d)
  {
    var bytes := Written(d);
    var b := DocumentStarts(c, bytes);
    PrologEnds(bytes, c.prolog, b, d.prolog);
    b := DocumentStarts(d, bytes);
    PrologEnds(bytes, d.prolog, b, c.prolog);
    var n := |d.prolog|;
    assert RootBytes(c) <= bytes[n..] by {
      assert RootBytes(c) == Written(c)[n..n + |RootBytes(c)|] == bytes[n..n + |RootBytes(c)|];
    }
    assert RootBytes(d) <= bytes[n..] by {
      assert RootBytes(d) == bytes[n..n + |RootBytes(d)|];
    }
    NotShorter(bytes[n..], c.root, d.root);
    NotShorter(bytes[n..], d.root, c.root);
  }

  /**
    A cut listing is never another page: whatever document is written with the first bytes of a
    document - all of them, or any part - it has the same root, and so the same page.
  */
  lemma CutDocumentHasTheSamePage(c: Document, d: Document, nameOf: string -> string)
    requires IsParsedDocument(c, nameOf) && IsParsedDocument(d, nameOf) && Written(c) <= Written(d)
    ensures c.root == d.root && PageOf(c.root) == PageOf(d.root)
  {
    RootBytesAgree(c, d, nameOf);
    Utf8IsInjective(RawNode(Child(c.root)), RawNode(Child(d.root)));
    ElementIsUnique(c.root, d.root, nameOf, [], []);
  }
}
