/** The guard against the documents the walker reads: whole ones pass, and cut ones are refused. */
module XmlDocument {
  import opened Bytes
  import opened XmlWalker
  import G = XmlGuard
  import opened ListObjects

  // ----- UTF-8 -----

  function Utf8Char(c: char): (u: Bytes)
    ensures |u| >= 1 && (c as int < 0x80 ==> u == [(c as int) as byte])
    ensures c as int >= 0x80 ==> forall i :: 0 <= i < |u| ==> u[i] >= 0x80
  {
    var n := c as int;
    if n < 0x80 then [n as byte]
    else if n < 0x800 then [(0xC0 + n / 64) as byte, (0x80 + n % 64) as byte]
    else if n < 0x10000 then [(0xE0 + n / 4096) as byte, (0x80 + n / 64 % 64) as byte, (0x80 + n % 64) as byte]
    else [(0xF0 + n / 262144) as byte, (0x80 + n / 4096 % 64) as byte, (0x80 + n / 64 % 64) as byte, (0x80 + n % 64) as byte]
  }

  function Utf8(s: string): Bytes {
    if s == [] then [] else Utf8Char(s[0]) + Utf8(s[1..])
  }

  lemma {:induction false} Utf8Concat(a: string, b: string)
    ensures Utf8(a + b) == Utf8(a) + Utf8(b)
    decreases |a|
  {
    if a == [] {
      assert a + b == b;
    } else {
      assert (a + b)[1..] == a[1..] + b;
      Utf8Concat(a[1..], b);
      Associates(Utf8Char(a[0]), Utf8(a[1..]), Utf8(b));
    }
  }

  /** An ASCII byte is in the text's bytes only if its character is in the text. */
  lemma {:induction false} AsciiIsItself(s: string, c: char)
    requires c as int < 0x80 && c !in s
    ensures (c as int) as byte !in Utf8(s)
  {
    if s != [] {
      AsciiIsItself(s[1..], c);
    }
  }

  // ----- Well written documents -----

  /** `<`, at least one character, `>`, and no other `>`. */
  predicate TagShaped(raw: string) {
    |raw| >= 3 && raw[0] == '<' && raw[|raw| - 1] == '>' && '>' !in raw[..|raw| - 1]
  }

  predicate OpensElement(raw: string) {
    TagShaped(raw) && raw[1] != '?' && raw[1] != '!' && raw[1] != '/'
  }

  predicate ClosesElement(raw: string) {
    TagShaped(raw) && raw[1] == '/'
  }

  predicate WellWritten(n: Node)
    decreases n, 0
  {
    match n
    case Chars(text) => '<' !in text
    case Child(e) =>
      && OpensElement(e.raw)
      && (!SelfClosing(e.raw) ==> AllWellWritten(e.content) && ClosesElement(e.rawEnd))
  }

  predicate AllWellWritten(nodes: seq<Node>)
    decreases nodes, 0
  {
    nodes == [] || (WellWritten(nodes[0]) && AllWellWritten(nodes[1..]))
  }

  lemma NoEndInside(raw: string, inner: string)
    requires TagShaped(raw) && inner == raw[1..|raw| - 1]
    ensures G.GT !in Utf8(inner)
  {
    assert '>' !in inner by {
      assert forall i :: 0 <= i < |inner| ==> inner[i] == raw[..|raw| - 1][i + 1];
    }
    AsciiIsItself(inner, '>');
  }

  /** A tag's bytes are `<`, the bytes of what is inside, which hold no `>`, and `>`. */
  lemma TagForm(raw: string, inner: string)
    requires TagShaped(raw) && inner == raw[1..|raw| - 1]
    ensures Utf8(raw) == [G.LT] + Utf8(inner) + [G.GT] && G.GT !in Utf8(inner)
  {
    NoEndInside(raw, inner);
    assert raw == ['<'] + inner + ['>'];
    WrappedBytes(inner);
  }

  lemma WrappedBytes(inner: string)
    ensures Utf8(['<'] + inner + ['>']) == [G.LT] + Utf8(inner) + [G.GT]
  {
    var open, close := ['<'], ['>'];
    Utf8One('<');
    Utf8One('>');
    Utf8Concat(open + inner, close);
    Utf8Concat(open, inner);
  }

  /** The last byte of a text is `/` exactly when its last character is. */
  lemma LastByte(s: string)
    requires s != []
    ensures |Utf8(s)| >= 1 && (Utf8(s)[|Utf8(s)| - 1] == G.SLASH <==> s[|s| - 1] == '/')
  {
    var last := s[|s| - 1];
    assert s == s[..|s| - 1] + [last];
    Utf8Concat(s[..|s| - 1], [last]);
    Utf8One(last);
    assert Utf8(s)[|Utf8(s)| - 1] == Utf8Char(last)[|Utf8Char(last)| - 1];
  }

  /** The bytes of a tag: `<`, something else, then up to `>`. */
  lemma TagBytes(raw: string)
    requires TagShaped(raw)
    ensures
      var tag := Utf8(raw);
      && G.IsTag(tag) && |tag| >= 3
      && (raw[1] as int < 0x80 ==> tag[1] == (raw[1] as int) as byte)
      && (raw[1] as int >= 0x80 ==> tag[1] >= 0x80)
      && (tag[|tag| - 2] == G.SLASH <==> raw[|raw| - 2] == '/')
  {
    var inner := raw[1..|raw| - 1];
    TagForm(raw, inner);
    LastByte(inner);
    var tag, mid := Utf8(raw), Utf8(inner);
    assert tag[..|tag| - 1] == [G.LT] + mid;
    assert inner[0] == raw[1] && inner[|inner| - 1] == raw[|raw| - 2];
    assert tag[1] == mid[0] == Utf8Char(raw[1])[0];
    assert tag[|tag| - 2] == mid[|mid| - 1];
  }

  lemma Utf8One(c: char)
    ensures Utf8([c]) == Utf8Char(c)
  {
    assert [c][1..] == [];
    assert Utf8([c]) == Utf8Char(c) + [];
  }

  // ----- Staying inside -----

  predicate Above(s: G.Scan, floor: nat) {
    !s.Below? && s.depth >= floor
  }

  /** Reading `bytes` from `s` never leaves the level. */
  ghost predicate StaysAbove(s: G.Scan, bytes: Bytes, floor: nat) {
    forall k :: 0 <= k <= |bytes| ==> Above(G.ScanFrom(s, bytes[..k]), floor)
  }

  lemma StaysAboveConcat(s: G.Scan, a: Bytes, b: Bytes, floor: nat)
    requires StaysAbove(s, a, floor) && StaysAbove(G.ScanFrom(s, a), b, floor)
    ensures StaysAbove(s, a + b, floor)
  {
    forall k | 0 <= k <= |a + b|
      ensures Above(G.ScanFrom(s, (a + b)[..k]), floor)
    {
      if k <= |a| {
        assert (a + b)[..k] == a[..k];
      } else {
        assert (a + b)[..k] == a + b[..k - |a|];
        G.ScanConcat(s, a, b[..k - |a|]);
      }
    }
  }

  lemma TextStaysAbove(depth: nat, bytes: Bytes)
    requires G.LT !in bytes
    ensures G.ScanFrom(G.Text(depth), bytes) == G.Text(depth) && StaysAbove(G.Text(depth), bytes, depth)
  {
    G.TextStaysText(depth, bytes);
    forall k | 0 <= k <= |bytes|
      ensures Above(G.ScanFrom(G.Text(depth), bytes[..k]), depth)
    {
      G.TextStaysText(depth, bytes[..k]);
    }
  }

  /** A part of a tag is inside the tag, at the depth the tag starts at. */
  lemma PartOfTag(depth: nat, tag: Bytes, k: nat)
    requires G.IsTag(tag) && 0 < k < |tag|
    ensures var s := G.ScanFrom(G.Text(depth), tag[..k]); !s.Text? && Above(s, depth)
  {
    var part := tag[..k];
    assert G.GT !in part by {
      assert forall i :: 0 <= i < |part| ==> part[i] == tag[..|tag| - 1][i];
    }
    if k > 1 {
      var first := G.Next(G.Opened(depth), part[1]);
      assert part[1..][0] == part[1] && part[1..][1..] == part[2..];
      assert G.ScanFrom(G.Text(depth), part) == G.ScanFrom(G.Opened(depth), part[1..]) == G.ScanFrom(first, part[2..]);
      assert part[1] in part;
      G.TagRunsOn(first, part[2..]);
    } else {
      assert part == [G.LT];
      assert G.ScanFrom(G.Text(depth), part) == G.ScanFrom(G.Opened(depth), part[1..]);
    }
  }

  lemma TagStaysAbove(depth: nat, tag: Bytes, floor: nat)
    requires G.IsTag(tag) && floor <= depth && Above(G.AfterTag(depth, tag), floor)
    ensures StaysAbove(G.Text(depth), tag, floor)
  {
    forall k | 0 <= k <= |tag|
      ensures Above(G.ScanFrom(G.Text(depth), tag[..k]), floor)
    {
      if k == |tag| {
        assert tag[..k] == tag;
        G.TagScans(depth, tag);
      } else if k > 0 {
        PartOfTag(depth, tag, k);
      }
    }
  }

  lemma OpenTagScan(raw: string, depth: nat)
    requires OpensElement(raw)
    ensures G.IsTag(Utf8(raw))
    ensures G.ScanFrom(G.Text(depth), Utf8(raw)) == G.Text(if SelfClosing(raw) then depth else depth + 1)
    ensures StaysAbove(G.Text(depth), Utf8(raw), depth)
  {
    TagBytes(raw);
    var tag := Utf8(raw);
    assert SelfClosing(raw) <==> raw[|raw| - 2] == '/' by {
      assert raw[|raw| - 2..] == [raw[|raw| - 2], raw[|raw| - 1]];
      assert raw[|raw| - 2..][0] == raw[|raw| - 2];
    }
    G.TagScans(depth, tag);
    TagStaysAbove(depth, tag, depth);
  }

  /** A declaration or a doctype opens and closes nothing. */
  lemma DeclarationScan(raw: string, depth: nat)
    requires TagShaped(raw) && (raw[1] == '?' || raw[1] == '!')
    ensures G.ScanFrom(G.Text(depth), Utf8(raw)) == G.Text(depth)
  {
    TagBytes(raw);
    G.TagScans(depth, Utf8(raw));
  }

  lemma CloseTagScan(raw: string, depth: nat)
    requires ClosesElement(raw)
    ensures G.IsTag(Utf8(raw))
    ensures G.ScanFrom(G.Text(depth + 1), Utf8(raw)) == G.Text(depth)
    ensures StaysAbove(G.Text(depth + 1), Utf8(raw), depth)
  {
    TagBytes(raw);
    G.TagScans(depth + 1, Utf8(raw));
    TagStaysAbove(depth + 1, Utf8(raw), depth);
  }

  /** Siblings end at the depth they start at, and never lead out of their parent. */
  lemma {:induction false} NodesScan(nodes: seq<Node>, depth: nat)
    requires AllWellWritten(nodes)
    ensures G.ScanFrom(G.Text(depth), Utf8(Raw(nodes))) == G.Text(depth)
    ensures StaysAbove(G.Text(depth), Utf8(Raw(nodes)), depth)
    decreases nodes, 1
  {
    if nodes == [] {
      TextStaysAbove(depth, []);
    } else {
      NodeScan(nodes[0], depth);
      NodesScan(nodes[1..], depth);
      Utf8Concat(RawNode(nodes[0]), Raw(nodes[1..]));
      ScanThen(G.Text(depth), Utf8(RawNode(nodes[0])), Utf8(Raw(nodes[1..])), depth);
    }
  }

  lemma ScanThen(s: G.Scan, a: Bytes, b: Bytes, floor: nat)
    requires StaysAbove(s, a, floor) && StaysAbove(G.ScanFrom(s, a), b, floor)
    ensures StaysAbove(s, a + b, floor) && G.ScanFrom(s, a + b) == G.ScanFrom(G.ScanFrom(s, a), b)
  {
    StaysAboveConcat(s, a, b, floor);
    G.ScanConcat(s, a, b);
  }

  lemma {:induction false} NodeScan(n: Node, depth: nat)
    requires WellWritten(n)
    ensures G.ScanFrom(G.Text(depth), Utf8(RawNode(n))) == G.Text(depth)
    ensures StaysAbove(G.Text(depth), Utf8(RawNode(n)), depth)
    decreases n, 1
  {
    match n
    case Chars(text) =>
      AsciiIsItself(text, '<');
      TextStaysAbove(depth, Utf8(text));
    case Child(e) =>
      OpenTagScan(e.raw, depth);
      if SelfClosing(e.raw) {
        assert RawNode(n) == e.raw;
      } else {
        NodesScan(e.content, depth + 1);
        ElementScan(e, depth);
      }
  }

  lemma ElementScan(e: Element, depth: nat)
    requires WellWritten(Child(e)) && !SelfClosing(e.raw)
    requires G.ScanFrom(G.Text(depth + 1), Utf8(Raw(e.content))) == G.Text(depth + 1)
    requires StaysAbove(G.Text(depth + 1), Utf8(Raw(e.content)), depth + 1)
    ensures G.ScanFrom(G.Text(depth), Utf8(RawNode(Child(e)))) == G.Text(depth)
    ensures StaysAbove(G.Text(depth), Utf8(RawNode(Child(e))), depth)
  {
    OpenTagScan(e.raw, depth);
    CloseTagScan(e.rawEnd, depth);
    WrittenElement(e);
    var inner := Utf8(Raw(e.content));
    assert StaysAbove(G.Text(depth + 1), inner, depth);
    ScanThen(G.Text(depth + 1), inner, Utf8(e.rawEnd), depth);
    ScanThen(G.Text(depth), Utf8(e.raw), inner + Utf8(e.rawEnd), depth);
  }

  lemma WrittenElement(e: Element)
    requires !SelfClosing(e.raw)
    ensures Utf8(RawNode(Child(e))) == Utf8(e.raw) + (Utf8(Raw(e.content)) + Utf8(e.rawEnd))
  {
    Utf8Concat(e.raw, Raw(e.content) + e.rawEnd);
    Utf8Concat(Raw(e.content), e.rawEnd);
  }

  // ----- The document -----

  /** Inside the bytes of an element the scan is never back at the top level. */
  lemma CutRoot(e: Element, k: nat)
    requires WellWritten(Child(e)) && 0 < k < |Utf8(RawNode(Child(e)))|
    ensures G.ScanFrom(G.Text(0), Utf8(RawNode(Child(e)))[..k]) != G.Text(0)
  {
    OpenTagScan(e.raw, 0);
    if SelfClosing(e.raw) {
      assert RawNode(Child(e)) == e.raw;
      PartOfTag(0, Utf8(e.raw), k);
    } else {
      WrittenElement(e);
      NodesScan(e.content, 1);
      CloseTagScan(e.rawEnd, 0);
      CutOpened(Utf8(e.raw), Utf8(Raw(e.content)), Utf8(e.rawEnd), k);
    }
  }

  /** An opening tag, content that stays inside, a closing tag: no proper part leads back out. */
  lemma CutOpened(open: Bytes, inner: Bytes, close: Bytes, k: nat)
    requires G.IsTag(open) && G.ScanFrom(G.Text(0), open) == G.Text(1)
    requires G.ScanFrom(G.Text(1), inner) == G.Text(1) && StaysAbove(G.Text(1), inner, 1)
    requires G.IsTag(close) && 0 < k < |open| + |inner| + |close|
    ensures G.ScanFrom(G.Text(0), (open + (inner + close))[..k]) != G.Text(0)
  {
    if k < |open| {
      assert (open + (inner + close))[..k] == open[..k];
      PartOfTag(0, open, k);
    } else {
      assert (open + (inner + close))[..k] == open + (inner + close)[..k - |open|];
      G.ScanConcat(G.Text(0), open, (inner + close)[..k - |open|]);
      CutInside(inner, close, k - |open|);
    }
  }

  /** From inside the root, its content and a part of its closing tag do not lead out. */
  lemma CutInside(inner: Bytes, close: Bytes, j: nat)
    requires G.ScanFrom(G.Text(1), inner) == G.Text(1) && StaysAbove(G.Text(1), inner, 1)
    requires G.IsTag(close) && j < |inner| + |close|
    ensures G.ScanFrom(G.Text(1), (inner + close)[..j]) != G.Text(0)
  {
    if j <= |inner| {
      assert (inner + close)[..j] == inner[..j];
    } else {
      assert (inner + close)[..j] == inner + close[..j - |inner|];
      G.ScanConcat(G.Text(1), inner, close[..j - |inner|]);
      PartOfTag(1, close, j - |inner|);
    }
  }

  /** Anything balanced, the root element, anything balanced. */
  datatype Document = Document(prolog: Bytes, root: Element, epilog: Bytes)

  predicate IsDocument(d: Document) {
    G.Balanced(d.prolog) && G.Balanced(d.epilog) && WellWritten(Child(d.root))
  }

  function RootBytes(d: Document): Bytes {
    Utf8(RawNode(Child(d.root)))
  }

  function Written(d: Document): Bytes {
    d.prolog + RootBytes(d) + d.epilog
  }

  /** A document is accepted whole, and cut anywhere inside its root element it is refused. */
  lemma CutDocumentIsRefused(d: Document, n: nat)
    requires IsDocument(d)
    ensures G.Balanced(Written(d))
    ensures |d.prolog| < n < |d.prolog| + |RootBytes(d)| ==> !G.Balanced(Written(d)[..n])
  {
    var bytes := RootBytes(d);
    NodeScan(Child(d.root), 0);
    G.ScanConcat(G.Text(0), d.prolog, bytes);
    G.ScanConcat(G.Text(0), d.prolog + bytes, d.epilog);
    if |d.prolog| < n < |d.prolog| + |bytes| {
      var k := n - |d.prolog|;
      assert Written(d)[..n] == d.prolog + bytes[..k];
      G.ScanConcat(G.Text(0), d.prolog, bytes[..k]);
      CutRoot(d.root, k);
    }
  }

  /**
    A cut listing is never a shorter page: a part that is accepted stops before the root element, or
    is itself a document with the same root, and so with the same page.
  */
  lemma AcceptedCutHasTheSamePage(d: Document, n: nat)
    requires IsDocument(d) && |d.prolog| < n <= |Written(d)| && G.Balanced(Written(d)[..n])
    ensures exists c: Document ::
              && IsDocument(c) && Written(c) == Written(d)[..n]
              && c.root == d.root && PageOf(c.root) == PageOf(d.root)
  {
    CutDocumentIsRefused(d, n);
    var front := d.prolog + RootBytes(d);
    var c := d.(epilog := d.epilog[..n - |front|]);
    assert Written(d)[..n] == front + c.epilog;
    NodeScan(Child(d.root), 0);
    G.ScanConcat(G.Text(0), d.prolog, RootBytes(d));
    G.ScanConcat(G.Text(0), front, c.epilog);
    assert IsDocument(c) && Written(c) == Written(d)[..n];
  }
}
