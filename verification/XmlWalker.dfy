/**
  The cursor over a document: the reader's stream of tags, annotated with their depth, and the
  searches that turn it into "the next direct child".
*/
module XmlWalker {
  import opened Bytes

  // ----- Documents -----

  /** `raw` and `rawEnd` are the tags as written; text is as written too. */
  datatype Element = Element(name: string, raw: string, content: seq<Node>, rawEnd: string)

  datatype Node = Chars(text: string) | Child(element: Element)

  datatype Tag = Tag(name: string, level: nat, raw: string)

  datatype Event = OpenTag(tag: Tag) | CloseTag(level: nat, rawEnd: string) | Text(text: string)

  /** `is_self_closing`: read off the raw tag. */
  predicate SelfClosing(raw: string) {
    |raw| >= 2 && raw[|raw| - 2..] == "/>"
  }

  function TagOf(e: Element, level: nat): Tag {
    Tag(e.name, level, e.raw)
  }

  /** The events of an element after its opening tag: none when that tag closed itself. */
  function Inside(e: Element, level: nat): seq<Event>
    decreases e, 1
  {
    if SelfClosing(e.raw) then [] else Events(e.content, level + 1) + [CloseTag(level, e.rawEnd)]
  }

  function NodeEvents(n: Node, level: nat): seq<Event>
    decreases n, 0
  {
    match n
    case Chars(text) => [Text(text)]
    case Child(e) => [OpenTag(TagOf(e, level))] + Inside(e, level)
  }

  /** The stream of tags and text of some siblings. */
  function Events(nodes: seq<Node>, level: nat): seq<Event>
    decreases nodes, 0
  {
    if nodes == [] then [] else NodeEvents(nodes[0], level) + Events(nodes[1..], level)
  }

  /** The markup between two tags, as written. */
  function Raw(nodes: seq<Node>): string
    decreases nodes, 0
  {
    if nodes == [] then [] else RawNode(nodes[0]) + Raw(nodes[1..])
  }

  function RawNode(n: Node): string
    decreases n, 0
  {
    match n
    case Chars(text) => text
    case Child(e) => e.raw + (if SelfClosing(e.raw) then [] else Raw(e.content) + e.rawEnd)
  }

  // ----- Searches -----

  /** The next tag with one of the names, at any depth, or nothing once the parent closes. */
  function FindAny(rest: seq<Event>, level: nat, names: seq<string>): (r: (Option<Tag>, seq<Event>))
    ensures r.0.Some? ==> |r.1| < |rest|
    ensures |r.1| <= |rest|
  {
    if rest == [] then (None, [])
    else if rest[0].OpenTag? && rest[0].tag.name in names then (Some(rest[0].tag), rest[1..])
    else if rest[0].CloseTag? && rest[0].level == level then (None, rest[1..])
    else FindAny(rest[1..], level, names)
  }

  /** The next direct child with one of the names. */
  function FindDirect(rest: seq<Event>, level: nat, names: seq<string>): (r: (Option<Tag>, seq<Event>))
    ensures r.0.Some? ==> |r.1| < |rest|
  {
    if rest == [] then (None, [])
    else if rest[0].OpenTag? && rest[0].tag.name in names && rest[0].tag.level == level + 1 then
      (Some(rest[0].tag), rest[1..])
    else if rest[0].CloseTag? && rest[0].level == level then (None, rest[1..])
    else FindDirect(rest[1..], level, names)
  }

  lemma {:induction false} FindAnyThenFilter(rest: seq<Event>, level: nat, names: seq<string>)
    ensures
      var (found, left) := FindAny(rest, level, names);
      FindDirect(rest, level, names) ==
        if found.Some? && found.value.level != level + 1 then FindDirect(left, level, names) else (found, left)
  {
    if rest != [] {
      FindAnyThenFilter(rest[1..], level, names);
    }
  }

  /** What is written up to the closing tag of the level, and the stream after it. */
  function RawUntilClose(rest: seq<Event>, level: nat): (string, seq<Event>) {
    if rest == [] then ([], [])
    else
      match rest[0]
      case CloseTag(l, rawEnd) =>
        if l == level then ([], rest[1..])
        else var (more, left) := RawUntilClose(rest[1..], level); (rawEnd + more, left)
      case OpenTag(tag) => var (more, left) := RawUntilClose(rest[1..], level); (tag.raw + more, left)
      case Text(text) => var (more, left) := RawUntilClose(rest[1..], level); (text + more, left)
  }

  class Walker {
    const root: Tag
    var rest: seq<Event>

    constructor (root: Tag, rest: seq<Event>)
      ensures this.root == root && this.rest == rest
    {
      this.root, this.rest := root, rest;
    }

    /** The reader's `find_any_of_these_nodes_inside_parent`: by name alone. */
    method FindAnyInside(parent: Tag, names: seq<string>) returns (found: Option<Tag>)
      modifies this
      ensures (found, rest) == FindAny(old(rest), parent.level, names)
    {
      while rest != []
        invariant FindAny(rest, parent.level, names) == FindAny(old(rest), parent.level, names)
        decreases |rest|
      {
        var event := rest[0];
        rest := rest[1..];
        if event.OpenTag? && event.tag.name in names {
          return Some(event.tag);
        }
        if event.CloseTag? && event.level == parent.level {
          return None;
        }
      }
      return None;
    }

    /** `next_direct_child`: hits below the parent's own children do not count. */
    method NextDirectChild(parent: Tag, names: seq<string>) returns (found: Option<Tag>)
      modifies this
      ensures (found, rest) == FindDirect(old(rest), parent.level, names)
    {
      while true
        invariant FindDirect(rest, parent.level, names) == FindDirect(old(rest), parent.level, names)
        decreases |rest|
      {
        FindAnyThenFilter(rest, parent.level, names);
        found := FindAnyInside(parent, names);
        if found.None? || found.value.level == parent.level + 1 {
          return;
        }
      }
    }

    /** `next_child_of`: a parent that closed itself has no children. */
    method NextChildOf(parent: Tag, names: seq<string>) returns (found: Option<Tag>)
      modifies this
      ensures (found, rest) ==
              if SelfClosing(parent.raw) then (None, old(rest)) else FindDirect(old(rest), parent.level, names)
    {
      if SelfClosing(parent.raw) {
        return None;
      }
      found := NextDirectChild(parent, names);
    }

    /** The reader's `read_the_whole_node`; a node that closed itself has no content. */
    method ReadWholeNode(node: Tag) returns (content: string)
      modifies this
      ensures content == if SelfClosing(node.raw) then [] else RawUntilClose(old(rest), node.level).0
      ensures rest == if SelfClosing(node.raw) then old(rest) else RawUntilClose(old(rest), node.level).1
    {
      content := [];
      if SelfClosing(node.raw) {
        return;
      }
      while rest != []
        invariant content + RawUntilClose(rest, node.level).0 == RawUntilClose(old(rest), node.level).0
        invariant RawUntilClose(rest, node.level).1 == RawUntilClose(old(rest), node.level).1
        decreases |rest|
      {
        ghost var more := RawUntilClose(rest[1..], node.level).0;
        var event := rest[0];
        rest := rest[1..];
        match event {
          case CloseTag(level, rawEnd) =>
            if level == node.level {
              return;
            }
            assert content + (rawEnd + more) == content + rawEnd + more;
            content := content + rawEnd;
          case OpenTag(tag) =>
            assert content + (tag.raw + more) == content + tag.raw + more;
            content := content + tag.raw;
          case Text(text) =>
            assert content + (text + more) == content + text + more;
            content := content + text;
        }
      }
    }
  }

  // ----- The searches over a document -----

  predicate Named(n: Node, names: seq<string>) {
    n.Child? && n.element.name in names
  }

  /** A search for children passes over everything deeper than they are. */
  lemma {:induction false} SkipDeep(nodes: seq<Node>, deep: nat, level: nat, names: seq<string>, tail: seq<Event>)
    requires deep >= level + 2
    ensures FindDirect(Events(nodes, deep) + tail, level, names) == FindDirect(tail, level, names)
    decreases nodes, 1
  {
    if nodes == [] {
      assert Events(nodes, deep) + tail == tail;
    } else {
      var more := Events(nodes[1..], deep) + tail;
      assert Events(nodes, deep) + tail == NodeEvents(nodes[0], deep) + more;
      SkipDeepNode(nodes[0], deep, level, names, more);
      SkipDeep(nodes[1..], deep, level, names, tail);
    }
  }

  lemma {:induction false} SkipDeepNode(n: Node, deep: nat, level: nat, names: seq<string>, tail: seq<Event>)
    requires deep >= level + 2
    ensures FindDirect(NodeEvents(n, deep) + tail, level, names) == FindDirect(tail, level, names)
    decreases n, 1
  {
    match n
    case Chars(text) =>
      assert ([Text(text)] + tail)[1..] == tail;
    case Child(e) =>
      var open := OpenTag(TagOf(e, deep));
      assert NodeEvents(n, deep) + tail == [open] + (Inside(e, deep) + tail);
      assert ([open] + (Inside(e, deep) + tail))[1..] == Inside(e, deep) + tail;
      SkipInside(e, deep, level, names, tail);
  }

  lemma {:induction false} SkipInside(e: Element, deep: nat, level: nat, names: seq<string>, tail: seq<Event>)
    requires deep >= level + 1
    ensures FindDirect(Inside(e, deep) + tail, level, names) == FindDirect(tail, level, names)
    decreases e, 2
  {
    if SelfClosing(e.raw) {
      assert Inside(e, deep) + tail == tail;
    } else {
      var close := CloseTag(deep, e.rawEnd);
      assert Inside(e, deep) + tail == Events(e.content, deep + 1) + ([close] + tail);
      SkipDeep(e.content, deep + 1, level, names, [close] + tail);
      assert ([close] + tail)[1..] == tail;
    }
  }

  /** A sibling that is not asked for is passed over with everything in it. */
  lemma SkipSibling(n: Node, level: nat, names: seq<string>, tail: seq<Event>)
    requires !Named(n, names)
    ensures FindDirect(NodeEvents(n, level + 1) + tail, level, names) == FindDirect(tail, level, names)
  {
    match n
    case Chars(text) =>
      assert ([Text(text)] + tail)[1..] == tail;
    case Child(e) =>
      var open := OpenTag(TagOf(e, level + 1));
      assert NodeEvents(n, level + 1) + tail == [open] + (Inside(e, level + 1) + tail);
      assert ([open] + (Inside(e, level + 1) + tail))[1..] == Inside(e, level + 1) + tail;
      SkipInside(e, level + 1, level, names, tail);
  }

  lemma StopAtSibling(e: Element, level: nat, names: seq<string>, rest: seq<Event>)
    requires e.name in names
    ensures FindDirect(NodeEvents(Child(e), level + 1) + rest, level, names) ==
            (Some(TagOf(e, level + 1)), Inside(e, level + 1) + rest)
  {
    var stream := NodeEvents(Child(e), level + 1) + rest;
    assert stream[0] == OpenTag(TagOf(e, level + 1));
    assert stream[1..] == Inside(e, level + 1) + rest;
  }

  /** The stream from inside a parent on: the siblings still to come, its closing tag, the rest. */
  function Siblings(nodes: seq<Node>, level: nat, rawEnd: string, tail: seq<Event>): seq<Event> {
    Events(nodes, level + 1) + ([CloseTag(level, rawEnd)] + tail)
  }

  lemma NoSiblings(level: nat, rawEnd: string, tail: seq<Event>, names: seq<string>)
    ensures FindDirect(Siblings([], level, rawEnd, tail), level, names) == (None, tail)
  {
    var after := [CloseTag(level, rawEnd)] + tail;
    assert Siblings([], level, rawEnd, tail) == after;
    assert after[1..] == tail;
  }

  lemma FirstOfSiblings(nodes: seq<Node>, level: nat, rawEnd: string, tail: seq<Event>)
    requires nodes != []
    ensures Siblings(nodes, level, rawEnd, tail) ==
            NodeEvents(nodes[0], level + 1) + Siblings(nodes[1..], level, rawEnd, tail)
  {
    Associates(NodeEvents(nodes[0], level + 1), Events(nodes[1..], level + 1), [CloseTag(level, rawEnd)] + tail);
  }

  /**
    The cursor and the document agree: the search stops at the first sibling asked for, just inside
    it, or after the parent's closing tag when there is none.
  */
  lemma {:induction false} FindsTheNextChild(nodes: seq<Node>, level: nat, rawEnd: string, tail: seq<Event>, names: seq<string>)
    returns (k: nat)
    ensures k <= |nodes| && forall i :: 0 <= i < k ==> !Named(nodes[i], names)
    ensures k < |nodes| ==>
              && Named(nodes[k], names)
              && FindDirect(Siblings(nodes, level, rawEnd, tail), level, names) ==
                 (Some(TagOf(nodes[k].element, level + 1)),
                  Inside(nodes[k].element, level + 1) + Siblings(nodes[k + 1..], level, rawEnd, tail))
    ensures k == |nodes| ==> FindDirect(Siblings(nodes, level, rawEnd, tail), level, names) == (None, tail)
    decreases |nodes|
  {
    if nodes == [] {
      NoSiblings(level, rawEnd, tail, names);
      return 0;
    }
    var rest := Siblings(nodes[1..], level, rawEnd, tail);
    FirstOfSiblings(nodes, level, rawEnd, tail);
    if Named(nodes[0], names) {
      StopAtSibling(nodes[0].element, level, names, rest);
      return 0;
    }
    SkipSibling(nodes[0], level, names, rest);
    var j := FindsTheNextChild(nodes[1..], level, rawEnd, tail, names);
    k := j + 1;
    assert k < |nodes| ==> nodes[1..][j + 1..] == nodes[k + 1..];
  }

  // ----- Reading a node whole -----

  lemma {:induction false} RawSkip(nodes: seq<Node>, deep: nat, level: nat, tail: seq<Event>)
    requires deep > level
    ensures RawUntilClose(Events(nodes, deep) + tail, level).0 == Raw(nodes) + RawUntilClose(tail, level).0
    ensures RawUntilClose(Events(nodes, deep) + tail, level).1 == RawUntilClose(tail, level).1
    decreases nodes, 1
  {
    if nodes == [] {
      assert Events(nodes, deep) + tail == tail;
      assert Raw(nodes) + RawUntilClose(tail, level).0 == RawUntilClose(tail, level).0;
    } else {
      var rest := Events(nodes[1..], deep) + tail;
      assert Events(nodes, deep) + tail == NodeEvents(nodes[0], deep) + rest;
      RawSkipNode(nodes[0], deep, level, rest);
      RawSkip(nodes[1..], deep, level, tail);
      var more := RawUntilClose(tail, level).0;
      assert RawNode(nodes[0]) + (Raw(nodes[1..]) + more) == Raw(nodes) + more;
    }
  }

  lemma {:induction false} RawSkipNode(n: Node, deep: nat, level: nat, tail: seq<Event>)
    requires deep > level
    ensures RawUntilClose(NodeEvents(n, deep) + tail, level).0 == RawNode(n) + RawUntilClose(tail, level).0
    ensures RawUntilClose(NodeEvents(n, deep) + tail, level).1 == RawUntilClose(tail, level).1
    decreases n, 1
  {
    match n
    case Chars(text) =>
      assert ([Text(text)] + tail)[1..] == tail;
    case Child(e) =>
      var open := OpenTag(TagOf(e, deep));
      var inner := Inside(e, deep) + tail;
      assert NodeEvents(n, deep) + tail == [open] + inner;
      assert ([open] + inner)[1..] == inner;
      if SelfClosing(e.raw) {
        assert inner == tail;
        assert RawNode(n) == e.raw;
      } else {
        var close := CloseTag(deep, e.rawEnd);
        assert inner == Events(e.content, deep + 1) + ([close] + tail);
        RawSkip(e.content, deep + 1, level, [close] + tail);
        assert ([close] + tail)[1..] == tail;
        var more := RawUntilClose(tail, level).0;
        assert e.raw + (Raw(e.content) + (e.rawEnd + more)) == RawNode(n) + more;
      }
  }

  /** Reading a node gives what is written in it and leaves the cursor just after it. */
  lemma ReadsTheWholeNode(e: Element, level: nat, tail: seq<Event>)
    requires !SelfClosing(e.raw)
    ensures RawUntilClose(Inside(e, level) + tail, level).0 == Raw(e.content)
    ensures RawUntilClose(Inside(e, level) + tail, level).1 == tail
  {
    var close := CloseTag(level, e.rawEnd);
    assert Inside(e, level) + tail == Events(e.content, level + 1) + ([close] + tail);
    RawSkip(e.content, level + 1, level, [close] + tail);
    assert ([close] + tail)[1..] == tail;
    assert RawUntilClose([close] + tail, level) == ([], tail);
    assert Raw(e.content) + [] == Raw(e.content);
  }
}
