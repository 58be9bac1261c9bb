/** Reading a `ListObjectsV2` answer with the cursor, and what the answer says structurally. */
module ListObjects {
  import opened Bytes
  import opened XmlText
  import opened XmlWalker
  import opened Decimals

  datatype ListError =
    | MissingElement(name: string)
    | BadSize(text: string)
    | NoPrefix
    | TruncatedWithoutToken

  datatype ObjectInfo = ObjectInfo(key: string, size: nat, lastModified: string, etag: Option<string>)

  datatype Page = Page(commonPrefixes: seq<string>, objects: seq<ObjectInfo>, nextToken: Option<string>)

  // ----- Values -----

  /** Unicode white space, as `trim` removes it. */
  predicate IsWhite(c: char) {
    var n := c as int;
    || 0x09 <= n <= 0x0D || n == 0x20 || n == 0x85 || n == 0xA0 || n == 0x1680 || 0x2000 <= n <= 0x200A
    || n == 0x2028 || n == 0x2029 || n == 0x202F || n == 0x205F || n == 0x3000
  }

  function Trimmed(s: string): string {
    if s == [] then []
    else if IsWhite(s[0]) then Trimmed(s[1..])
    else if IsWhite(s[|s| - 1]) then Trimmed(s[..|s| - 1])
    else s
  }

  /** `str::parse::<u64>`, which takes a leading `+`. */
  function ParseU64(s: string): Option<nat> {
    var digits := if s != [] && s[0] == '+' then s[1..] else s;
    if digits == [] || !AllDigits(digits) || DigitsValue(digits) > U64_MAX then None else Some(DigitsValue(digits))
  }

  function Lower(c: char): char {
    if 'A' <= c <= 'Z' then ((c as int) + 32) as char else c
  }

  predicate SaysTrue(s: string) {
    var t := Trimmed(s);
    |t| == 4 && Lower(t[0]) == 't' && Lower(t[1]) == 'r' && Lower(t[2]) == 'u' && Lower(t[3]) == 'e'
  }

  // ----- What a document says -----

  function TextOf(e: Element): string {
    if SelfClosing(e.raw) then [] else Unescaped(Predefined(), Raw(e.content))
  }

  function Children(e: Element): seq<Node> {
    if SelfClosing(e.raw) then [] else e.content
  }

  predicate Is(n: Node, name: string) {
    n.Child? && n.element.name == name
  }

  function OrElse<T>(a: Option<T>, b: Option<T>): Option<T> {
    if a.Some? then a else b
  }

  /** The text of the last of these siblings with the name. */
  function LastText(nodes: seq<Node>, name: string): Option<string> {
    if nodes == [] then None
    else OrElse(LastText(nodes[1..], name), if Is(nodes[0], name) then Some(TextOf(nodes[0].element)) else None)
  }

  /** The texts of all of these siblings with the name, in order. */
  function Texts(nodes: seq<Node>, name: string): seq<string> {
    if nodes == [] then []
    else (if Is(nodes[0], name) then [TextOf(nodes[0].element)] else []) + Texts(nodes[1..], name)
  }

  /** The fields of one object, checked in the order of the source. */
  function CheckedObject(key: Option<string>, size: Option<string>, lastModified: Option<string>, etag: Option<string>)
    : Result<ObjectInfo, ListError>
  {
    if key.None? then Err(MissingElement("Key"))
    else if lastModified.None? then Err(MissingElement("LastModified"))
    else if size.None? then Err(MissingElement("Size"))
    else if ParseU64(Trimmed(size.value)).None? then Err(BadSize(size.value))
    else Ok(ObjectInfo(key.value, ParseU64(Trimmed(size.value)).value, lastModified.value, etag))
  }

  /** What a `<Contents>` says: its direct children only, the last of each name. */
  function ObjectOf(e: Element): Result<ObjectInfo, ListError> {
    var nodes := Children(e);
    CheckedObject(LastText(nodes, "Key"), LastText(nodes, "Size"), LastText(nodes, "LastModified"), LastText(nodes, "ETag"))
  }

  /** What a `<CommonPrefixes>` says: every direct `<Prefix>`, and at least one. */
  function PrefixesOf(e: Element): Result<seq<string>, ListError> {
    var texts := Texts(Children(e), "Prefix");
    if texts == [] then Err(NoPrefix) else Ok(texts)
  }

  // ----- The cursor -----

  /** The cursor is inside `parent`, before `nodes`; `tail` follows the parent. */
  ghost predicate CursorAt(rest: seq<Event>, parent: Tag, nodes: seq<Node>, rawEnd: string, tail: seq<Event>) {
    if SelfClosing(parent.raw) then nodes == [] && rest == tail
    else rest == Siblings(nodes, parent.level, rawEnd, tail)
  }

  lemma CursorEnters(e: Element, level: nat, tail: seq<Event>)
    ensures CursorAt(Inside(e, level) + tail, TagOf(e, level), Children(e), e.rawEnd, tail)
  {
    if SelfClosing(e.raw) {
      assert Inside(e, level) + tail == tail;
    } else {
      var close := [CloseTag(level, e.rawEnd)];
      assert Events(e.content, level + 1) + close + tail == Events(e.content, level + 1) + (close + tail);
    }
  }

  /** `next_child` and `next_child_of` on a document: the first of `nodes` with one of the names. */
  method NextChild(w: Walker, parent: Tag, names: seq<string>,
                   ghost nodes: seq<Node>, ghost rawEnd: string, ghost tail: seq<Event>)
    returns (found: Option<Tag>, ghost k: nat)
    requires CursorAt(w.rest, parent, nodes, rawEnd, tail)
    modifies w
    ensures k <= |nodes| && forall i :: 0 <= i < k ==> !Named(nodes[i], names)
    ensures if k < |nodes| then
              && Named(nodes[k], names) && found == Some(TagOf(nodes[k].element, parent.level + 1))
              && !SelfClosing(parent.raw)
              && w.rest == Inside(nodes[k].element, parent.level + 1) + Siblings(nodes[k + 1..], parent.level, rawEnd, tail)
            else found.None? && w.rest == tail
  {
    found := w.NextChildOf(parent, names);
    k := 0;
    if !SelfClosing(parent.raw) {
      k := FindsTheNextChild(nodes, parent.level, rawEnd, tail, names);
    }
  }

  /** `read_text`: consumes the node and decodes what is written in it. */
  method ReadText(w: Walker, node: Tag, ghost e: Element, ghost tail: seq<Event>) returns (text: string)
    requires node == TagOf(e, node.level) && w.rest == Inside(e, node.level) + tail
    modifies w
    ensures text == TextOf(e) && w.rest == tail
  {
    if !SelfClosing(e.raw) {
      ReadsTheWholeNode(e, node.level, tail);
    }
    var content := w.ReadWholeNode(node);
    text := Unescape(Predefined(), content);
  }

  // ----- One object -----

  lemma {:induction false} SkipUnnamed(nodes: seq<Node>, k: nat, names: seq<string>, name: string)
    requires k <= |nodes| && name in names && forall i :: 0 <= i < k ==> !Named(nodes[i], names)
    ensures LastText(nodes, name) == LastText(nodes[k..], name) && Texts(nodes, name) == Texts(nodes[k..], name)
  {
    if k > 0 {
      SkipUnnamed(nodes[1..], k - 1, names, name);
      assert nodes[1..][k - 1..] == nodes[k..];
    }
  }

  const OBJECT_ELEMENTS := ["Key", "Size", "LastModified", "ETag"]

  /** Moving past the sibling found: what the rest says, after what it says. */
  lemma LastTextStep(nodes: seq<Node>, k: nat, name: string)
    requires k < |nodes| && nodes[k].Child? && name in OBJECT_ELEMENTS
    requires forall i :: 0 <= i < k ==> !Named(nodes[i], OBJECT_ELEMENTS)
    ensures LastText(nodes, name) == OrElse(LastText(nodes[k + 1..], name),
                                            if nodes[k].element.name == name then Some(TextOf(nodes[k].element)) else None)
  {
    SkipUnnamed(nodes, k, OBJECT_ELEMENTS, name);
    assert nodes[k..][1..] == nodes[k + 1..];
  }

  lemma LastTextNone(nodes: seq<Node>, name: string)
    requires name in OBJECT_ELEMENTS && forall i :: 0 <= i < |nodes| ==> !Named(nodes[i], OBJECT_ELEMENTS)
    ensures LastText(nodes, name).None?
  {
    SkipUnnamed(nodes, |nodes|, OBJECT_ELEMENTS, name);
  }

  /** `read_object`. */
  method ReadObject(w: Walker, contents: Tag, ghost e: Element, ghost tail: seq<Event>)
    returns (r: Result<ObjectInfo, ListError>)
    requires contents == TagOf(e, contents.level) && w.rest == Inside(e, contents.level) + tail
    modifies w
    ensures r == ObjectOf(e) && w.rest == tail
  {
    var key: Option<string>, size: Option<string> := None, None;
    var lastModified: Option<string>, etag: Option<string> := None, None;
    ghost var nodes := Children(e);
    CursorEnters(e, contents.level, tail);
    while true
      invariant CursorAt(w.rest, contents, nodes, e.rawEnd, tail)
      invariant OrElse(LastText(nodes, "Key"), key) == LastText(Children(e), "Key")
      invariant OrElse(LastText(nodes, "Size"), size) == LastText(Children(e), "Size")
      invariant OrElse(LastText(nodes, "LastModified"), lastModified) == LastText(Children(e), "LastModified")
      invariant OrElse(LastText(nodes, "ETag"), etag) == LastText(Children(e), "ETag")
      decreases |nodes|
    {
      var field, k := NextChild(w, contents, OBJECT_ELEMENTS, nodes, e.rawEnd, tail);
      if field.None? {
        LastTextNone(nodes, "Key");
        LastTextNone(nodes, "Size");
        LastTextNone(nodes, "LastModified");
        LastTextNone(nodes, "ETag");
        break;
      }
      LastTextStep(nodes, k, "Key");
      LastTextStep(nodes, k, "Size");
      LastTextStep(nodes, k, "LastModified");
      LastTextStep(nodes, k, "ETag");
      var value := ReadText(w, field.value, nodes[k].element, Siblings(nodes[k + 1..], contents.level, e.rawEnd, tail));
      match field.value.name {
        case "Key" => key := Some(value);
        case "Size" => size := Some(value);
        case "LastModified" => lastModified := Some(value);
        case "ETag" => etag := Some(value);
        case _ =>
      }
      nodes := nodes[k + 1..];
    }
    r := CheckedObject(key, size, lastModified, etag);
  }

  /** `read_common_prefixes`. */
  method ReadCommonPrefixes(w: Walker, node: Tag, ghost e: Element, ghost tail: seq<Event>)
    returns (r: Result<seq<string>, ListError>)
    requires node == TagOf(e, node.level) && w.rest == Inside(e, node.level) + tail
    modifies w
    ensures r == PrefixesOf(e) && w.rest == tail
  {
    var dest: seq<string> := [];
    ghost var nodes := Children(e);
    CursorEnters(e, node.level, tail);
    while true
      invariant CursorAt(w.rest, node, nodes, e.rawEnd, tail)
      invariant dest + Texts(nodes, "Prefix") == Texts(Children(e), "Prefix")
      decreases |nodes|
    {
      var found, k := NextChild(w, node, ["Prefix"], nodes, e.rawEnd, tail);
      SkipUnnamed(nodes, k, ["Prefix"], "Prefix");
      if found.None? {
        break;
      }
      assert nodes[k..][1..] == nodes[k + 1..];
      var text := ReadText(w, found.value, nodes[k].element, Siblings(nodes[k + 1..], node.level, e.rawEnd, tail));
      dest := dest + [text];
      nodes := nodes[k + 1..];
    }
    assert dest + [] == dest;
    r := if dest == [] then Err(NoPrefix) else Ok(dest);
  }

  // ----- The page -----

  const PAGE_ELEMENTS := ["Contents", "CommonPrefixes", "IsTruncated", "NextContinuationToken"]

  /** What some root children say, read in document order: later scalars win, the first error counts. */
  datatype Said = Said(
    error: Option<ListError>,
    objects: seq<ObjectInfo>,
    prefixes: seq<string>,
    truncated: Option<bool>,
    token: Option<string>)

  const NOTHING := Said(None, [], [], None, None)

  function Then(a: Said, b: Said): Said {
    Said(OrElse(a.error, b.error), a.objects + b.objects, a.prefixes + b.prefixes,
         OrElse(b.truncated, a.truncated), OrElse(b.token, a.token))
  }

  function SaidByChild(e: Element): Said {
    if e.name == "Contents" then
      var o := ObjectOf(e);
      if o.Ok? then NOTHING.(objects := [o.value]) else NOTHING.(error := Some(o.error))
    else if e.name == "CommonPrefixes" then
      var p := PrefixesOf(e);
      if p.Ok? then NOTHING.(prefixes := p.value) else NOTHING.(error := Some(p.error))
    else if e.name == "IsTruncated" then NOTHING.(truncated := Some(SaysTrue(TextOf(e))))
    else if e.name == "NextContinuationToken" && TextOf(e) != [] then NOTHING.(token := Some(TextOf(e)))
    else NOTHING
  }

  function SaidBy(n: Node): Said {
    if n.Child? then SaidByChild(n.element) else NOTHING
  }

  function SaidByAll(nodes: seq<Node>): Said {
    if nodes == [] then NOTHING else Then(SaidBy(nodes[0]), SaidByAll(nodes[1..]))
  }

  function PageFrom(said: Said): Result<Page, ListError> {
    if said.error.Some? then Err(said.error.value)
    else if said.truncated != Some(true) then Ok(Page(said.prefixes, said.objects, None))
    else if said.token.None? then Err(TruncatedWithoutToken)
    else Ok(Page(said.prefixes, said.objects, said.token))
  }

  /** The page a listing says, by structural recursion over the direct children of its root. */
  function PageOf(root: Element): Result<Page, ListError> {
    PageFrom(SaidByAll(Children(root)))
  }

  lemma ThenAssociates(a: Said, b: Said, c: Said)
    ensures Then(Then(a, b), c) == Then(a, Then(b, c))
    ensures Then(a, NOTHING) == a && Then(NOTHING, a) == a
  {
  }

  lemma UnlistedSaysNothing(n: Node)
    requires !Named(n, PAGE_ELEMENTS)
    ensures SaidBy(n) == NOTHING
  {
    assert forall name :: name in PAGE_ELEMENTS <==>
             name == "Contents" || name == "CommonPrefixes" || name == "IsTruncated" || name == "NextContinuationToken";
  }

  lemma {:induction false} SkipUnlisted(nodes: seq<Node>, k: nat)
    requires k <= |nodes| && forall i :: 0 <= i < k ==> !Named(nodes[i], PAGE_ELEMENTS)
    ensures SaidByAll(nodes) == SaidByAll(nodes[k..])
  {
    if k > 0 {
      UnlistedSaysNothing(nodes[0]);
      SkipUnlisted(nodes[1..], k - 1);
      assert nodes[1..][k - 1..] == nodes[k..];
      ThenAssociates(SaidByAll(nodes[1..]), NOTHING, NOTHING);
    }
  }

  /** What the loop has read, then what the child found says, then what the rest says. */
  lemma SaidStep(acc: Said, nodes: seq<Node>, k: nat)
    requires k < |nodes| && nodes[k].Child? && forall i :: 0 <= i < k ==> !Named(nodes[i], PAGE_ELEMENTS)
    ensures Then(acc, SaidByAll(nodes)) == Then(Then(acc, SaidByChild(nodes[k].element)), SaidByAll(nodes[k + 1..]))
  {
    SkipUnlisted(nodes, k);
    assert nodes[k..][1..] == nodes[k + 1..];
    ThenAssociates(acc, SaidByChild(nodes[k].element), SaidByAll(nodes[k + 1..]));
  }

  /** One root child: what `node` says, added to what was read before it. */
  method ReadPageChild(w: Walker, node: Tag, acc: Said, ghost e: Element, ghost tail: seq<Event>) returns (said: Said)
    requires node == TagOf(e, node.level) && w.rest == Inside(e, node.level) + tail && acc.error.None?
    requires Named(Child(e), PAGE_ELEMENTS)
    modifies w
    ensures said == Then(acc, SaidByChild(e)) && w.rest == tail
  {
    said := acc;
    if node.name == "Contents" {
      var o := ReadObject(w, node, e, tail);
      said := if o.Ok? then acc.(objects := acc.objects + [o.value]) else acc.(error := Some(o.error));
    } else if node.name == "CommonPrefixes" {
      var p := ReadCommonPrefixes(w, node, e, tail);
      said := if p.Ok? then acc.(prefixes := acc.prefixes + p.value) else acc.(error := Some(p.error));
    } else {
      var value := ReadText(w, node, e, tail);
      if node.name == "IsTruncated" {
        said := acc.(truncated := Some(SaysTrue(value)));
      } else if value != [] {
        said := acc.(token := Some(value));
      }
    }
    assert said == Then(acc, SaidByChild(e));
  }

  /** `parse_list_objects_v2` from the opened walker on. */
  method ParseListing(w: Walker, ghost root: Element, ghost tail: seq<Event>) returns (r: Result<Page, ListError>)
    requires w.root == TagOf(root, w.root.level) && w.rest == Inside(root, w.root.level) + tail
    modifies w
    ensures r == PageOf(root)
  {
    var acc := NOTHING;
    ghost var nodes := Children(root);
    CursorEnters(root, w.root.level, tail);
    ThenAssociates(SaidByAll(nodes), NOTHING, NOTHING);
    while true
      invariant CursorAt(w.rest, w.root, nodes, root.rawEnd, tail)
      invariant acc.error.None? && Then(acc, SaidByAll(nodes)) == SaidByAll(Children(root))
      decreases |nodes|
    {
      var found, k := NextChild(w, w.root, PAGE_ELEMENTS, nodes, root.rawEnd, tail);
      if found.None? {
        SkipUnlisted(nodes, k);
        ThenAssociates(acc, NOTHING, NOTHING);
        break;
      }
      SaidStep(acc, nodes, k);
      acc := ReadPageChild(w, found.value, acc, nodes[k].element, Siblings(nodes[k + 1..], w.root.level, root.rawEnd, tail));
      nodes := nodes[k + 1..];
      if acc.error.Some? {
        return Err(acc.error.value);
      }
    }
    r := PageFrom(acc);
  }

  // ----- What the page depends on -----

  function LastNonEmpty(texts: seq<string>): (last: Option<string>)
    ensures last.Some? ==> last.value != [] && last.value in texts
    ensures last.None? <==> forall i :: 0 <= i < |texts| ==> texts[i] == []
  {
    if texts == [] then None else OrElse(LastNonEmpty(texts[1..]), if texts[0] == [] then None else Some(texts[0]))
  }

  /** The last `<IsTruncated>` says so. */
  predicate Truncated(nodes: seq<Node>) {
    var flag := LastText(nodes, "IsTruncated");
    flag.Some? && SaysTrue(flag.value)
  }

  predicate Readable(n: Node) {
    && (Is(n, "Contents") ==> ObjectOf(n.element).Ok?)
    && (Is(n, "CommonPrefixes") ==> PrefixesOf(n.element).Ok?)
  }

  /** Every object and every group of prefixes can be read. */
  predicate AllReadable(nodes: seq<Node>) {
    forall i :: 0 <= i < |nodes| ==> Readable(nodes[i])
  }

  lemma {:induction false} TruncatedSaid(nodes: seq<Node>)
    ensures SaidByAll(nodes).truncated ==
            match LastText(nodes, "IsTruncated") case None => None case Some(text) => Some(SaysTrue(text))
  {
    if nodes != [] {
      TruncatedSaid(nodes[1..]);
      TruncatedSaidBy(nodes[0]);
    }
  }

  lemma TruncatedSaidBy(n: Node)
    ensures SaidBy(n).truncated == if Is(n, "IsTruncated") then Some(SaysTrue(TextOf(n.element))) else None
  {
  }

  lemma TokenSaidBy(n: Node)
    ensures SaidBy(n).token ==
            if Is(n, "NextContinuationToken") && TextOf(n.element) != [] then Some(TextOf(n.element)) else None
  {
  }

  lemma {:induction false} TokenSaid(nodes: seq<Node>)
    ensures SaidByAll(nodes).token == LastNonEmpty(Texts(nodes, "NextContinuationToken"))
  {
    if nodes != [] {
      TokenSaid(nodes[1..]);
      TokenSaidBy(nodes[0]);
      var texts := Texts(nodes, "NextContinuationToken");
      if Is(nodes[0], "NextContinuationToken") {
        assert texts[0] == TextOf(nodes[0].element) && texts[1..] == Texts(nodes[1..], "NextContinuationToken");
      } else {
        assert texts == Texts(nodes[1..], "NextContinuationToken");
      }
    }
  }

  lemma ErrorSaidBy(n: Node)
    ensures SaidBy(n).error.None? <==> Readable(n)
    ensures SaidBy(n).error != Some(TruncatedWithoutToken)
  {
  }

  lemma {:induction false} ErrorsSaid(nodes: seq<Node>)
    ensures SaidByAll(nodes).error.None? <==> AllReadable(nodes)
    ensures SaidByAll(nodes).error != Some(TruncatedWithoutToken)
  {
    if nodes != [] {
      ErrorsSaid(nodes[1..]);
      ErrorSaidBy(nodes[0]);
      assert forall i :: 1 <= i < |nodes| ==> nodes[i] == nodes[1..][i - 1];
      assert SaidByAll(nodes).error == OrElse(SaidBy(nodes[0]).error, SaidByAll(nodes[1..]).error);
    }
  }

  /**
    A page carries a token exactly when the last `<IsTruncated>` says true, and then it is the last
    one that is not empty; a truncated listing without one is refused.
  */
  lemma TokenIffTruncated(root: Element)
    ensures
      var nodes, page := Children(root), PageOf(root);
      var token := LastNonEmpty(Texts(nodes, "NextContinuationToken"));
      && (page.Ok? <==> AllReadable(nodes) && (Truncated(nodes) ==> token.Some?))
      && (page.Ok? ==> page.value.nextToken == if Truncated(nodes) then token else None)
      && (page == Err(TruncatedWithoutToken) <==> AllReadable(nodes) && Truncated(nodes) && token.None?)
  {
    TruncatedSaid(Children(root));
    TokenSaid(Children(root));
    ErrorsSaid(Children(root));
  }

  function Only(nodes: seq<Node>, name: string): seq<Node> {
    if nodes == [] then [] else (if Is(nodes[0], name) then [nodes[0]] else []) + Only(nodes[1..], name)
  }

  lemma OnlyStep(nodes: seq<Node>, name: string)
    requires nodes != []
    ensures SaidByAll(Only(nodes, name)) ==
            if Is(nodes[0], name) then Then(SaidBy(nodes[0]), SaidByAll(Only(nodes[1..], name)))
            else SaidByAll(Only(nodes[1..], name))
  {
    if Is(nodes[0], name) {
      assert Only(nodes, name)[1..] == Only(nodes[1..], name);
    } else {
      assert Only(nodes, name) == Only(nodes[1..], name);
    }
  }

  /** Each part of a page comes from the children of one kind. */
  lemma {:induction false} KindsAreSeparate(nodes: seq<Node>)
    ensures SaidByAll(nodes).objects == SaidByAll(Only(nodes, "Contents")).objects
    ensures SaidByAll(nodes).prefixes == SaidByAll(Only(nodes, "CommonPrefixes")).prefixes
    ensures SaidByAll(nodes).truncated == SaidByAll(Only(nodes, "IsTruncated")).truncated
    ensures SaidByAll(nodes).token == SaidByAll(Only(nodes, "NextContinuationToken")).token
    ensures SaidByAll(nodes).error.None? <==>
              SaidByAll(Only(nodes, "Contents")).error.None? && SaidByAll(Only(nodes, "CommonPrefixes")).error.None?
  {
    if nodes != [] {
      KindsAreSeparate(nodes[1..]);
      OnlyStep(nodes, "Contents");
      OnlyStep(nodes, "CommonPrefixes");
      OnlyStep(nodes, "IsTruncated");
      OnlyStep(nodes, "NextContinuationToken");
      assert SaidByAll(nodes) == Then(SaidBy(nodes[0]), SaidByAll(nodes[1..]));
    }
  }

  /** How the kinds of root children are interleaved changes nothing about the page. */
  lemma InterleavingDoesNotMatter(a: Element, b: Element)
    requires forall name :: name in PAGE_ELEMENTS ==> Only(Children(a), name) == Only(Children(b), name)
    ensures PageOf(a).Ok? <==> PageOf(b).Ok?
    ensures PageOf(a).Ok? ==> PageOf(a) == PageOf(b)
  {
    KindsAreSeparate(Children(a));
    KindsAreSeparate(Children(b));
    assert "Contents" in PAGE_ELEMENTS && "CommonPrefixes" in PAGE_ELEMENTS;
    assert "IsTruncated" in PAGE_ELEMENTS && "NextContinuationToken" in PAGE_ELEMENTS;
  }
}
