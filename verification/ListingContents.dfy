/** What a page holds, field by field, and that reading a written listing gives it back. */
module ListingContents {
  import opened Bytes
  import opened Decimals
  import opened XmlText
  import opened XmlWalker
  import opened ListObjects

  // ----- What a page holds -----

  /** `objects` are what the `kids` say, one for one. */
  ghost predicate Say(kids: seq<Node>, objects: seq<ObjectInfo>) {
    && |objects| == |kids|
    && forall i :: 0 <= i < |kids| ==> kids[i].Child? && ObjectOf(kids[i].element) == Ok(objects[i])
  }

  lemma {:induction false} ObjectsSaid(nodes: seq<Node>)
    requires AllReadable(nodes)
    ensures Say(Only(nodes, "Contents"), SaidByAll(nodes).objects)
  {
    if nodes != [] {
      assert AllReadable(nodes[1..]) && Readable(nodes[0]);
      ObjectsSaid(nodes[1..]);
      ObjectsSaidBy(nodes[0]);
      var kids, objects := Only(nodes[1..], "Contents"), SaidByAll(nodes[1..]).objects;
      assert SaidByAll(nodes).objects == SaidBy(nodes[0]).objects + objects;
      if !Is(nodes[0], "Contents") {
        assert Only(nodes, "Contents") == kids && SaidByAll(nodes).objects == objects;
      }
    }
  }

  lemma ObjectsSaidBy(n: Node)
    requires Readable(n)
    ensures if Is(n, "Contents") then Say([n], SaidBy(n).objects) else SaidBy(n).objects == []
  {
  }

  /** The prefixes that some `<CommonPrefixes>` hold, all together, in order. */
  function AllPrefixes(kids: seq<Node>): seq<string> {
    if kids == [] then []
    else (if kids[0].Child? then Texts(Children(kids[0].element), "Prefix") else []) + AllPrefixes(kids[1..])
  }

  lemma PrefixesSaidBy(n: Node)
    requires Readable(n)
    ensures SaidBy(n).prefixes == if Is(n, "CommonPrefixes") then Texts(Children(n.element), "Prefix") else []
  {
  }

  lemma {:induction false} PrefixesSaid(nodes: seq<Node>)
    requires AllReadable(nodes)
    ensures SaidByAll(nodes).prefixes == AllPrefixes(Only(nodes, "CommonPrefixes"))
  {
    if nodes != [] {
      assert AllReadable(nodes[1..]) && Readable(nodes[0]);
      PrefixesSaid(nodes[1..]);
      PrefixesSaidBy(nodes[0]);
      var kids := Only(nodes[1..], "CommonPrefixes");
      if Is(nodes[0], "CommonPrefixes") {
        assert Only(nodes, "CommonPrefixes")[1..] == kids;
      } else {
        assert Only(nodes, "CommonPrefixes") == kids;
      }
    }
  }

  /**
    A page holds exactly the objects of the direct `<Contents>` children and the prefixes of the direct
    `<CommonPrefixes>` children, in document order.
  */
  lemma PageHoldsWhatIsSaid(root: Element)
    requires PageOf(root).Ok?
    ensures Say(Only(Children(root), "Contents"), PageOf(root).value.objects)
    ensures PageOf(root).value.commonPrefixes == AllPrefixes(Only(Children(root), "CommonPrefixes"))
  {
    TokenIffTruncated(root);
    ObjectsSaid(Children(root));
    PrefixesSaid(Children(root));
  }

  function ErrorOf(n: Node): Option<ListError> {
    if Is(n, "Contents") && ObjectOf(n.element).Err? then Some(ObjectOf(n.element).error)
    else if Is(n, "CommonPrefixes") && PrefixesOf(n.element).Err? then Some(PrefixesOf(n.element).error)
    else None
  }

  lemma {:induction false} FirstErrorSaid(nodes: seq<Node>) returns (k: nat)
    requires !AllReadable(nodes)
    ensures k < |nodes| && AllReadable(nodes[..k]) && !Readable(nodes[k])
    ensures SaidByAll(nodes).error == ErrorOf(nodes[k])
  {
    ErrorSaidBy(nodes[0]);
    if !Readable(nodes[0]) {
      k := 0;
    } else {
      assert !AllReadable(nodes[1..]) by {
        assert forall i :: 1 <= i < |nodes| ==> nodes[i] == nodes[1..][i - 1];
      }
      var j := FirstErrorSaid(nodes[1..]);
      k := j + 1;
      assert forall i :: 1 <= i < k ==> nodes[..k][i] == nodes[1..][..j][i - 1];
    }
  }

  /** A listing with something unreadable in it is refused for the first such child. */
  lemma FirstErrorIsReported(root: Element) returns (k: nat)
    requires !AllReadable(Children(root))
    ensures k < |Children(root)| && AllReadable(Children(root)[..k]) && !Readable(Children(root)[k])
    ensures PageOf(root).Err? && Some(PageOf(root).error) == ErrorOf(Children(root)[k])
  {
    k := FirstErrorSaid(Children(root));
    ErrorSaidBy(Children(root)[k]);
  }

  // ----- What an object says -----

  /** Each field of an object is the last direct child of its name; the first one missing is named. */
  lemma ObjectHoldsWhatIsSaid(e: Element)
    ensures
      var nodes, o := Children(e), ObjectOf(e);
      var key, modified, size := LastText(nodes, "Key"), LastText(nodes, "LastModified"), LastText(nodes, "Size");
      && (o.Ok? ==>
            && key == Some(o.value.key) && modified == Some(o.value.lastModified)
            && o.value.etag == LastText(nodes, "ETag")
            && size.Some? && ParseU64(Trimmed(size.value)) == Some(o.value.size))
      && (o == Err(MissingElement("Key")) <==> key.None?)
      && (o == Err(MissingElement("LastModified")) <==> key.Some? && modified.None?)
      && (o == Err(MissingElement("Size")) <==> key.Some? && modified.Some? && size.None?)
      && (o.Err? && o.error.BadSize? <==>
            key.Some? && modified.Some? && size.Some? && ParseU64(Trimmed(size.value)).None?)
      && (o.Err? && o.error.BadSize? ==> o.error.text == size.value)
  {
    assert "Key" != "LastModified" && "LastModified" != "Size";
    assert |"Key"| != |"Size"|;
  }

  /** A number is an optional `+` and digits of a value that fits, and nothing else. */
  lemma ParseU64ExactlyWhen(s: string, n: nat)
    ensures ParseU64(s) == Some(n) <==>
              exists digits: string ::
                && (s == digits || s == "+" + digits) && digits != [] && AllDigits(digits)
                && DigitsValue(digits) == n < 0x1_0000_0000_0000_0000
  {
    if digits: string :| (s == digits || s == "+" + digits) && digits != [] && AllDigits(digits) && DigitsValue(digits) == n {
      if s == "+" + digits {
        assert s[1..] == digits;
      } else {
        assert IsDigit(s[0]);
      }
    }
    if ParseU64(s) == Some(n) {
      var digits := if s != [] && s[0] == '+' then s[1..] else s;
      assert s == digits || s == "+" + digits;
    }
  }

  lemma PrintedNumberIsRead(n: nat)
    ensures ParseU64(DecimalText(n)) == if n <= U64_MAX then Some(n) else None
  {
    ParseUndoesPrint(n);
    assert IsDigit(DecimalText(n)[0]);
  }

  /** Every `<Prefix>` of a group of prefixes, in order, and an error exactly when there is none. */
  lemma PrefixesHoldWhatIsSaid(e: Element)
    ensures PrefixesOf(e) == Err(NoPrefix) <==> forall i :: 0 <= i < |Children(e)| ==> !Is(Children(e)[i], "Prefix")
    ensures PrefixesOf(e).Ok? ==> PrefixesOf(e).value == Texts(Children(e), "Prefix")
    ensures PrefixesOf(e).Err? ==> PrefixesOf(e).error == NoPrefix
  {
    NoTextsExactlyWhen(Children(e), "Prefix");
  }

  lemma {:induction false} NoTextsExactlyWhen(nodes: seq<Node>, name: string)
    ensures Texts(nodes, name) == [] <==> forall i :: 0 <= i < |nodes| ==> !Is(nodes[i], name)
  {
    if nodes != [] {
      NoTextsExactlyWhen(nodes[1..], name);
      assert forall i :: 1 <= i < |nodes| ==> nodes[i] == nodes[1..][i - 1];
    }
  }

  /** The characters that Unicode gives the property `White_Space`. */
  predicate HasWhiteSpace(n: int) {
    match n
    case 0x09 => true
    case 0x0A => true
    case 0x0B => true
    case 0x0C => true
    case 0x0D => true
    case 0x20 => true
    case 0x85 => true
    case 0xA0 => true
    case 0x1680 => true
    case 0x2000 => true
    case 0x2001 => true
    case 0x2002 => true
    case 0x2003 => true
    case 0x2004 => true
    case 0x2005 => true
    case 0x2006 => true
    case 0x2007 => true
    case 0x2008 => true
    case 0x2009 => true
    case 0x200A => true
    case 0x2028 => true
    case 0x2029 => true
    case 0x202F => true
    case 0x205F => true
    case 0x3000 => true
    case _ => false
  }

  lemma WhiteSpaceIsUnicodes(c: char)
    ensures IsWhite(c) <==> HasWhiteSpace(c as int)
  {
  }

  predicate AllWhite(s: string) {
    forall i :: 0 <= i < |s| ==> IsWhite(s[i])
  }

  lemma WhiteFirst(c: char, left: string, t: string, right: string)
    requires IsWhite(c) && AllWhite(left)
    ensures AllWhite([c] + left) && [c] + (left + t + right) == ([c] + left) + t + right
  {
  }

  lemma WhiteLast(c: char, left: string, t: string, right: string)
    requires IsWhite(c) && AllWhite(right)
    ensures AllWhite(right + [c]) && (left + t + right) + [c] == left + t + (right + [c])
  {
  }

  /** Trimming takes off white space on both sides, and all of it. */
  lemma {:induction false} TrimmedIsExact(s: string) returns (left: string, right: string)
    ensures s == left + Trimmed(s) + right && AllWhite(left) && AllWhite(right)
    ensures Trimmed(s) != [] ==> !IsWhite(Trimmed(s)[0]) && !IsWhite(Trimmed(s)[|Trimmed(s)| - 1])
    decreases |s|
  {
    left, right := [], [];
    if s == [] {
    } else if IsWhite(s[0]) {
      var inner;
      inner, right := TrimmedIsExact(s[1..]);
      WhiteFirst(s[0], inner, Trimmed(s), right);
      left := [s[0]] + inner;
      assert s == [s[0]] + s[1..];
    } else if IsWhite(s[|s| - 1]) {
      var inner;
      left, inner := TrimmedIsExact(s[..|s| - 1]);
      WhiteLast(s[|s| - 1], left, Trimmed(s), inner);
      right := inner + [s[|s| - 1]];
      assert s == s[..|s| - 1] + [s[|s| - 1]];
    } else {
      assert s == [] + s + [];
    }
  }

  lemma TrimmedIsUnchanged(s: string)
    requires s != [] ==> !IsWhite(s[0]) && !IsWhite(s[|s| - 1])
    ensures Trimmed(s) == s
  {
  }

  lemma SaysTrueExactlyWhen(s: string)
    ensures
      var t := Trimmed(s);
      SaysTrue(s) <==>
        && |t| == 4 && (t[0] == 't' || t[0] == 'T') && (t[1] == 'r' || t[1] == 'R')
        && (t[2] == 'u' || t[2] == 'U') && (t[3] == 'e' || t[3] == 'E')
  {
    var t := Trimmed(s);
    if |t| == 4 {
      LowerIs(t[0], 't');
      LowerIs(t[1], 'r');
      LowerIs(t[2], 'u');
      LowerIs(t[3], 'e');
    }
  }

  lemma LowerIs(c: char, l: char)
    requires 'a' <= l <= 'z'
    ensures Lower(c) == l <==> c == l || c as int == l as int - 32
  {
  }

  // ----- A written listing -----

  /** An element that holds a text and nothing else, as a writer that leaves `plain` unescaped writes it. */
  function Leaf(name: string, text: string, plain: set<char>): Element {
    Element(name, "<" + name + ">", [Chars(Escaped(text, plain))], "</" + name + ">")
  }

  predicate IsName(name: string) {
    name != [] && name[|name| - 1] != '/'
  }

  lemma OpensOnly(name: string)
    requires IsName(name)
    ensures !SelfClosing("<" + name + ">")
  {
    var raw := "<" + name + ">";
    assert raw[|raw| - 2] == name[|name| - 1];
    assert raw[|raw| - 2..][0] == raw[|raw| - 2];
  }

  /** What was written is what is read. */
  lemma LeafIsRead(name: string, text: string, plain: set<char>)
    requires IsName(name)
    ensures TextOf(Leaf(name, text, plain)) == text
  {
    OpensOnly(name);
    var nodes := [Chars(Escaped(text, plain))];
    assert Raw(nodes) == Escaped(text, plain) + Raw(nodes[1..]) == Escaped(text, plain);
    UnescapeUndoesEscape(text, plain);
  }

  /** Named texts, each in an element of its own. */
  datatype Field = Field(name: string, text: string)

  function Leaves(fields: seq<Field>, plain: set<char>): seq<Node> {
    if fields == [] then [] else [Child(Leaf(fields[0].name, fields[0].text, plain))] + Leaves(fields[1..], plain)
  }

  function LastField(fields: seq<Field>, name: string): Option<string> {
    if fields == [] then None
    else OrElse(LastField(fields[1..], name), if fields[0].name == name then Some(fields[0].text) else None)
  }

  lemma {:induction false} LeavesAreRead(fields: seq<Field>, plain: set<char>, name: string)
    requires forall i :: 0 <= i < |fields| ==> IsName(fields[i].name)
    ensures LastText(Leaves(fields, plain), name) == LastField(fields, name)
  {
    if fields != [] {
      LeafIsRead(fields[0].name, fields[0].text, plain);
      LeavesAreRead(fields[1..], plain, name);
      var nodes := Leaves(fields, plain);
      assert nodes[0] == Child(Leaf(fields[0].name, fields[0].text, plain)) && nodes[1..] == Leaves(fields[1..], plain);
    }
  }

  function Wrapped(name: string, content: seq<Node>): Element {
    Element(name, "<" + name + ">", content, "</" + name + ">")
  }

  lemma WrappedChildren(name: string, content: seq<Node>)
    requires IsName(name)
    ensures Children(Wrapped(name, content)) == content
  {
    OpensOnly(name);
  }

  function ObjectFields(o: ObjectInfo): seq<Field> {
    [Field("Key", o.key), Field("LastModified", o.lastModified), Field("Size", DecimalText(o.size))]
    + EtagFields(o)
  }

  function WrittenObject(o: ObjectInfo, plain: set<char>): Element {
    Wrapped("Contents", Leaves(ObjectFields(o), plain))
  }

  lemma LastFieldCons(field: Field, rest: seq<Field>, name: string)
    ensures LastField([field] + rest, name) ==
            OrElse(LastField(rest, name), if field.name == name then Some(field.text) else None)
  {
    assert ([field] + rest)[1..] == rest;
  }

  /** What the last of four fields with a name says. */
  lemma LastOfFields(a: Field, b: Field, c: Field, rest: seq<Field>, name: string)
    ensures LastField([a] + ([b] + ([c] + rest)), name) ==
            OrElse(LastField(rest, name),
                   if c.name == name then Some(c.text) else if b.name == name then Some(b.text)
                   else if a.name == name then Some(a.text) else None)
  {
    LastFieldCons(a, [b] + ([c] + rest), name);
    LastFieldCons(b, [c] + rest, name);
    LastFieldCons(c, rest, name);
  }

  lemma DifferentNames()
    ensures "Key" != "LastModified" && "Key" != "Size" && "Key" != "ETag" && "LastModified" != "Size"
    ensures "LastModified" != "ETag" && "Size" != "ETag"
  {
    assert |"Key"| == 3 && |"LastModified"| == 12 && |"Size"| == 4 && |"ETag"| == 4;
    assert "Size"[0] != "ETag"[0];
  }

  function EtagFields(o: ObjectInfo): seq<Field> {
    if o.etag.Some? then [Field("ETag", o.etag.value)] else []
  }

  lemma EtagFieldHolds(o: ObjectInfo, name: string)
    ensures LastField(EtagFields(o), name) == if name == "ETag" then o.etag else None
  {
    if o.etag.Some? {
      LastFieldCons(Field("ETag", o.etag.value), [], name);
      assert EtagFields(o) == [Field("ETag", o.etag.value)] + [];
    }
  }

  lemma ObjectFieldsAre(o: ObjectInfo, name: string)
    ensures LastField(ObjectFields(o), name) ==
            OrElse(if name == "ETag" then o.etag else None,
                   if "Size" == name then Some(DecimalText(o.size)) else if "LastModified" == name then Some(o.lastModified)
                   else if "Key" == name then Some(o.key) else None)
  {
    var a, b, c := Field("Key", o.key), Field("LastModified", o.lastModified), Field("Size", DecimalText(o.size));
    LastOfFields(a, b, c, EtagFields(o), name);
    EtagFieldHolds(o, name);
    assert ObjectFields(o) == [a] + ([b] + ([c] + EtagFields(o)));
  }

  lemma ObjectFieldsHold(o: ObjectInfo)
    ensures LastField(ObjectFields(o), "Key") == Some(o.key)
    ensures LastField(ObjectFields(o), "LastModified") == Some(o.lastModified)
    ensures LastField(ObjectFields(o), "Size") == Some(DecimalText(o.size))
    ensures LastField(ObjectFields(o), "ETag") == o.etag
  {
    DifferentNames();
    ObjectFieldsAre(o, "Key");
    ObjectFieldsAre(o, "LastModified");
    ObjectFieldsAre(o, "Size");
    ObjectFieldsAre(o, "ETag");
  }

  lemma ObjectFieldsAreNamed(o: ObjectInfo)
    ensures forall i :: 0 <= i < |ObjectFields(o)| ==> IsName(ObjectFields(o)[i].name)
  {
  }

  lemma DigitsAreTrimmed(n: nat)
    ensures Trimmed(DecimalText(n)) == DecimalText(n)
  {
    var s := DecimalText(n);
    assert IsDigit(s[0]) && IsDigit(s[|s| - 1]);
    TrimmedIsUnchanged(s);
  }

  lemma WrittenObjectIsRead(o: ObjectInfo, plain: set<char>)
    requires o.size <= U64_MAX
    ensures ObjectOf(WrittenObject(o, plain)) == Ok(o)
  {
    var fields := ObjectFields(o);
    WrappedChildren("Contents", Leaves(fields, plain));
    ObjectFieldsHold(o);
    ObjectFieldsAreNamed(o);
    LeavesAreRead(fields, plain, "Key");
    LeavesAreRead(fields, plain, "LastModified");
    LeavesAreRead(fields, plain, "Size");
    LeavesAreRead(fields, plain, "ETag");
    DigitsAreTrimmed(o.size);
    PrintedNumberIsRead(o.size);
  }

  function WrittenPrefix(prefix: string, plain: set<char>): Element {
    Wrapped("CommonPrefixes", [Child(Leaf("Prefix", prefix, plain))])
  }

  lemma WrittenPrefixIsRead(prefix: string, plain: set<char>)
    ensures PrefixesOf(WrittenPrefix(prefix, plain)) == Ok([prefix])
  {
    var nodes := [Child(Leaf("Prefix", prefix, plain))];
    WrappedChildren("CommonPrefixes", nodes);
    LeafIsRead("Prefix", prefix, plain);
    assert nodes[1..] == [] && Texts([], "Prefix") == [];
    assert Texts(nodes, "Prefix") == [prefix] + [] == [prefix];
  }

  function WrittenObjects(objects: seq<ObjectInfo>, plain: set<char>): (nodes: seq<Node>)
    ensures |nodes| == |objects| && forall i :: 0 <= i < |nodes| ==> nodes[i] == Child(WrittenObject(objects[i], plain))
  {
    seq(|objects|, i requires 0 <= i < |objects| => Child(WrittenObject(objects[i], plain)))
  }

  function WrittenPrefixes(prefixes: seq<string>, plain: set<char>): (nodes: seq<Node>)
    ensures |nodes| == |prefixes| && forall i :: 0 <= i < |nodes| ==> nodes[i] == Child(WrittenPrefix(prefixes[i], plain))
  {
    seq(|prefixes|, i requires 0 <= i < |prefixes| => Child(WrittenPrefix(prefixes[i], plain)))
  }

  /** A page as a storage writes it. */
  function WrittenPage(p: Page, plain: set<char>): Element {
    Wrapped("ListBucketResult",
            FlagNodes(p, plain) + TokenNodes(p, plain)
            + WrittenObjects(p.objects, plain)
            + WrittenPrefixes(p.commonPrefixes, plain))
  }

  lemma {:induction false} SaidConcat(a: seq<Node>, b: seq<Node>)
    ensures SaidByAll(a + b) == Then(SaidByAll(a), SaidByAll(b))
    decreases |a|
  {
    if a == [] {
      assert a + b == b;
    } else {
      assert (a + b)[1..] == a[1..] + b;
      SaidConcat(a[1..], b);
      ThenAssociates(SaidBy(a[0]), SaidByAll(a[1..]), SaidByAll(b));
    }
  }

  lemma SaidByOne(n: Node)
    ensures SaidByAll([n]) == SaidBy(n)
  {
    assert [n][1..] == [];
    ThenAssociates(SaidBy(n), NOTHING, NOTHING);
  }

  lemma ThenObjects(a: seq<ObjectInfo>, b: seq<ObjectInfo>)
    ensures Then(NOTHING.(objects := a), NOTHING.(objects := b)) == NOTHING.(objects := a + b)
  {
  }

  lemma ThenPrefixes(a: seq<string>, b: seq<string>)
    ensures Then(NOTHING.(prefixes := a), NOTHING.(prefixes := b)) == NOTHING.(prefixes := a + b)
  {
  }

  lemma {:induction false} EachSaysAnObject(nodes: seq<Node>, objects: seq<ObjectInfo>)
    requires |nodes| == |objects|
    requires forall i :: 0 <= i < |nodes| ==> SaidBy(nodes[i]) == NOTHING.(objects := [objects[i]])
    ensures SaidByAll(nodes) == NOTHING.(objects := objects)
    decreases |nodes|
  {
    if nodes != [] {
      EachSaysAnObject(nodes[1..], objects[1..]);
      ThenObjects([objects[0]], objects[1..]);
      assert objects == [objects[0]] + objects[1..];
    }
  }

  lemma {:induction false} EachSaysAPrefix(nodes: seq<Node>, prefixes: seq<string>)
    requires |nodes| == |prefixes|
    requires forall i :: 0 <= i < |nodes| ==> SaidBy(nodes[i]) == NOTHING.(prefixes := [prefixes[i]])
    ensures SaidByAll(nodes) == NOTHING.(prefixes := prefixes)
    decreases |nodes|
  {
    if nodes != [] {
      EachSaysAPrefix(nodes[1..], prefixes[1..]);
      ThenPrefixes([prefixes[0]], prefixes[1..]);
      assert prefixes == [prefixes[0]] + prefixes[1..];
    }
  }

  lemma WrittenObjectSays(o: ObjectInfo, plain: set<char>)
    requires o.size <= U64_MAX
    ensures SaidBy(Child(WrittenObject(o, plain))) == NOTHING.(objects := [o])
  {
    WrittenObjectIsRead(o, plain);
  }

  lemma WrittenPrefixSays(prefix: string, plain: set<char>)
    ensures SaidBy(Child(WrittenPrefix(prefix, plain))) == NOTHING.(prefixes := [prefix])
  {
    WrittenPrefixIsRead(prefix, plain);
  }

  lemma WrittenObjectsSay(objects: seq<ObjectInfo>, plain: set<char>)
    requires forall i :: 0 <= i < |objects| ==> objects[i].size <= U64_MAX
    ensures SaidByAll(WrittenObjects(objects, plain)) == NOTHING.(objects := objects)
  {
    var nodes := WrittenObjects(objects, plain);
    forall i | 0 <= i < |nodes|
      ensures SaidBy(nodes[i]) == NOTHING.(objects := [objects[i]])
    {
      WrittenObjectSays(objects[i], plain);
    }
    EachSaysAnObject(nodes, objects);
  }

  lemma WrittenPrefixesSay(prefixes: seq<string>, plain: set<char>)
    ensures SaidByAll(WrittenPrefixes(prefixes, plain)) == NOTHING.(prefixes := prefixes)
  {
    var nodes := WrittenPrefixes(prefixes, plain);
    forall i | 0 <= i < |nodes|
      ensures SaidBy(nodes[i]) == NOTHING.(prefixes := [prefixes[i]])
    {
      WrittenPrefixSays(prefixes[i], plain);
    }
    EachSaysAPrefix(nodes, prefixes);
  }

  lemma WrittenFlagSays(truncated: bool, plain: set<char>)
    ensures SaidByAll([Child(Leaf("IsTruncated", if truncated then "true" else "false", plain))]) ==
            NOTHING.(truncated := Some(truncated))
  {
    var text := if truncated then "true" else "false";
    LeafIsRead("IsTruncated", text, plain);
    SaidByOne(Child(Leaf("IsTruncated", text, plain)));
    TrimmedIsUnchanged(text);
    SaysTrueExactlyWhen(text);
  }

  lemma WrittenTokenSays(token: string, plain: set<char>)
    requires token != []
    ensures SaidByAll([Child(Leaf("NextContinuationToken", token, plain))]) == NOTHING.(token := Some(token))
  {
    LeafIsRead("NextContinuationToken", token, plain);
    SaidByOne(Child(Leaf("NextContinuationToken", token, plain)));
  }

  /** A page that a storage can send: sizes that fit, and a token that is not empty. */
  predicate Sendable(p: Page) {
    && (forall i :: 0 <= i < |p.objects| ==> p.objects[i].size <= U64_MAX)
    && (p.nextToken.Some? ==> p.nextToken.value != [])
  }

  function FlagNodes(p: Page, plain: set<char>): seq<Node> {
    [Child(Leaf("IsTruncated", if p.nextToken.Some? then "true" else "false", plain))]
  }

  function TokenNodes(p: Page, plain: set<char>): seq<Node> {
    if p.nextToken.Some? then [Child(Leaf("NextContinuationToken", p.nextToken.value, plain))] else []
  }

  lemma WrittenScalarsSay(p: Page, plain: set<char>)
    requires Sendable(p)
    ensures SaidByAll(FlagNodes(p, plain) + TokenNodes(p, plain)) ==
            NOTHING.(truncated := Some(p.nextToken.Some?), token := p.nextToken)
  {
    WrittenFlagSays(p.nextToken.Some?, plain);
    if p.nextToken.Some? {
      WrittenTokenSays(p.nextToken.value, plain);
    }
    SaidConcat(FlagNodes(p, plain), TokenNodes(p, plain));
  }

  lemma ThenAll(p: Page)
    ensures
      var scalars := NOTHING.(truncated := Some(p.nextToken.Some?), token := p.nextToken);
      Then(Then(scalars, NOTHING.(objects := p.objects)), NOTHING.(prefixes := p.commonPrefixes)) ==
      Said(None, p.objects, p.commonPrefixes, Some(p.nextToken.Some?), p.nextToken)
  {
  }

  lemma WrittenNodesSay(p: Page, plain: set<char>)
    requires Sendable(p)
    ensures SaidByAll(FlagNodes(p, plain) + TokenNodes(p, plain) + WrittenObjects(p.objects, plain)
                      + WrittenPrefixes(p.commonPrefixes, plain)) ==
            Said(None, p.objects, p.commonPrefixes, Some(p.nextToken.Some?), p.nextToken)
  {
    var scalars := FlagNodes(p, plain) + TokenNodes(p, plain);
    WrittenScalarsSay(p, plain);
    WrittenObjectsSay(p.objects, plain);
    WrittenPrefixesSay(p.commonPrefixes, plain);
    SaidConcat(scalars, WrittenObjects(p.objects, plain));
    SaidConcat(scalars + WrittenObjects(p.objects, plain), WrittenPrefixes(p.commonPrefixes, plain));
    ThenAll(p);
  }

  /** Reading a written listing gives back the page, object by object, prefix by prefix, token and all. */
  lemma WrittenPageIsRead(p: Page, plain: set<char>)
    requires Sendable(p)
    ensures PageOf(WrittenPage(p, plain)) == Ok(p)
  {
    WrittenNodesSay(p, plain);
    WrappedChildren("ListBucketResult", FlagNodes(p, plain) + TokenNodes(p, plain) + WrittenObjects(p.objects, plain)
                                        + WrittenPrefixes(p.commonPrefixes, plain));
  }
}
