/** Decoding entities in one pass, and the five that section 4.6 of XML 1.0 predefines. */
module XmlText {
  import opened Bytes

  datatype Entity = Entity(text: string, meaning: char)

  /** No entity is empty, so decoding one always moves on. */
  predicate Usable(table: seq<Entity>) {
    forall i :: 0 <= i < |table| ==> |table[i].text| >= 1
  }

  /** The first entity of the table that `s` starts with. */
  function EntityAt(table: seq<Entity>, s: string): (e: Option<Entity>)
    ensures e.Some? ==> e.value.text <= s && e.value in table
  {
    if table == [] then None
    else if table[0].text <= s then Some(table[0])
    else EntityAt(table[1..], s)
  }

  function Unescaped(table: seq<Entity>, s: string): string
    requires Usable(table)
    decreases |s|
  {
    if s == [] then []
    else if s[0] != '&' then [s[0]] + Unescaped(table, s[1..])
    else
      var e := EntityAt(table, s);
      if e.Some? then [e.value.meaning] + Unescaped(table, s[|e.value.text|..])
      else ['&'] + Unescaped(table, s[1..])
  }

  /** `find('&')`. */
  function Find(s: string): (at: nat)
    ensures at <= |s| && (at < |s| ==> s[at] == '&') && '&' !in s[..at]
  {
    if s == [] || s[0] == '&' then 0
    else
      var at := 1 + Find(s[1..]);
      assert s[..at] == [s[0]] + s[1..][..at - 1];
      at
  }

  lemma {:induction false} PlainStaysPlain(table: seq<Entity>, front: string, rest: string)
    requires Usable(table) && '&' !in front
    ensures Unescaped(table, front + rest) == front + Unescaped(table, rest)
    decreases |front|
  {
    if front == [] {
      assert front + rest == rest;
    } else {
      assert (front + rest)[1..] == front[1..] + rest;
      PlainStaysPlain(table, front[1..], rest);
    }
  }

  lemma PlainIsUnescaped(table: seq<Entity>, s: string)
    requires Usable(table) && '&' !in s
    ensures Unescaped(table, s) == s
  {
    PlainStaysPlain(table, s, []);
    assert s + [] == s;
  }

  /** What the `&` at the start of `tail` stands for, and what follows it. */
  function AtAmpersand(table: seq<Entity>, tail: string): (char, string)
    requires Usable(table) && tail != []
  {
    var e := EntityAt(table, tail);
    if e.Some? then (e.value.meaning, tail[|e.value.text|..]) else ('&', tail[1..])
  }

  lemma Regroup(a: string, b: string, c: string, d: string)
    ensures a + (b + c) + d == a + (b + (c + d))
  {
  }

  lemma TurnUnescapes(table: seq<Entity>, done: string, rest: string, index: nat)
    requires Usable(table) && index == Find(rest) < |rest|
    ensures var (c, left) := AtAmpersand(table, rest[index..]);
            done + (rest[..index] + [c]) + Unescaped(table, left) == done + Unescaped(table, rest)
  {
    var front, tail := rest[..index], rest[index..];
    var (c, left) := AtAmpersand(table, tail);
    PlainStaysPlain(table, front, tail);
    assert rest == front + tail;
    assert Unescaped(table, tail) == [c] + Unescaped(table, left);
    Regroup(done, front, [c], Unescaped(table, left));
  }

  /** `unescape`: one pass from left to right, an unknown `&` passed through. */
  method Unescape(table: seq<Entity>, src: string) returns (result: string)
    requires Usable(table)
    ensures result == Unescaped(table, src)
  {
    if '&' !in src {
      PlainIsUnescaped(table, src);
      return src;
    }
    result := [];
    var rest := src;
    var index := Find(rest);
    while index < |rest|
      invariant result + Unescaped(table, rest) == Unescaped(table, src)
      invariant index == Find(rest)
      decreases |rest|
    {
      TurnUnescapes(table, result, rest, index);
      var tail := rest[index..];
      var matched := EntityAt(table, tail);
      if matched.Some? {
        result := result + (rest[..index] + [matched.value.meaning]);
        rest := tail[|matched.value.text|..];
      } else {
        result := result + (rest[..index] + ['&']);
        rest := tail[1..];
      }
      index := Find(rest);
    }
    assert rest[..index] == rest;
    PlainIsUnescaped(table, rest);
    result := result + rest;
  }

  // ----- The predefined entities -----

  /** The table of the source, in its order. */
  function Predefined(): (table: seq<Entity>)
    ensures Usable(table)
  {
    [Entity("&amp;", '&'), Entity("&lt;", '<'), Entity("&gt;", '>'), Entity("&quot;", '"'), Entity("&apos;", '\'')]
  }

  /** What a writer makes of `c`: `&` is always escaped, the other four unless they are left plain. */
  function EscapedChar(c: char, plain: set<char>): string {
    if c == '&' then "&amp;"
    else if c in plain then [c]
    else if c == '<' then "&lt;"
    else if c == '>' then "&gt;"
    else if c == '"' then "&quot;"
    else if c == '\'' then "&apos;"
    else [c]
  }

  function Escaped(s: string, plain: set<char>): string {
    if s == [] then [] else EscapedChar(s[0], plain) + Escaped(s[1..], plain)
  }

  /** Two entities of a table are told apart by their second or third character. */
  lemma {:induction false} EntityIsFound(table: seq<Entity>, k: nat, rest: string)
    requires k < |table| && forall i :: 0 <= i < |table| ==> |table[i].text| >= 3
    requires forall i :: 0 <= i < k ==> table[i].text[1] != table[k].text[1] || table[i].text[2] != table[k].text[2]
    ensures EntityAt(table, table[k].text + rest) == Some(table[k])
  {
    var s := table[k].text + rest;
    if k == 0 {
      assert table[0].text <= s;
    } else {
      assert s[1] == table[k].text[1] && s[2] == table[k].text[2];
      EntityIsFound(table[1..], k - 1, rest);
    }
  }

  lemma PredefinedIsFound(k: nat, rest: string)
    requires k < 5
    ensures EntityAt(Predefined(), Predefined()[k].text + rest) == Some(Predefined()[k])
  {
    EntityIsFound(Predefined(), k, rest);
  }

  function EntityIndex(c: char): Option<nat> {
    match c
    case '&' => Some(0)
    case '<' => Some(1)
    case '>' => Some(2)
    case '"' => Some(3)
    case '\'' => Some(4)
    case _ => None
  }

  lemma UnescapedChar(c: char, plain: set<char>, rest: string)
    ensures Unescaped(Predefined(), EscapedChar(c, plain) + rest) == [c] + Unescaped(Predefined(), rest)
  {
    var e := EscapedChar(c, plain);
    assert (e + rest)[|e|..] == rest;
    if |e| == 1 {
      PlainStaysPlain(Predefined(), e, rest);
    } else {
      var k := EntityIndex(c).value;
      assert Predefined()[k] == Entity(e, c);
      PredefinedIsFound(k, rest);
      EntityUnescapes(Predefined(), e, rest);
    }
  }

  lemma EntityUnescapes(table: seq<Entity>, e: string, rest: string)
    requires Usable(table) && e != [] && e[0] == '&'
    requires EntityAt(table, e + rest).Some? && EntityAt(table, e + rest).value.text == e
    ensures Unescaped(table, e + rest) == [EntityAt(table, e + rest).value.meaning] + Unescaped(table, rest)
  {
    assert (e + rest)[|e|..] == rest;
  }

  /** Unescaping undoes every writer's escaping, whichever of the other four it escapes. */
  lemma {:induction false} UnescapeUndoesEscape(s: string, plain: set<char>)
    ensures Unescaped(Predefined(), Escaped(s, plain)) == s
  {
    if s != [] {
      UnescapedChar(s[0], plain, Escaped(s[1..], plain));
      UnescapeUndoesEscape(s[1..], plain);
    }
  }

  /** No entity starts anywhere in the text. */
  ghost predicate HoldsNoEntity(table: seq<Entity>, s: string) {
    forall i :: 0 <= i < |s| ==> EntityAt(table, s[i..]).None?
  }

  /** An `&` that starts no entity is passed through, and so is everything else. */
  lemma {:induction false} UnknownIsPassedThrough(table: seq<Entity>, s: string)
    requires Usable(table) && HoldsNoEntity(table, s)
    ensures Unescaped(table, s) == s
  {
    if s != [] {
      assert s[0..] == s;
      assert HoldsNoEntity(table, s[1..]) by {
        assert forall i :: 0 <= i < |s| - 1 ==> s[1..][i..] == s[i + 1..];
      }
      UnknownIsPassedThrough(table, s[1..]);
      assert s == [s[0]] + s[1..];
    }
  }

  /** An entity is found wherever one of the table starts, and nowhere else. */
  lemma {:induction false} EntityAtExactlyWhen(table: seq<Entity>, s: string)
    ensures EntityAt(table, s).Some? <==> exists i :: 0 <= i < |table| && table[i].text <= s
  {
    if table != [] && !(table[0].text <= s) {
      EntityAtExactlyWhen(table[1..], s);
      assert forall i :: 1 <= i < |table| ==> table[i] == table[1..][i - 1];
      assert forall i :: 0 <= i < |table| - 1 ==> table[1..][i] == table[i + 1];
    }
  }

  function Times(f: string -> string, s: string, n: nat): string {
    if n == 0 then s else f(Times(f, s, n - 1))
  }

  lemma {:induction false} UndoneTimes(f: string -> string, g: string -> string, s: string, done: nat, undone: nat)
    requires undone <= done && forall x: string :: g(f(x)) == x
    ensures Times(g, Times(f, s, done), undone) == Times(f, s, done - undone)
    decreases undone
  {
    if undone > 0 {
      UndoneTimes(f, g, s, done, undone - 1);
    }
  }

  /** Nothing is decoded twice: every decoding takes off exactly one layer of escaping. */
  lemma NothingIsDecodedTwice(s: string, plain: set<char>, escaped: nat, decoded: nat)
    requires decoded <= escaped
    ensures
      var escape, unescape := (x: string) => Escaped(x, plain), (x: string) => Unescaped(Predefined(), x);
      Times(unescape, Times(escape, s, escaped), decoded) == Times(escape, s, escaped - decoded)
  {
    var escape, unescape := (x: string) => Escaped(x, plain), (x: string) => Unescaped(Predefined(), x);
    forall x: string
      ensures unescape(escape(x)) == x
    {
      UnescapeUndoesEscape(x, plain);
    }
    UndoneTimes(escape, unescape, s, escaped, decoded);
  }
}
