/**
  Percent-encoding by sections 2.1 and 2.3 of RFC 3986, as SigV4 requires it, and the decoding a
  server applies to a query. Strings are their UTF-8 bytes.
*/
module UriEncoding {
  import opened Bytes

  const PERCENT: byte := 0x25
  const PLUS: byte := 0x2B

  /** `A-Z a-z 0-9 - _ . ~`. */
  predicate Unreserved(b: byte) {
    || 0x41 <= b <= 0x5A || 0x61 <= b <= 0x7A || 0x30 <= b <= 0x39
    || b == 0x2D || b == 0x5F || b == 0x2E || b == 0x7E
  }

  /** The upper-case hexadecimal digit of `n`. */
  function HexDigit(n: byte): (d: byte)
    requires n < 16
    ensures d != PERCENT && d != PLUS && HexValue(d) == Some(n)
  {
    if n < 10 then 0x30 + n else 0x37 + n
  }

  function HexValue(d: byte): Option<byte> {
    if 0x30 <= d <= 0x39 then Some(d - 0x30)
    else if 0x41 <= d <= 0x46 then Some(d - 0x37)
    else if 0x61 <= d <= 0x66 then Some(d - 0x57)
    else None
  }

  /** `u8::from_str_radix` on two characters: it also takes a leading `+`. */
  function ParseHexPair(high: byte, low: byte): Option<byte> {
    if HexValue(low).None? then None
    else if high == PLUS then HexValue(low)
    else if HexValue(high).None? then None
    else Some(((HexValue(high).value as int) * 16 + HexValue(low).value as int) as byte)
  }

  function EncodedByte(b: byte): (e: Bytes)
    ensures |e| >= 1 && forall i :: 0 <= i < |e| ==> Unreserved(e[i]) || e[i] == PERCENT
  {
    if Unreserved(b) then [b] else [PERCENT, HexDigit(b / 16), HexDigit(b % 16)]
  }

  function Encoded(src: Bytes): (e: Bytes)
    ensures forall i :: 0 <= i < |e| ==> Unreserved(e[i]) || e[i] == PERCENT
  {
    if src == [] then [] else EncodedByte(src[0]) + Encoded(src[1..])
  }

  function Decoded(src: Bytes): Bytes {
    if src == [] then []
    else if src[0] == PERCENT && |src| > 2 && ParseHexPair(src[1], src[2]).Some? then
      [ParseHexPair(src[1], src[2]).value] + Decoded(src[3..])
    else [src[0]] + Decoded(src[1..])
  }

  lemma TurnEncodes(done: Bytes, src: Bytes, i: nat)
    requires i < |src|
    ensures (done + EncodedByte(src[i])) + Encoded(src[i + 1..]) == done + Encoded(src[i..])
  {
    var rest := src[i..];
    assert rest[0] == src[i] && rest[1..] == src[i + 1..];
    Associates(done, EncodedByte(src[i]), Encoded(src[i + 1..]));
  }

  /** `encode_uri_component`. */
  method EncodeUriComponent(src: Bytes, dest: Bytes) returns (result: Bytes)
    ensures result == dest + Encoded(src)
  {
    result := dest;
    for i := 0 to |src|
      invariant result + Encoded(src[i..]) == dest + Encoded(src)
    {
      TurnEncodes(result, src, i);
      result := PushEncoded(src[i], result);
    }
  }

  /** One turn of the loop: the byte itself, or `%` and two digits. */
  method PushEncoded(b: byte, dest: Bytes) returns (result: Bytes)
    ensures result == dest + EncodedByte(b)
  {
    if Unreserved(b) {
      result := dest + [b];
    } else {
      result := dest + [PERCENT] + [HexDigit(b / 16)] + [HexDigit(b % 16)];
    }
  }

  /** How many bytes the decoding of `src` takes in first, and the byte it makes of them. */
  function DecodedFirst(src: Bytes): (nat, byte)
    requires src != []
  {
    if src[0] == PERCENT && |src| > 2 && ParseHexPair(src[1], src[2]).Some? then (3, ParseHexPair(src[1], src[2]).value)
    else (1, src[0])
  }

  lemma TurnDecodes(done: Bytes, src: Bytes, index: nat)
    requires index < |src|
    ensures
      var (taken, b) := DecodedFirst(src[index..]);
      index + taken <= |src| && (done + [b]) + Decoded(src[index + taken..]) == done + Decoded(src[index..])
  {
    var rest := src[index..];
    var (taken, b) := DecodedFirst(rest);
    assert rest[taken..] == src[index + taken..];
    Associates(done, [b], Decoded(rest[taken..]));
  }

  /** `percent_decode`. */
  method PercentDecode(src: Bytes) returns (result: Bytes)
    ensures result == Decoded(src)
  {
    result := [];
    var index := 0;
    while index < |src|
      invariant 0 <= index <= |src|
      invariant result + Decoded(src[index..]) == Decoded(src)
    {
      TurnDecodes(result, src, index);
      if src[index] == PERCENT && index + 2 < |src| {
        var parsed := ParseHexPair(src[index + 1], src[index + 2]);
        if parsed.Some? {
          result := result + [parsed.value];
          index := index + 3;
          continue;
        }
      }
      result := result + [src[index]];
      index := index + 1;
    }
  }

  lemma DecodedEscape(b: byte, rest: Bytes)
    ensures Decoded(EncodedByte(b) + rest) == [b] + Decoded(rest)
  {
    var e := EncodedByte(b);
    assert (e + rest)[|e|..] == rest;
    if !Unreserved(b) {
      assert ParseHexPair(e[1], e[2]) == Some(b);
      assert (e + rest)[1] == e[1] && (e + rest)[2] == e[2];
    }
  }

  /** Decoding undoes encoding, for every byte string. */
  lemma {:induction false} DecodeUndoesEncode(src: Bytes)
    ensures Decoded(Encoded(src)) == src
  {
    if src != [] {
      DecodedEscape(src[0], Encoded(src[1..]));
      DecodeUndoesEncode(src[1..]);
    }
  }

  // ----- The server's own encoder -----

  /** The digits of the server's table. */
  function HexChar(n: nat): (c: char)
    requires n < 16
    ensures c as int < 128
  {
    match n
    case 0 => '0' case 1 => '1' case 2 => '2' case 3 => '3' case 4 => '4' case 5 => '5' case 6 => '6' case 7 => '7'
    case 8 => '8' case 9 => '9' case 10 => 'A' case 11 => 'B' case 12 => 'C' case 13 => 'D' case 14 => 'E'
    case _ => 'F'
  }

  function ServerEncodedByte(b: byte): Bytes {
    var c := (b as int) as char;
    if 'A' <= c <= 'Z' || 'a' <= c <= 'z' || '0' <= c <= '9' || c == '-' || c == '_' || c == '.' || c == '~' then [b]
    else [('%' as int) as byte, (HexChar(b as int / 16) as int) as byte, (HexChar(b as int % 16) as int) as byte]
  }

  function ServerEncoded(src: Bytes): Bytes {
    if src == [] then [] else ServerEncoded(src[..|src| - 1]) + ServerEncodedByte(src[|src| - 1])
  }

  /** The server's `uri_encode`, written independently of the client's. */
  method UriEncode(src: Bytes) returns (result: Bytes)
    ensures result == ServerEncoded(src)
  {
    result := [];
    for i := 0 to |src|
      invariant result == ServerEncoded(src[..i])
    {
      assert src[..i + 1] == src[..i] + [src[i]];
      result := result + ServerEncodedByte(src[i]);
    }
    assert src[..|src|] == src;
  }

  /** `d` is the hexadecimal digit of `i`, in either case. */
  predicate IsHex(d: byte, i: nat)
    requires i < 16
  {
    d as int == HexChar(i) as int || (i >= 10 && d as int == HexChar(i) as int + 32)
  }

  lemma HexValueExactlyWhen(d: byte, i: nat)
    requires i < 16
    ensures HexValue(d).Some? && HexValue(d).value as int == i <==> IsHex(d, i)
  {
  }

  /** Two characters after a `%` that stand for `v`: two digits, or a plus sign and a digit. */
  ghost predicate IsEscape(high: byte, low: byte, v: byte) {
    exists j: nat :: j < 16 && IsHex(low, j) &&
      ((high as int == '+' as int && v as int == j) || exists i: nat :: i < 16 && IsHex(high, i) && v as int == 16 * i + j)
  }

  lemma EscapeIsParsed(high: byte, low: byte, v: byte)
    ensures ParseHexPair(high, low) == Some(v) <==> IsEscape(high, low, v)
  {
    var h, l := HexValue(high), HexValue(low);
    forall i: nat | i < 16
      ensures h.Some? && h.value as int == i <==> IsHex(high, i)
      ensures l.Some? && l.value as int == i <==> IsHex(low, i)
    {
      HexValueExactlyWhen(high, i);
      HexValueExactlyWhen(low, i);
    }
    if ParseHexPair(high, low) == Some(v) {
      var j := l.value as int;
      assert IsHex(low, j);
      if high != PLUS {
        assert IsHex(high, h.value as int);
      }
    }
  }

  /** What decoding does at each byte: an escape is one byte, and everything else is itself - a `+` too. */
  lemma DecodedExactlyWhen(src: Bytes)
    requires src != []
    ensures forall v: byte :: src[0] as int == '%' as int && |src| >= 3 && IsEscape(src[1], src[2], v) ==>
              Decoded(src) == [v] + Decoded(src[3..])
    ensures (src[0] as int != '%' as int || |src| < 3 || forall v: byte :: !IsEscape(src[1], src[2], v)) ==>
              Decoded(src) == [src[0]] + Decoded(src[1..])
  {
    if |src| >= 3 {
      forall v: byte
        ensures ParseHexPair(src[1], src[2]) == Some(v) <==> IsEscape(src[1], src[2], v)
      {
        EscapeIsParsed(src[1], src[2], v);
      }
    }
  }

  lemma HexDigitsAgree(n: byte)
    requires n < 16
    ensures HexDigit(n) as int == HexChar(n as int) as int
  {
  }

  lemma BytesAgree(b: byte)
    ensures EncodedByte(b) == ServerEncodedByte(b)
  {
    HexDigitsAgree(b / 16);
    HexDigitsAgree(b % 16);
    assert (b / 16) as int == b as int / 16 && (b % 16) as int == b as int % 16;
  }

  lemma {:induction false} EncodedSnoc(src: Bytes, b: byte)
    ensures Encoded(src + [b]) == Encoded(src) + EncodedByte(b)
    decreases |src|
  {
    if src == [] {
      assert [] + [b] == [b] && [b][1..] == [];
    } else {
      assert (src + [b])[1..] == src[1..] + [b];
      EncodedSnoc(src[1..], b);
      Associates(EncodedByte(src[0]), Encoded(src[1..]), EncodedByte(b));
    }
  }

  /** Client and server encode every byte string alike. */
  lemma {:induction false} EncodersAgree(src: Bytes)
    ensures Encoded(src) == ServerEncoded(src)
  {
    if src != [] {
      var init, last := src[..|src| - 1], src[|src| - 1];
      EncodersAgree(init);
      EncodedSnoc(init, last);
      BytesAgree(last);
      assert src == init + [last];
    }
  }

  /** What a server makes of a name or value it decodes and encodes again. */
  function Normalized(src: Bytes): Bytes {
    ServerEncoded(Decoded(src))
  }

  lemma NormalizedIsEncoded(src: Bytes)
    ensures Normalized(src) == Encoded(Decoded(src))
    ensures forall i :: 0 <= i < |Normalized(src)| ==> Unreserved(Normalized(src)[i]) || Normalized(src)[i] == PERCENT
  {
    EncodersAgree(Decoded(src));
  }

  /** An encoder could have written this. */
  ghost predicate IsEncoding(src: Bytes) {
    exists plain: Bytes :: src == Encoded(plain)
  }

  /** Normalising is idempotent, and leaves alone exactly what an encoder could have written. */
  lemma NormalizedIsCanonical(src: Bytes)
    ensures Normalized(Normalized(src)) == Normalized(src)
    ensures Normalized(src) == src <==> IsEncoding(src)
  {
    EncodersAgree(Decoded(src));
    EncodersAgree(Decoded(Normalized(src)));
    DecodeUndoesEncode(Decoded(src));
    if plain: Bytes :| src == Encoded(plain) {
      DecodeUndoesEncode(plain);
      EncodersAgree(plain);
    }
  }

  lemma {:induction false} UnreservedIsUnchanged(src: Bytes)
    requires forall i :: 0 <= i < |src| ==> Unreserved(src[i])
    ensures Encoded(src) == src
  {
    if src != [] {
      UnreservedIsUnchanged(src[1..]);
    }
  }
}
