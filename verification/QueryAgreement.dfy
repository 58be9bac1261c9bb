/**
  The query of a listing, as the client builds and signs it and as a server that decodes and
  re-encodes it signs it.
*/
module QueryAgreement {
  import opened Bytes
  import opened UriEncoding
  import opened CanonicalQuery
  import opened Decimals

  // ----- The server -----

  function NormalizedPair(p: Pair): Pair {
    Pair(Normalized(p.name), Normalized(p.value))
  }

  function NormalizedPairs(pairs: seq<Pair>): (n: seq<Pair>)
    ensures |n| == |pairs| && forall i :: 0 <= i < |pairs| ==> n[i] == NormalizedPair(pairs[i])
  {
    seq(|pairs|, i requires 0 <= i < |pairs| => NormalizedPair(pairs[i]))
  }

  /** The server's `canonical_query`: split, decode, encode again, sort, join. */
  function ServerCanonical(query: Bytes): Bytes {
    Join(Sort(NormalizedPairs(Pairs(query))))
  }

  /** Encoded text holds none of the bytes a query is split at. */
  lemma EncodedIsSplittable(name: Bytes, value: Bytes)
    ensures Splittable(Pair(Encoded(name), Encoded(value)))
  {
  }

  lemma NormalizedAreSplittable(pairs: seq<Pair>)
    ensures AllSplittable(NormalizedPairs(pairs))
  {
    forall i | 0 <= i < |pairs|
      ensures Splittable(NormalizedPairs(pairs)[i])
    {
      NormalizedIsEncoded(pairs[i].name);
      NormalizedIsEncoded(pairs[i].value);
      EncodedIsSplittable(Decoded(pairs[i].name), Decoded(pairs[i].value));
    }
  }

  /** Every name and value on the wire is its own normal form: something an encoder could have written. */
  ghost predicate WellEncoded(query: Bytes) {
    forall i :: 0 <= i < |Pairs(query)| ==> NormalizedPair(Pairs(query)[i]) == Pairs(query)[i]
  }

  lemma ServerSplitsSorted(query: Bytes)
    ensures Pairs(ServerCanonical(query)) == Sort(NormalizedPairs(Pairs(query)))
    ensures multiset(Pairs(ServerCanonical(query))) == multiset(NormalizedPairs(Pairs(query)))
  {
    var normalized := NormalizedPairs(Pairs(query));
    NormalizedAreSplittable(Pairs(query));
    SortKeepsSplittable(normalized);
    SplitUndoesJoin(Sort(normalized));
    SortSorts(normalized);
  }

  /** A normalised pair is its own normal form, so pairs that equal their normal forms are normal. */
  lemma SamePairsAreNormal(pairs: seq<Pair>, i: nat)
    requires i < |pairs| && multiset(pairs) == multiset(NormalizedPairs(pairs))
    ensures NormalizedPair(pairs[i]) == pairs[i]
  {
    assert pairs[i] in multiset(NormalizedPairs(pairs));
    var j :| 0 <= j < |pairs| && NormalizedPairs(pairs)[j] == pairs[i];
    NormalizedIsCanonical(pairs[j].name);
    NormalizedIsCanonical(pairs[j].value);
  }

  /** For any query at all: client and server sign the same string exactly when it is well encoded. */
  lemma SignaturesAgreeIffWellEncoded(query: Bytes)
    ensures Canonical(query) == ServerCanonical(query) <==> WellEncoded(query)
  {
    var pairs := Pairs(query);
    if WellEncoded(query) {
      assert NormalizedPairs(pairs) == pairs;
    }
    if Canonical(query) == ServerCanonical(query) {
      CanonicalSplitsSorted(query);
      ServerSplitsSorted(query);
      forall i | 0 <= i < |pairs|
        ensures NormalizedPair(pairs[i]) == pairs[i]
      {
        SamePairsAreNormal(pairs, i);
      }
    }
  }

  /** A reserved byte sent as it is - the `+` of a form encoder, say - makes the signatures differ. */
  lemma RawReservedByteBreaksTheSignature(query: Bytes, i: nat, b: byte)
    requires i < |Pairs(query)| && (b in Pairs(query)[i].name || b in Pairs(query)[i].value)
    requires !Unreserved(b) && b != PERCENT
    ensures Canonical(query) != ServerCanonical(query)
  {
    SignaturesAgreeIffWellEncoded(query);
    var p := Pairs(query)[i];
    NormalizedIsEncoded(p.name);
    NormalizedIsEncoded(p.value);
    assert b !in Normalized(p.name) && b !in Normalized(p.value);
    assert NormalizedPair(p) != p;
  }

  // ----- The client's query builder -----

  datatype Param = Param(name: Bytes, value: Option<Bytes>)

  function Appended(query: Bytes, p: Param): Bytes {
    if p.value.None? then query
    else query + (if query == [] then [] else [AMPERSAND]) + Encoded(p.name) + [EQUALS] + Encoded(p.value.value)
  }

  /** `append_query_param`: an absent value appends nothing at all. */
  method AppendQueryParam(query: Bytes, name: Bytes, value: Option<Bytes>) returns (result: Bytes)
    ensures result == Appended(query, Param(name, value))
  {
    result := query;
    if value.None? {
      return;
    }
    if result != [] {
      result := result + [AMPERSAND];
    }
    result := EncodeUriComponent(name, result);
    result := result + [EQUALS];
    result := EncodeUriComponent(value.value, result);
  }

  /** The parameters that were asked for, in order. */
  function Present(params: seq<Param>): seq<Pair> {
    if params == [] then []
    else
      var init, last := params[..|params| - 1], params[|params| - 1];
      Present(init) + (if last.value.None? then [] else [Pair(last.name, last.value.value)])
  }

  function Built(params: seq<Param>): Bytes {
    if params == [] then [] else Appended(Built(params[..|params| - 1]), params[|params| - 1])
  }

  function EncodedPairs(pairs: seq<Pair>): (e: seq<Pair>)
    ensures |e| == |pairs|
    ensures forall i :: 0 <= i < |pairs| ==> e[i] == Pair(Encoded(pairs[i].name), Encoded(pairs[i].value))
  {
    seq(|pairs|, i requires 0 <= i < |pairs| => Pair(Encoded(pairs[i].name), Encoded(pairs[i].value)))
  }

  lemma JoinIsEmpty(pairs: seq<Pair>)
    ensures Join(pairs) == [] <==> pairs == []
  {
  }

  function EncodedPair(p: Pair): Pair {
    Pair(Encoded(p.name), Encoded(p.value))
  }

  lemma EncodedPairsSnoc(pairs: seq<Pair>, p: Pair)
    ensures EncodedPairs(pairs + [p]) == EncodedPairs(pairs) + [EncodedPair(p)]
  {
  }

  lemma AppendedIsJoin(pairs: seq<Pair>, p: Param)
    requires p.value.Some?
    ensures Appended(Join(EncodedPairs(pairs)), p) == Join(EncodedPairs(pairs + [Pair(p.name, p.value.value)]))
  {
    var last := Pair(p.name, p.value.value);
    JoinIsEmpty(EncodedPairs(pairs));
    EncodedPairsSnoc(pairs, last);
    JoinSnoc(EncodedPairs(pairs), EncodedPair(last));
  }

  lemma {:induction false} BuiltIsJoin(params: seq<Param>)
    ensures Built(params) == Join(EncodedPairs(Present(params)))
  {
    if params != [] {
      var init, last := params[..|params| - 1], params[|params| - 1];
      BuiltIsJoin(init);
      if last.value.Some? {
        AppendedIsJoin(Present(init), last);
      } else {
        assert Present(params) == Present(init);
      }
    }
  }

  /** On the wire the built query holds exactly the encoded parameters that were asked for, in order. */
  lemma BuiltPairs(params: seq<Param>)
    ensures Pairs(Built(params)) == EncodedPairs(Present(params))
  {
    BuiltIsJoin(params);
    var pairs := EncodedPairs(Present(params));
    forall i | 0 <= i < |pairs|
      ensures Splittable(pairs[i])
    {
      EncodedIsSplittable(Present(params)[i].name, Present(params)[i].value);
    }
    SplitUndoesJoin(pairs);
  }

  function DecodedPairs(pairs: seq<Pair>): (d: seq<Pair>)
    ensures |d| == |pairs|
    ensures forall i :: 0 <= i < |pairs| ==> d[i] == Pair(Decoded(pairs[i].name), Decoded(pairs[i].value))
  {
    seq(|pairs|, i requires 0 <= i < |pairs| => Pair(Decoded(pairs[i].name), Decoded(pairs[i].value)))
  }

  lemma EncodedIsNormal(plain: Bytes)
    ensures Decoded(Encoded(plain)) == plain && Normalized(Encoded(plain)) == Encoded(plain)
  {
    DecodeUndoesEncode(plain);
    EncodersAgree(plain);
  }

  /**
    For every set of parameters: client and server sign the same string, and what the server decodes
    is what was asked for.
  */
  lemma BuiltQueryIsSignedAlike(params: seq<Param>)
    ensures Canonical(Built(params)) == ServerCanonical(Built(params))
    ensures DecodedPairs(Pairs(Built(params))) == Present(params)
  {
    BuiltPairs(params);
    var present := Present(params);
    var pairs := Pairs(Built(params));
    forall i | 0 <= i < |pairs|
      ensures NormalizedPair(pairs[i]) == pairs[i] && DecodedPairs(pairs)[i] == present[i]
    {
      EncodedIsNormal(present[i].name);
      EncodedIsNormal(present[i].value);
    }
    SignaturesAgreeIffWellEncoded(Built(params));
  }

  // ----- The listing query -----

  /** The bytes of a text written in ASCII. */
  function Ascii(s: string): (bytes: Bytes)
    ensures |bytes| == |s|
    ensures forall i :: 0 <= i < |s| && s[i] as int < 128 ==> bytes[i] as int == s[i] as int
  {
    seq(|s|, i requires 0 <= i < |s| => ((s[i] as int) % 128) as byte)
  }

  datatype ListRequest = ListRequest(
    prefix: Option<Bytes>,
    delimiter: Option<Bytes>,
    continuationToken: Option<Bytes>,
    maxKeys: Option<nat>)

  function ListType(): Param {
    Param(Ascii("list-type"), Some(Ascii("2")))
  }

  predicate UnreservedText(s: string) {
    forall i :: 0 <= i < |s| ==> 'a' <= s[i] <= 'z' || '0' <= s[i] <= '9' || s[i] == '-'
  }

  lemma AsciiIsUnchanged(s: string)
    requires UnreservedText(s)
    ensures Encoded(Ascii(s)) == Ascii(s)
  {
    UnreservedIsUnchanged(Ascii(s));
  }

  lemma AsciiConcat(a: string, b: string)
    ensures Ascii(a + b) == Ascii(a) + Ascii(b)
  {
  }

  lemma WrittenOutIsBuilt(name: string, value: string)
    requires UnreservedText(name) && UnreservedText(value)
    ensures Ascii(name + "=" + value) == Appended([], Param(Ascii(name), Some(Ascii(value))))
  {
    AsciiIsUnchanged(name);
    AsciiIsUnchanged(value);
    AsciiConcat(name + "=", value);
    AsciiConcat(name, "=");
    assert Ascii("=") == [EQUALS];
    assert [] + [] + Ascii(name) == Ascii(name);
  }

  /** The first parameter is written out in the source; every byte of it encodes to itself. */
  lemma ListTypeIsBuilt()
    ensures Ascii("list-type=2") == Built([ListType()])
  {
    WrittenOutIsBuilt("list-type", "2");
    assert "list-type" + "=" + "2" == "list-type=2";
    BuiltSnoc([], ListType());
    assert [] + [ListType()] == [ListType()];
  }

  lemma BuiltSnoc(params: seq<Param>, p: Param)
    ensures Built(params + [p]) == Appended(Built(params), p)
  {
    assert (params + [p])[..|params|] == params;
  }

  /** Appending one more parameter to a built query. */
  method AppendParam(query: Bytes, ghost params: seq<Param>, name: Bytes, value: Option<Bytes>)
    returns (result: Bytes, ghost more: seq<Param>)
    requires query == Built(params)
    ensures more == params + [Param(name, value)] && result == Built(more)
  {
    BuiltSnoc(params, Param(name, value));
    more := params + [Param(name, value)];
    result := AppendQueryParam(query, name, value);
  }

  method AppendFour(query: Bytes, ghost params: seq<Param>, a: Param, b: Param, c: Param, d: Param)
    returns (result: Bytes)
    requires query == Built(params)
    ensures result == Built(params + [a, b, c, d])
  {
    ghost var more;
    result, more := AppendParam(query, params, a.name, a.value);
    result, more := AppendParam(result, more, b.name, b.value);
    result, more := AppendParam(result, more, c.name, c.value);
    result, more := AppendParam(result, more, d.name, d.value);
    assert more == params + [a, b, c, d];
  }

  // ----- What the listing sends -----

  /** A parameter under a name that is written as it is, and the text that introduces it. */
  datatype Written = Written(name: string, text: string, value: Option<Bytes>)

  predicate IsWritten(w: Written) {
    UnreservedText(w.name) && w.text == "&" + w.name + "="
  }

  function ParamOf(w: Written): Param {
    Param(Ascii(w.name), w.value)
  }

  /** What it adds to the query as written: nothing when it was not asked for. */
  function PartOf(w: Written): Bytes {
    if w.value.None? then [] else Ascii(w.text) + Encoded(w.value.value)
  }

  function Prefix(value: Option<Bytes>): (w: Written)
    ensures IsWritten(w) && w.text == "&prefix=" && w.value == value
  {
    assert "&" + "prefix" + "=" == "&prefix=";
    Written("prefix", "&prefix=", value)
  }

  function Delimiter(value: Option<Bytes>): (w: Written)
    ensures IsWritten(w) && w.text == "&delimiter=" && w.value == value
  {
    assert "&" + "delimiter" + "=" == "&delimiter=";
    Written("delimiter", "&delimiter=", value)
  }

  function ContinuationToken(value: Option<Bytes>): (w: Written)
    ensures IsWritten(w) && w.text == "&continuation-token=" && w.value == value
  {
    assert "&" + "continuation-token" + "=" == "&continuation-token=";
    Written("continuation-token", "&continuation-token=", value)
  }

  function MaxKeys(value: Option<nat>): (w: Written)
    ensures IsWritten(w) && w.text == "&max-keys=" && (value.None? <==> w.value.None?)
  {
    assert "&" + "max-keys" + "=" == "&max-keys=";
    Written("max-keys", "&max-keys=", if value.Some? then Some(Ascii(DecimalText(value.value))) else None)
  }

  function ListParams(request: ListRequest): seq<Param> {
    [ListType()] + [ParamOf(Prefix(request.prefix)), ParamOf(Delimiter(request.delimiter)),
                    ParamOf(ContinuationToken(request.continuationToken)), ParamOf(MaxKeys(request.maxKeys))]
  }

  /** A listing's query as it is written. */
  function ListQueryText(request: ListRequest): Bytes {
    Ascii("list-type=2")
    + PartOf(Prefix(request.prefix)) + PartOf(Delimiter(request.delimiter))
    + PartOf(ContinuationToken(request.continuationToken)) + PartOf(MaxKeys(request.maxKeys))
  }

  lemma NameIsWritten(w: Written)
    requires IsWritten(w)
    ensures Ascii(w.text) == [AMPERSAND] + Encoded(Ascii(w.name)) + [EQUALS]
  {
    AsciiIsUnchanged(w.name);
    AsciiConcat("&" + w.name, "=");
    AsciiConcat("&", w.name);
    assert Ascii("&") == [AMPERSAND] && Ascii("=") == [EQUALS];
  }

  lemma Regroup(a: Bytes, b: Bytes, c: Bytes, d: Bytes, e: Bytes)
    ensures a + b + c + d + e == a + ((b + c + d) + e)
  {
  }

  lemma AppendedIsWritten(query: Bytes, w: Written)
    requires query != [] && IsWritten(w)
    ensures Appended(query, ParamOf(w)) == query + PartOf(w)
  {
    if w.value.Some? {
      NameIsWritten(w);
      Regroup(query, [AMPERSAND], Encoded(Ascii(w.name)), [EQUALS], Encoded(w.value.value));
    }
  }

  lemma WrittenSnoc(params: seq<Param>, query: Bytes, w: Written) returns (more: seq<Param>)
    requires Built(params) == query != [] && IsWritten(w)
    ensures more == params + [ParamOf(w)] && Built(more) == query + PartOf(w) != []
  {
    more := params + [ParamOf(w)];
    BuiltSnoc(params, ParamOf(w));
    AppendedIsWritten(query, w);
  }

  lemma FourAreWritten(params: seq<Param>, head: Bytes, a: Written, b: Written, c: Written, d: Written)
    requires head == Built(params) && head != [] && IsWritten(a) && IsWritten(b) && IsWritten(c) && IsWritten(d)
    ensures Built(params + [ParamOf(a), ParamOf(b), ParamOf(c), ParamOf(d)]) ==
            head + PartOf(a) + PartOf(b) + PartOf(c) + PartOf(d)
  {
    var one := WrittenSnoc(params, head, a);
    var two := WrittenSnoc(one, head + PartOf(a), b);
    var three := WrittenSnoc(two, head + PartOf(a) + PartOf(b), c);
    var four := WrittenSnoc(three, head + PartOf(a) + PartOf(b) + PartOf(c), d);
    assert four == params + [ParamOf(a), ParamOf(b), ParamOf(c), ParamOf(d)];
  }

  lemma ListQueryIsWritten(request: ListRequest)
    ensures Built(ListParams(request)) == ListQueryText(request)
  {
    ListTypeIsBuilt();
    assert |Ascii("list-type=2")| == |"list-type=2"|;
    FourAreWritten([ListType()], Ascii("list-type=2"), Prefix(request.prefix), Delimiter(request.delimiter),
                   ContinuationToken(request.continuationToken), MaxKeys(request.maxKeys));
  }

  /**
    The query part of `list_objects_v2`, as it is written: the listing's own names with the values
    asked for, in one order; decoding it gives them back, and client and server sign it alike.
  */
  method BuildListQuery(request: ListRequest) returns (query: Bytes)
    ensures query == Built(ListParams(request)) == ListQueryText(request)
    ensures DecodedPairs(Pairs(query)) == Present(ListParams(request))
    ensures Canonical(query) == ServerCanonical(query)
  {
    ListTypeIsBuilt();
    query := AppendFour(Ascii("list-type=2"), [ListType()],
                        ParamOf(Prefix(request.prefix)), ParamOf(Delimiter(request.delimiter)),
                        ParamOf(ContinuationToken(request.continuationToken)), ParamOf(MaxKeys(request.maxKeys)));
    ListQueryIsWritten(request);
    BuiltQueryIsSignedAlike(ListParams(request));
  }
}
