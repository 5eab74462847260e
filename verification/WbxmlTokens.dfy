/**
 The code-page tables the codec looks names up in (internal/eas/tokens.go): which
 tables make a faithful lookup, the one thing the round trip asks of them, and that
 the order in which pages are ranged over does not matter.
 */
module WbxmlTokens {
  import opened Options
  import opened WbxmlEncoder
  import opened WbxmlDecoder
  import opened WbxmlRoundTrip

  datatype Codec = Codec(tokens: map<int, map<string, byte>>, names: map<int, map<byte, string>>)

  function Token(c: Codec, page: int, name: string): Option<byte> {
    if page in c.tokens && name in c.tokens[page] then Some(c.tokens[page][name]) else None
  }

  function Name(c: Codec, page: int, tok: byte): Option<string> {
    if page in c.names && tok in c.names[page] then Some(c.names[page][tok]) else None
  }

  function AsLookup(c: Codec): Lookup {
    Lookup((page: int, name: string) => Token(c, page, name), (page: int, tok: byte) => Name(c, page, tok))
  }

  /** Name number i of a page is token i + 5, in one byte; empty names are gaps. */
  function TokensOf(list: seq<string>): map<string, byte> {
    if list == [] then map[]
    else
      var i := |list| - 1;
      if list[i] == "" then TokensOf(list[..i]) else TokensOf(list[..i])[list[i] := (i + 5) % 256]
  }

  function NamesOf(list: seq<string>): map<byte, string> {
    if list == [] then map[]
    else
      var i := |list| - 1;
      if list[i] == "" then NamesOf(list[..i]) else NamesOf(list[..i])[(i + 5) % 256 := list[i]]
  }

  method BuildPage(list: seq<string>) returns (tokens: map<string, byte>, names: map<byte, string>)
    ensures tokens == TokensOf(list) && names == NamesOf(list)
  {
    tokens, names := map[], map[];
    for i := 0 to |list|
      invariant tokens == TokensOf(list[..i]) && names == NamesOf(list[..i])
    {
      assert list[..i + 1][..i] == list[..i];
      if list[i] == "" {
        continue;
      }
      var tok := (i + 5) % 256;
      tokens := tokens[list[i] := tok];
      names := names[tok := list[i]];
    }
    assert list[..|list|] == list;
  }

  /** The tables hold exactly the pages listed. */
  ghost predicate BuiltFrom(pages: map<int, seq<string>>, done: seq<int>, c: Codec) {
    && (forall p :: p in done ==> p in pages)
    && (forall p :: p in c.tokens <==> p in done)
    && (forall p :: p in c.names <==> p in done)
    && (forall p :: p in done ==> c.tokens[p] == TokensOf(pages[p]) && c.names[p] == NamesOf(pages[p]))
  }

  ghost predicate BuiltFor(pages: map<int, seq<string>>, c: Codec) {
    && (forall p :: p in c.tokens <==> p in pages)
    && (forall p :: p in c.names <==> p in pages)
    && (forall p :: p in pages ==> c.tokens[p] == TokensOf(pages[p]) && c.names[p] == NamesOf(pages[p]))
  }

  /** Ranges over the pages in whatever order the map yields them. */
  method NewCodec(pages: map<int, seq<string>>, order: seq<int>) returns (c: Codec)
    requires forall p :: p in pages <==> p in order
    ensures BuiltFor(pages, c)
  {
    c := Codec(map[], map[]);
    for i := 0 to |order|
      invariant BuiltFrom(pages, order[..i], c)
    {
      var page := order[i];
      var tokens, names := BuildPage(pages[page]);
      c := Codec(c.tokens[page := tokens], c.names[page := names]);
      assert order[..i + 1] == order[..i] + [page];
    }
    assert order[..|order|] == order;
  }

  /** A page of at most 59 names is inverse both ways, with tokens 0x05 to 0x3F. */
  lemma {:induction false} PageInverse(list: seq<string>)
    requires |list| <= 59
    ensures forall name :: name in TokensOf(list) ==>
      var tok := TokensOf(list)[name];
      && name != "" && 5 <= tok < 64 && tok < |list| + 5
      && tok in NamesOf(list) && NamesOf(list)[tok] == name
    ensures forall tok :: tok in NamesOf(list) ==> tok < |list| + 5
  {
    if list != [] {
      PageInverse(list[..|list| - 1]);
    }
  }

  /** Name number i of a page has token i + 5, and a gap has none. */
  lemma {:induction false} TokenPlace(list: seq<string>, i: nat)
    requires |list| <= 59 && i < |list|
    ensures list[i] == "" ==> i + 5 !in NamesOf(list)
    ensures list[i] != "" ==> i + 5 in NamesOf(list) && NamesOf(list)[i + 5] == list[i]
    ensures list[i] != "" && list[i] !in list[i + 1..] ==> list[i] in TokensOf(list) && TokensOf(list)[list[i]] == i + 5
  {
    var n := |list| - 1;
    if i < n {
      TokenPlace(list[..n], i);
      assert list[i + 1..] == list[..n][i + 1..] + [list[n]];
    } else {
      PageInverse(list[..n]);
    }
  }

  /** The codec built from such pages round-trips every sized tree it can encode. */
  lemma CodecRoundTrip(pages: map<int, seq<string>>, c: Codec, n: Node)
    requires forall p :: p in pages ==> |pages[p]| <= 59
    requires BuiltFor(pages, c)
    requires Sized(n)
    ensures Encode(AsLookup(c), n).Some? <==> Named(AsLookup(c), n)
    ensures Encode(AsLookup(c), n).Some? ==>
      Decode(Encode(AsLookup(c), n).value, AsLookup(c)) == Ok(Normal(AsLookup(c), n))
  {
    var l := AsLookup(c);
    forall page, name | l.token(page, name).Some?
      ensures var tok := l.token(page, name).value;
        5 <= tok < 64 && name != "" && l.name(page, tok) == Some(name)
    {
      PageInverse(pages[page]);
    }
    EncodableNamed(l, n);
    if Encode(l, n).Some? {
      RoundTrip(l, n);
    }
  }
}
