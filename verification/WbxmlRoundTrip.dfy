/** Decoding what was encoded: every encodable tree comes back in its normal form. */
module WbxmlRoundTrip {
  import opened Options
  import opened WbxmlEncoder
  import opened WbxmlDecoder

  /** Names and tokens are inverse, and tokens are in the range the format leaves for them. */
  ghost predicate Faithful(l: Lookup) {
    forall page, name :: l.token(page, name).Some? ==>
      var tok := l.token(page, name).value;
      5 <= tok < 64 && name != "" && l.name(page, tok) == Some(name)
  }

  /** Code pages and opaque lengths fit the 32-bit integers they are written as. */
  predicate Sized(n: Node) {
    && 0 <= n.page < UINT32
    && |n.text| < UINT32
    && AllSized(n.children)
  }

  predicate AllSized(ns: seq<Node>) {
    ns == [] || (Sized(ns[0]) && AllSized(ns[1..]))
  }

  /** Every element, at any depth, has a name on its code page. */
  predicate Named(l: Lookup, n: Node) {
    l.token(n.page, n.name).Some? && forall c :: c in n.children ==> Named(l, c)
  }

  /**
   What survives: text is dropped beside children, NULs are dropped from plain
   text, the forced content bit is not recovered, and the token is filled in.
   */
  function Normal(l: Lookup, n: Node): Node {
    var tok := match l.token(n.page, n.name) case Some(t) => t case None => 0;
    Node(n.page, n.name, tok,
         if n.children != [] then [] else if n.binary then n.text else StripNul(n.text),
         Normals(l, n.children),
         n.binary && n.children == [] && HasContent(n), false)
  }

  function Normals(l: Lookup, ns: seq<Node>): seq<Node> {
    if ns == [] then [] else [Normal(l, ns[0])] + Normals(l, ns[1..])
  }

  // ----- Bytes found at a position -----

  ghost predicate Found(data: seq<byte>, pos: nat, bytes: seq<byte>) {
    pos + |bytes| <= |data| && forall k :: 0 <= k < |bytes| ==> data[pos + k] == bytes[k]
  }

  lemma FoundSplit(data: seq<byte>, pos: nat, a: seq<byte>, b: seq<byte>)
    requires Found(data, pos, a + b)
    ensures Found(data, pos, a) && Found(data, pos + |a|, b)
  {
    forall k | 0 <= k < |a| ensures data[pos + k] == a[k] {
      assert (a + b)[k] == a[k];
    }
    forall k | 0 <= k < |b| ensures data[pos + |a| + k] == b[k] {
      assert (a + b)[|a| + k] == b[k];
    }
  }

  lemma FoundSlice(data: seq<byte>, pos: nat, bytes: seq<byte>)
    requires Found(data, pos, bytes)
    ensures data[pos..pos + |bytes|] == bytes
  {
  }

  lemma FoundAt(data: seq<byte>, pos: nat, bytes: seq<byte>, k: nat)
    requires Found(data, pos, bytes) && k < |bytes|
    ensures data[pos + k] == bytes[k]
  {
  }

  // ----- Multi-byte integers -----

  lemma ReadDigit(data: seq<byte>, pos: nat, i: nat, v: nat, w: nat)
    requires i < 5 && w < UINT32 && v == w / 128 && pos < |data|
    ensures data[pos] == 128 + w % 128 ==> ReadMB(data, pos, i, v) == ReadMB(data, pos + 1, i + 1, w)
    ensures data[pos] == w % 128 ==> ReadMB(data, pos, i, v) == Ok(At(w, pos + 1))
  {
    assert v < 0x200_0000 && v * 128 + w % 128 == w;
    assert Push7(v, w % 128) == w;
  }

  lemma {:induction false} ReadContinued(data: seq<byte>, pos: nat, v: nat)
    requires v < 0x200_0000 && |Continued(v)| <= 4 && Found(data, pos, Continued(v))
    ensures ReadMB(data, pos, 0, 0) == ReadMB(data, pos + |Continued(v)|, |Continued(v)|, v)
  {
    if v != 0 {
      var init := Continued(v / 128);
      FoundSplit(data, pos, init, [128 + v % 128]);
      ReadContinued(data, pos, v / 128);
      FoundAt(data, pos + |init|, [128 + v % 128], 0);
      ReadDigit(data, pos + |init|, |init|, v / 128, v);
    }
  }

  lemma ContinuedLength(v: nat)
    requires v < 0x200_0000
    ensures |Continued(v)| <= 4
  {
    var a, b, c := v / 128, v / 128 / 128, v / 128 / 128 / 128;
    assert Continued(v) == if v == 0 then [] else Continued(a) + [128 + v % 128];
    assert Continued(a) == if a == 0 then [] else Continued(b) + [128 + a % 128];
    assert Continued(b) == if b == 0 then [] else Continued(c) + [128 + b % 128];
    assert c < 16;
    assert Continued(c) == if c == 0 then [] else Continued(0) + [128 + c % 128];
  }

  lemma MultiByteBack(data: seq<byte>, pos: nat, v: nat)
    requires v < UINT32 && Found(data, pos, MultiByte(v))
    ensures ReadMB(data, pos, 0, 0) == Ok(At(v, pos + |MultiByte(v)|))
  {
    var init := Continued(v / 128);
    ContinuedLength(v / 128);
    FoundSplit(data, pos, init, [v % 128]);
    ReadContinued(data, pos, v / 128);
    FoundAt(data, pos + |init|, [v % 128], 0);
    ReadDigit(data, pos + |init|, |init|, v / 128, v);
  }

  // ----- Text -----

  lemma {:induction false} StripNulFree(text: seq<byte>)
    ensures 0 !in StripNul(text) && |StripNul(text)| <= |text|
    ensures 0 !in text ==> StripNul(text) == text
  {
    if text != [] {
      StripNulFree(text[1..]);
    }
  }

  /** Exactly the NULs are dropped. */
  lemma {:induction false} StripNulSplit(a: seq<byte>, b: seq<byte>)
    ensures StripNul(a + b) == StripNul(a) + StripNul(b)
    ensures |a| == 1 ==> StripNul(a) == if a[0] == 0 then [] else a
  {
    if a == [] {
      assert a + b == b;
    } else {
      assert (a + b)[0] == a[0] && (a + b)[1..] == a[1..] + b;
      StripNulSplit(a[1..], b);
      if |a| == 1 {
        assert a[1..] == [] && a == [a[0]];
      }
    }
  }

  lemma {:induction false} NulFound(data: seq<byte>, pos: nat, text: seq<byte>)
    requires 0 !in text && Found(data, pos, text + [0])
    ensures NulAt(data, pos) == pos + |text|
    decreases |text|
  {
    if text == [] {
      FoundAt(data, pos, text + [0], 0);
    } else {
      FoundAt(data, pos, text + [0], 0);
      assert text + [0] == [text[0]] + (text[1..] + [0]);
      FoundSplit(data, pos, [text[0]], text[1..] + [0]);
      NulFound(data, pos + 1, text[1..]);
    }
  }

  lemma InlineBack(data: seq<byte>, pos: nat, text: seq<byte>)
    requires 0 !in text && Found(data, pos, text + [0])
    ensures ReadInline(data, pos) == Ok(At(text, pos + |text| + 1))
  {
    NulFound(data, pos, text);
    FoundSplit(data, pos, text, [0]);
    FoundSlice(data, pos, text);
  }

  // ----- Elements -----

  function Bare(l: Lookup, n: Node): Node
    requires l.token(n.page, n.name).Some?
  {
    Node(n.page, n.name, l.token(n.page, n.name).value, [], [], false, false)
  }

  lemma FirstByte(l: Lookup, n: Node)
    requires Faithful(l) && EncodeElement(l, n).Some?
    ensures var tok := l.token(n.page, n.name).value;
      && 5 <= tok < 64 && NameOf(l, n.page, tok) == n.name
      && EncodeElement(l, n).value.bytes != []
      && EncodeElement(l, n).value.bytes[0] == (if HasContent(n) then tok + 64 else tok)
      && l.name(n.page, tok) == Some(n.name)
  {
  }

  /** The first byte of an encoded element reads as its token and content bit. */
  lemma ElementHead(d: Doc, n: Node, pos: nat)
    requires Faithful(d.lookup) && EncodeElement(d.lookup, n).Some?
    requires Found(d.data, pos, EncodeElement(d.lookup, n).value.bytes)
    ensures ParseElement(d, pos, n.page) ==
      if HasContent(n) then ParseContent(d, Bare(d.lookup, n), pos + 1, n.page)
      else Ok(Parsed(Bare(d.lookup, n), pos + 1, n.page))
  {
    var bare := Bare(d.lookup, n);
    FirstByte(d.lookup, n);
    FoundAt(d.data, pos, EncodeElement(d.lookup, n).value.bytes, 0);
  }

  lemma {:induction false} ElementBack(d: Doc, n: Node, pos: nat)
    requires Faithful(d.lookup) && Sized(n) && EncodeElement(d.lookup, n).Some?
    requires Found(d.data, pos, EncodeElement(d.lookup, n).value.bytes)
    ensures var c := EncodeElement(d.lookup, n).value;
      ParseElement(d, pos, n.page) == Ok(Parsed(Normal(d.lookup, n), pos + |c.bytes|, c.page))
    decreases n, 1
  {
    ElementHead(d, n, pos);
    if n.children != [] {
      ParentBack(d, n, pos);
    } else if n.text != [] || n.forceContent {
      LeafBack(d, n, pos);
    }
  }

  lemma LeafBack(d: Doc, n: Node, pos: nat)
    requires Sized(n) && EncodeElement(d.lookup, n).Some? && n.children == [] && HasContent(n)
    requires Found(d.data, pos, EncodeElement(d.lookup, n).value.bytes)
    ensures var c := EncodeElement(d.lookup, n).value;
      ParseContent(d, Bare(d.lookup, n), pos + 1, n.page)
        == Ok(Parsed(Normal(d.lookup, n), pos + |c.bytes|, c.page))
  {
    var bare := Bare(d.lookup, n);
    SplitContent(d.data, pos, WithContent(bare.token), TextBytes(n));
    if n.binary {
      OpaqueBack(d, n, bare, pos + 1);
    } else {
      PlainBack(d, n, bare, pos + 1);
    }
    EndOfContent(d, Normal(d.lookup, n), pos + 1 + |TextBytes(n)|, n.page);
  }

  lemma {:induction false} ParentBack(d: Doc, n: Node, pos: nat)
    requires Faithful(d.lookup) && Sized(n) && EncodeElement(d.lookup, n).Some? && n.children != []
    requires Found(d.data, pos, EncodeElement(d.lookup, n).value.bytes)
    ensures var c := EncodeElement(d.lookup, n).value;
      ParseContent(d, Bare(d.lookup, n), pos + 1, n.page)
        == Ok(Parsed(Normal(d.lookup, n), pos + |c.bytes|, c.page))
    decreases n, 0
  {
    var bare := Bare(d.lookup, n);
    var c := EncodeChildren(d.lookup, n.page, n.children).value;
    SplitContent(d.data, pos, WithContent(bare.token), c.bytes);
    ChildrenBack(d, n.children, pos + 1, n.page, c);
    var full := More(bare, Normals(d.lookup, n.children));
    assert full == Normal(d.lookup, n);
    EndOfContent(d, full, pos + 1 + |c.bytes|, c.page);
  }

  lemma SplitContent(data: seq<byte>, pos: nat, b: byte, bytes: seq<byte>)
    requires Found(data, pos, [b] + bytes + [1])
    ensures Found(data, pos + 1, bytes) && pos + 1 + |bytes| < |data| && data[pos + 1 + |bytes|] == 1
  {
    FoundSplit(data, pos, [b] + bytes, [1]);
    FoundSplit(data, pos, [b], bytes);
    FoundAt(data, pos + 1 + |bytes|, [1], 0);
  }

  lemma EndOfContent(d: Doc, n: Node, pos: nat, page: int)
    requires pos < |d.data| && d.data[pos] == 1
    ensures ParseContent(d, n, pos, page) == Ok(Parsed(n, pos + 1, page))
  {
  }

  lemma OpaqueFound(data: seq<byte>, pos: nat, m: seq<byte>, t: seq<byte>)
    requires Found(data, pos, [0xC3] + m + t)
    ensures pos < |data| && data[pos] == 0xC3 && Found(data, pos + 1, m) && Found(data, pos + 1 + |m|, t)
  {
    FoundSplit(data, pos, [0xC3] + m, t);
    FoundSplit(data, pos, [0xC3], m);
    FoundAt(data, pos, [0xC3], 0);
  }

  lemma OpaqueRead(d: Doc, n: Node, pos: nat, t: seq<byte>, p: nat)
    requires n.text == [] && pos < |d.data| && d.data[pos] == 0xC3
    requires ReadMB(d.data, pos + 1, 0, 0) == Ok(At(|t|, p)) && Found(d.data, p, t)
    ensures ReadText(d, n, pos) == Ok(At(n.(text := t, binary := true), p + |t|))
  {
    FoundSlice(d.data, p, t);
    assert n.text + t == t;
  }

  lemma OpaqueBytes(n: Node)
    requires |n.text| < UINT32 && n.binary
    ensures TextBytes(n) == [0xC3] + MultiByte(|n.text|) + n.text
  {
    assert |n.text| % UINT32 == |n.text|;
  }

  lemma OpaqueLength(data: seq<byte>, pos: nat, t: seq<byte>, bytes: seq<byte>) returns (p: nat)
    requires |t| < UINT32 && bytes == [0xC3] + MultiByte(|t|) + t && Found(data, pos, bytes)
    ensures pos < |data| && data[pos] == 0xC3 && p + |t| == pos + |bytes|
    ensures ReadMB(data, pos + 1, 0, 0) == Ok(At(|t|, p)) && Found(data, p, t)
  {
    var m := MultiByte(|t|);
    OpaqueFound(data, pos, m, t);
    MultiByteBack(data, pos + 1, |t|);
    p := pos + 1 + |m|;
  }

  lemma OpaqueBack(d: Doc, n: Node, bare: Node, pos: nat)
    requires |n.text| < UINT32 && bare.text == [] && n.binary && Found(d.data, pos, TextBytes(n))
    ensures pos < |d.data| && d.data[pos] == 0xC3
    ensures ReadText(d, bare, pos) == Ok(At(bare.(text := n.text, binary := true), pos + |TextBytes(n)|))
  {
    OpaqueBytes(n);
    var p := OpaqueLength(d.data, pos, n.text, TextBytes(n));
    OpaqueRead(d, bare, pos, n.text, p);
  }

  lemma InlineFound(data: seq<byte>, pos: nat, t: seq<byte>, bytes: seq<byte>)
    requires 0 !in t && bytes == [0x03] + t + [0] && Found(data, pos, bytes)
    ensures pos < |data| && data[pos] == 0x03
    ensures ReadInline(data, pos + 1) == Ok(At(t, pos + |bytes|))
  {
    Joined([0x03], t, [0]);
    FoundSplit(data, pos, [0x03], t + [0]);
    FoundAt(data, pos, [0x03], 0);
    InlineBack(data, pos + 1, t);
  }

  lemma PlainBack(d: Doc, n: Node, bare: Node, pos: nat)
    requires bare.text == [] && !n.binary && Found(d.data, pos, TextBytes(n))
    ensures pos < |d.data| && d.data[pos] == 0x03
    ensures ReadText(d, bare, pos) == Ok(At(bare.(text := StripNul(n.text)), pos + |TextBytes(n)|))
  {
    var t := StripNul(n.text);
    StripNulFree(n.text);
    InlineFound(d.data, pos, t, TextBytes(n));
    assert bare.text + t == t;
  }

  // ----- Children -----

  function More(n: Node, children: seq<Node>): Node {
    n.(children := n.children + children)
  }

  /** Whatever an element holds already, this stretch of content adds these children to it. */
  ghost predicate Adds(d: Doc, pos: nat, page: int, children: seq<Node>, pos': nat, page': int) {
    forall n {:trigger More(n, children)} ::
      ParseContent(d, n, pos, page) == ParseContent(d, More(n, children), pos', page')
  }

  lemma AddsNothing(d: Doc, pos: nat, page: int)
    ensures Adds(d, pos, page, [], pos, page)
  {
    forall n ensures ParseContent(d, n, pos, page) == ParseContent(d, More(n, []), pos, page) {
      assert More(n, []) == n;
    }
  }

  lemma AddsChain(d: Doc, pos: nat, page: int, a: seq<Node>, pos': nat, page': int, b: seq<Node>,
                  pos'': nat, page'': int)
    requires Adds(d, pos, page, a, pos', page') && Adds(d, pos', page', b, pos'', page'')
    ensures Adds(d, pos, page, a + b, pos'', page'')
  {
    forall n ensures ParseContent(d, n, pos, page) == ParseContent(d, More(n, a + b), pos'', page'') {
      assert n.children + a + b == n.children + (a + b);
      assert More(More(n, a), b) == More(n, a + b);
      assert ParseContent(d, More(n, a), pos', page') == ParseContent(d, More(More(n, a), b), pos'', page'');
    }
  }

  lemma ChildrenBytes(l: Lookup, page: int, ns: seq<Node>, c: Coded) returns (one: Coded, rest: Coded)
    requires ns != [] && EncodeChildren(l, page, ns) == Some(c)
    ensures EncodeNode(l, page, ns[0]) == Some(one) && EncodeChildren(l, one.page, ns[1..]) == Some(rest)
    ensures c == Coded(one.bytes + rest.bytes, rest.page)
  {
    one := EncodeNode(l, page, ns[0]).value;
    rest := EncodeChildren(l, one.page, ns[1..]).value;
  }

  lemma ChildrenJoin(d: Doc, ns: seq<Node>, pos: nat, page: int, c: Coded, mid: nat, page': int, rest: Coded)
    requires ns != [] && mid + |rest.bytes| == pos + |c.bytes| && rest.page == c.page
    requires Adds(d, pos, page, [Normal(d.lookup, ns[0])], mid, page')
    requires Adds(d, mid, page', Normals(d.lookup, ns[1..]), mid + |rest.bytes|, rest.page)
    ensures Adds(d, pos, page, Normals(d.lookup, ns), pos + |c.bytes|, c.page)
  {
    AddsChain(d, pos, page, [Normal(d.lookup, ns[0])], mid, page',
              Normals(d.lookup, ns[1..]), mid + |rest.bytes|, rest.page);
  }

  /** The first child is found where the children are, the others behind it. */
  lemma FirstChild(d: Doc, ns: seq<Node>, pos: nat, page: int, c: Coded) returns (one: Coded, rest: Coded, mid: nat)
    requires ns != [] && EncodeChildren(d.lookup, page, ns) == Some(c) && Found(d.data, pos, c.bytes)
    ensures EncodeNode(d.lookup, page, ns[0]) == Some(one) && Found(d.data, pos, one.bytes)
    ensures EncodeChildren(d.lookup, one.page, ns[1..]) == Some(rest) && Found(d.data, mid, rest.bytes)
    ensures mid == pos + |one.bytes| && mid + |rest.bytes| == pos + |c.bytes| && rest.page == c.page
  {
    one, rest := ChildrenBytes(d.lookup, page, ns, c);
    mid := pos + |one.bytes|;
    FoundSplit(d.data, pos, one.bytes, rest.bytes);
  }

  /** Reading encoded children adds their normal forms and ends on the encoder's page. */
  lemma {:induction false} ChildrenBack(d: Doc, ns: seq<Node>, pos: nat, page: int, c: Coded)
    requires Faithful(d.lookup) && AllSized(ns) && EncodeChildren(d.lookup, page, ns) == Some(c)
    requires Found(d.data, pos, c.bytes)
    ensures Adds(d, pos, page, Normals(d.lookup, ns), pos + |c.bytes|, c.page)
    decreases ns, 1
  {
    if ns == [] {
      AddsNothing(d, pos, page);
    } else {
      var one, rest, mid := FirstChild(d, ns, pos, page, c);
      ChildBack(d, ns[0], pos, page, one);
      ChildrenBack(d, ns[1..], mid, one.page, rest);
      ChildrenJoin(d, ns, pos, page, c, mid, one.page, rest);
    }
  }

  lemma NodeBytes(l: Lookup, page: int, n: Node, c: Coded) returns (sw: seq<byte>, e: Coded)
    requires EncodeNode(l, page, n) == Some(c)
    ensures EncodeElement(l, n) == Some(e) && sw == Switch(page, n.page)
    ensures c == Coded(sw + e.bytes, e.page)
  {
    sw, e := Switch(page, n.page), EncodeElement(l, n).value;
  }

  lemma {:induction false} ChildBack(d: Doc, n: Node, pos: nat, page: int, c: Coded)
    requires Faithful(d.lookup) && Sized(n) && EncodeNode(d.lookup, page, n) == Some(c)
    requires Found(d.data, pos, c.bytes)
    ensures Adds(d, pos, page, [Normal(d.lookup, n)], pos + |c.bytes|, c.page)
    decreases n, 3
  {
    var sw, e := NodeBytes(d.lookup, page, n, c);
    var mid, end := pos + |sw|, pos + |c.bytes|;
    FoundSplit(d.data, pos, sw, e.bytes);
    OneBack(d, n, mid, e, end);
    SwitchBack(d, pos, page, n.page, sw);
    SwitchThen(d, pos, page, mid, n.page, Parsed(Normal(d.lookup, n), end, e.page));
  }

  lemma {:induction false} OneBack(d: Doc, n: Node, pos: nat, e: Coded, end: nat)
    requires Faithful(d.lookup) && Sized(n) && EncodeElement(d.lookup, n) == Some(e)
    requires Found(d.data, pos, e.bytes) && end == pos + |e.bytes|
    ensures Adds(d, pos, n.page, [Normal(d.lookup, n)], end, e.page)
    decreases n, 2
  {
    ElementBack(d, n, pos);
    ElementStart(d, n, pos, Parsed(Normal(d.lookup, n), end, e.page));
  }

  lemma SwitchThen(d: Doc, pos: nat, page: int, mid: nat, page': int, one: Parsed)
    requires Adds(d, pos, page, [], mid, page') && Adds(d, mid, page', [one.node], one.pos, one.page)
    ensures Adds(d, pos, page, [one.node], one.pos, one.page)
  {
    AddsChain(d, pos, page, [], mid, page', [one.node], one.pos, one.page);
    assert [] + [one.node] == [one.node];
  }

  lemma PageRead(d: Doc, n: Node, pos: nat, page: int, to: nat, p: nat)
    requires pos < |d.data| && d.data[pos] == 0 && ReadMB(d.data, pos + 1, 0, 0) == Ok(At(to, p))
    ensures ParseContent(d, n, pos, page) == ParseContent(d, n, p, to)
  {
  }

  lemma ZeroThen(data: seq<byte>, pos: nat, v: nat, bytes: seq<byte>) returns (p: nat)
    requires v < UINT32 && bytes == [0] + MultiByte(v) && Found(data, pos, bytes)
    ensures pos < |data| && data[pos] == 0 && p == pos + |bytes|
    ensures ReadMB(data, pos + 1, 0, 0) == Ok(At(v, p))
  {
    FoundSplit(data, pos, [0], MultiByte(v));
    FoundAt(data, pos, [0], 0);
    MultiByteBack(data, pos + 1, v);
    p := pos + 1 + |MultiByte(v)|;
  }

  /** A page switch reads as its NUL byte and the page. */
  lemma SwitchBytes(data: seq<byte>, pos: nat, page: int, to: int) returns (p: nat)
    requires page != to && 0 <= to < UINT32 && Found(data, pos, Switch(page, to))
    ensures pos < |data| && data[pos] == 0 && p == pos + |Switch(page, to)|
    ensures ReadMB(data, pos + 1, 0, 0) == Ok(At(to, p))
  {
    assert to % UINT32 == to;
    p := ZeroThen(data, pos, to, Switch(page, to));
  }

  lemma SwitchRead(d: Doc, n: Node, pos: nat, page: int, to: int)
    requires 0 <= to < UINT32 && Found(d.data, pos, Switch(page, to))
    ensures ParseContent(d, n, pos, page) == ParseContent(d, n, pos + |Switch(page, to)|, to)
  {
    if page != to {
      var p := SwitchBytes(d.data, pos, page, to);
      PageRead(d, n, pos, page, to, p);
    }
  }

  lemma SwitchBack(d: Doc, pos: nat, page: int, to: int, sw: seq<byte>)
    requires 0 <= to < UINT32 && sw == Switch(page, to) && Found(d.data, pos, sw)
    ensures Adds(d, pos, page, [], pos + |sw|, to)
  {
    forall n ensures ParseContent(d, n, pos, page) == ParseContent(d, More(n, []), pos + |sw|, to) {
      SwitchRead(d, n, pos, page, to);
      assert More(n, []) == n;
    }
  }

  /** The first byte of an encoded element is taken for an element and nothing else. */
  lemma ElementStart(d: Doc, n: Node, pos: nat, c: Parsed)
    requires Faithful(d.lookup) && EncodeElement(d.lookup, n).Some?
    requires Found(d.data, pos, EncodeElement(d.lookup, n).value.bytes)
    requires ParseElement(d, pos, n.page) == Ok(c)
    ensures Adds(d, pos, n.page, [c.node], c.pos, c.page)
  {
    FirstByte(d.lookup, n);
    FoundAt(d.data, pos, EncodeElement(d.lookup, n).value.bytes, 0);
    forall acc ensures ParseContent(d, acc, pos, n.page) == ParseContent(d, More(acc, [c.node]), c.pos, c.page) {
      assert ParseItem(d, acc, pos, n.page) == Ok(Turn(Parsed(More(acc, [c.node]), c.pos, c.page), false));
    }
  }

  // ----- Documents -----

  lemma HeaderFound(data: seq<byte>, body: seq<byte>)
    requires data == HEADER + body
    ensures data[..4] == HEADER && Found(data, 4, body) && |data| == 4 + |body|
  {
  }

  /**
   What every document says of itself, in the integers of its header: version 1.3,
   public id 1, character set 106 (UTF-8), no string table; the body stands behind.
   */
  lemma HeaderDeclares(l: Lookup, n: Node)
    requires Encode(l, n).Some?
    ensures
      var data := Encode(l, n).value;
      && |data| >= 4 && data[0] == 3
      && ReadMB(data, 1, 0, 0) == Ok(At(1, 2))
      && ReadMB(data, 2, 0, 0) == Ok(At(106, 3))
      && ReadMB(data, 3, 0, 0) == Ok(At(0, 4))
      && data[4..] == EncodeNode(l, 0, n).value.bytes
  {
    var data := Encode(l, n).value;
    HeaderFound(data, EncodeNode(l, 0, n).value.bytes);
    assert data[0] == data[..4][0] && data[1] == data[..4][1] && data[2] == data[..4][2] && data[3] == data[..4][3];
  }

  lemma OneDigit(v: nat)
    requires v < 128
    ensures MultiByte(v) == [v] && MultiByte(v % UINT32) == [v]
  {
    assert Continued(0) == [] && v / 128 == 0 && v % 128 == v && v % UINT32 == v;
  }

  /** A leaf with plain text off the first page, byte by byte. */
  lemma LeafOnWire(l: Lookup, n: Node, tok: byte)
    requires l.token(n.page, n.name) == Some(tok) && tok < 64 && 0 < n.page < 128
    requires n.children == [] && n.text != [] && 0 !in n.text && !n.binary
    ensures Encode(l, n) == Some([3, 1, 106, 0] + ([0] + [n.page] + ([tok + 64] + ([3] + n.text + [0]) + [1])))
  {
    StripNulFree(n.text);
    OneDigit(n.page);
    assert EncodeElement(l, n) == Some(Coded([tok + 64] + ([3] + n.text + [0]) + [1], n.page));
  }

  lemma HeaderBack(data: seq<byte>, l: Lookup)
    requires |data| >= 4 && data[..4] == HEADER
    ensures Decode(data, l) == ParseBody(Doc(data, [], l), None, 4, 0)
  {
    assert data[0] == HEADER[0] && data[1] == HEADER[1] && data[2] == HEADER[2] && data[3] == HEADER[3];
    assert ReadMB(data, 1, 0, 0) == Ok(At(1, 2));
    assert ReadMB(data, 2, 0, 0) == Ok(At(0x6A, 3));
    assert ReadMB(data, 3, 0, 0) == Ok(At(0, 4));
    assert data[4..4] == [];
  }

  lemma RootSwitch(d: Doc, page: int)
    requires 0 <= page < UINT32 && Found(d.data, 4, Switch(0, page))
    ensures ParseBody(d, None, 4, 0) == ParseBody(d, None, 4 + |Switch(0, page)|, page)
  {
    if page != 0 {
      var p := SwitchBytes(d.data, 4, 0, page);
    }
  }

  lemma RootElement(d: Doc, n: Node, pos: nat)
    requires Faithful(d.lookup) && Sized(n) && EncodeElement(d.lookup, n).Some?
    requires Found(d.data, pos, EncodeElement(d.lookup, n).value.bytes)
    requires pos + |EncodeElement(d.lookup, n).value.bytes| == |d.data|
    ensures ParseBody(d, None, pos, n.page) == Ok(Normal(d.lookup, n))
  {
    var e := EncodeElement(d.lookup, n).value;
    FoundAt(d.data, pos, e.bytes, 0);
    ElementBack(d, n, pos);
    assert ParseBody(d, Some(Normal(d.lookup, n)), |d.data|, e.page) == Ok(Normal(d.lookup, n));
  }

  lemma BodyBack(d: Doc, n: Node, c: Coded)
    requires Faithful(d.lookup) && Sized(n) && EncodeNode(d.lookup, 0, n) == Some(c)
    requires Found(d.data, 4, c.bytes) && |d.data| == 4 + |c.bytes|
    ensures ParseBody(d, None, 4, 0) == Ok(Normal(d.lookup, n))
  {
    var sw, e := NodeBytes(d.lookup, 0, n, c);
    FoundSplit(d.data, 4, sw, e.bytes);
    RootSwitch(d, n.page);
    RootElement(d, n, 4 + |sw|);
  }

  /**
   Round trip: under any faithful lookup, whatever tree the encoder accepts, the
   decoder returns its normal form.
   */
  lemma RoundTrip(l: Lookup, n: Node)
    requires Faithful(l) && Sized(n) && Encode(l, n).Some?
    ensures Decode(Encode(l, n).value, l) == Ok(Normal(l, n))
  {
    var data, c := Encode(l, n).value, EncodeNode(l, 0, n).value;
    HeaderFound(data, c.bytes);
    HeaderBack(data, l);
    BodyBack(Doc(data, [], l), n, c);
  }

  /**
   A tree with nothing the format would lose: text or children but not both, NULs and
   the binary mark only with opaque text that is there, tokens filled in.
   */
  predicate Clean(l: Lookup, n: Node) {
    && l.token(n.page, n.name) == Some(n.token) && !n.forceContent
    && (n.children != [] ==> n.text == [] && !n.binary)
    && (if n.binary then n.text != [] else 0 !in n.text)
    && forall c :: c in n.children ==> Clean(l, c)
  }

  lemma {:induction false} CleanNormal(l: Lookup, n: Node)
    requires Clean(l, n)
    ensures Normal(l, n) == n && Named(l, n)
    decreases n, 0
  {
    CleanNormals(l, n.children);
    StripNulFree(n.text);
  }

  lemma {:induction false} CleanNormals(l: Lookup, ns: seq<Node>)
    requires forall c :: c in ns ==> Clean(l, c)
    ensures Normals(l, ns) == ns && forall c :: c in ns ==> Named(l, c)
    decreases ns, 1
  {
    if ns != [] {
      assert ns[0] in ns && ns == [ns[0]] + ns[1..];
      CleanNormal(l, ns[0]);
      CleanNormals(l, ns[1..]);
    }
  }

  /** Such trees are encoded, and come back as they are. */
  lemma CleanRoundTrip(l: Lookup, n: Node)
    requires Faithful(l) && Sized(n) && Clean(l, n)
    ensures Encode(l, n).Some? && Decode(Encode(l, n).value, l) == Ok(n)
  {
    CleanNormal(l, n);
    EncodableNamed(l, n);
    RoundTrip(l, n);
  }

  /** The encoder accepts exactly the trees whose elements all have names on their pages. */
  lemma {:induction false} EncodableNamed(l: Lookup, n: Node)
    ensures EncodeElement(l, n).Some? <==> Named(l, n)
    decreases n, 0
  {
    if n.children != [] && l.token(n.page, n.name).Some? {
      EncodableChildren(l, n.page, n.children);
    }
  }

  lemma {:induction false} EncodableChildren(l: Lookup, page: int, ns: seq<Node>)
    ensures EncodeChildren(l, page, ns).Some? <==> forall c :: c in ns ==> Named(l, c)
    decreases ns, 1
  {
    if ns != [] {
      EncodableNamed(l, ns[0]);
      assert ns == [ns[0]] + ns[1..];
      if EncodeElement(l, ns[0]).Some? {
        EncodableChildren(l, EncodeElement(l, ns[0]).value.page, ns[1..]);
      }
    }
  }
}
