/** What the WBXML parser makes of what the encoder never writes. */
module WbxmlReading {
  import opened Options
  import opened WbxmlEncoder
  import opened WbxmlDecoder
  import opened WbxmlRoundTrip

  // ----- Multi-byte integers, canonical or not -----

  /** The number these base-128 digits stand for, continuation bits aside. */
  function BaseValue(digits: seq<byte>): nat {
    if digits == [] then 0 else BaseValue(digits[..|digits| - 1]) * 128 + digits[|digits| - 1] % 128
  }

  /** One digit more. */
  lemma BaseMore(data: seq<byte>, start: nat, end: nat, v: nat, q: nat) returns (rest: nat)
    requires start <= end < |data| && v < UINT32 && BaseValue(data[start..end]) == v + q * UINT32
    ensures BaseValue(data[start..end + 1]) == Push7(v, Low7(data[end])) + rest * UINT32
  {
    var t := PushWraps(v, Low7(data[end]));
    rest := t + 128 * q;
    var seen := data[start..end + 1];
    assert seen[..|seen| - 1] == data[start..end] && seen[|seen| - 1] == data[end];
    LowBits(data[end]);
  }

  lemma LowBits(b: byte)
    ensures b % 128 == Low7(b)
  {
  }

  lemma {:induction false} ReadValue(data: seq<byte>, start: nat, pos: nat, i: nat, v: nat, q: nat) returns (rest: nat)
    requires i <= 5 && start <= pos <= |data| && v < UINT32
    requires BaseValue(data[start..pos]) == v + q * UINT32
    ensures var r := ReadMB(data, pos, i, v);
      r.Ok? ==> BaseValue(data[start..r.value.pos]) == r.value.value + rest * UINT32
    decreases 5 - i
  {
    rest := q;
    if i < 5 && pos < |data| {
      rest := BaseMore(data, start, pos, v, q);
      if data[pos] >= 128 {
        rest := ReadValue(data, start, pos + 1, i + 1, Push7(v, Low7(data[pos])), rest);
      }
    }
  }

  lemma {:induction false} ReadExtent(data: seq<byte>, pos: nat, i: nat, v: nat)
    requires i <= 5 && v < UINT32
    ensures var r := ReadMB(data, pos, i, v);
      && (r.Ok? ==> pos < r.value.pos <= pos + 5 - i && data[r.value.pos - 1] < 128)
      && (forall k :: pos <= k < (if r.Ok? then r.value.pos - 1 else pos + 5 - i) && k < |data| ==> data[k] >= 128)
    decreases 5 - i
  {
    if i < 5 && pos < |data| && data[pos] >= 128 {
      ReadExtent(data, pos + 1, i + 1, Push7(v, Low7(data[pos])));
    }
  }

  /** What leaves a 32-bit integer at the top. */
  lemma PushWraps(v: nat, low: byte) returns (t: nat)
    requires v < UINT32 && low < 128
    ensures v * 128 + low == Push7(v, low) + t * UINT32
  {
    t := if v < 0x200_0000 then 0 else (v * 128 + low) / UINT32;
  }

  /**
   An integer ends with its first byte below 128, one of at most five, and is worth its
   digits modulo 2^32; there is none exactly when no such byte comes in time.
   */
  lemma IntegerRead(data: seq<byte>, pos: nat)
    requires pos <= |data|
    ensures var r := ReadMB(data, pos, 0, 0);
      && (r.Err? <==> forall k :: pos <= k < pos + 5 && k < |data| ==> data[k] >= 128)
      && (r.Ok? ==>
            && pos < r.value.pos <= |data| && r.value.pos <= pos + 5
            && data[r.value.pos - 1] < 128
            && (forall k :: pos <= k < r.value.pos - 1 ==> data[k] >= 128)
            && r.value.value == BaseValue(data[pos..r.value.pos]) % UINT32)
  {
    assert data[pos..pos] == [];
    var rest := ReadValue(data, pos, pos, 0, 0, 0);
    ReadExtent(data, pos, 0, 0);
    var r := ReadMB(data, pos, 0, 0);
    if r.Ok? {
      Remainder(BaseValue(data[pos..r.value.pos]), r.value.value, rest);
    }
  }

  lemma Remainder(n: nat, v: nat, rest: nat)
    requires n == v + rest * UINT32 && v < UINT32
    ensures v == n % UINT32
  {
  }

  // ----- Names -----

  function HexValue(c: char): int {
    if '0' <= c <= '9' then c as int - '0' as int else if 'A' <= c <= 'F' then c as int - 'A' as int + 10 else -1
  }

  /** A token without a name is called "x" and its two digits, which read back as the token. */
  lemma UnnamedToken(l: Lookup, page: int, tok: byte)
    ensures var name, known := NameOf(l, page, tok), l.name(page, tok);
      && (known.Some? && known.value != "" ==> name == known.value)
      && (known.None? || known.value == "" ==>
            && |name| == 3 && name[0] == 'x' && 0 <= HexValue(name[1]) && 0 <= HexValue(name[2])
            && 16 * HexValue(name[1]) + HexValue(name[2]) == tok)
  {
    HexBack(tok / 16);
    HexBack(tok % 16);
  }

  lemma HexBack(d: int)
    requires 0 <= d < 16
    ensures HexValue(HexDigit(d)) == d
  {
    assert HexDigit(d) == "0123456789ABCDEF"[d];
  }

  // ----- Text from the string table -----

  /** The string at an offset: up to the next NUL or the end of the table; nothing behind the end. */
  ghost predicate TableString(table: seq<byte>, off: nat, text: seq<byte>) {
    if off >= |table| then text == []
    else
      && off + |text| <= |table| && table[off..off + |text|] == text && 0 !in text
      && (off + |text| < |table| ==> table[off + |text|] == 0)
  }

  /**
   A reference to the string table (0x83 and an offset, or a bare offset that is no
   known token) adds exactly the string there to the text of the element.
   */
  lemma TableText(d: Doc, n: Node, pos: nat, page: int, off: nat, p: nat) returns (text: seq<byte>)
    requires pos < |d.data|
    requires
      var b := d.data[pos];
      || (b == 0x83 && ReadMB(d.data, pos + 1, 0, 0) == Ok(At(off, p)))
      || (5 <= b < 64 && d.lookup.name(page, b).None? && ReadMB(d.data, pos, 0, 0) == Ok(At(off, p)))
    ensures TableString(d.table, off, text)
    ensures ParseItem(d, n, pos, page) == Ok(Turn(Parsed(n.(text := n.text + text), p, page), false))
  {
    text := StringAt(d.table, off);
  }

  // ----- Attributes -----

  datatype Attr =
    | Inline(start: byte, text: seq<byte>)
    | Opaque(start: byte, data: seq<byte>)
    | Number(start: byte, v: nat)

  /** Attributes a document can hold: starts are not END, and a number does not look like a string. */
  predicate Proper(a: Attr) {
    && a.start != 1
    && match a
       case Inline(_, text) => 0 !in text
       case Opaque(_, data) => |data| < UINT32
       case Number(_, v) => v < UINT32 && MultiByte(v)[0] != 0x03 && MultiByte(v)[0] != 0xC3
  }

  datatype AttrList = End | Also(a: Attr, rest: AttrList)

  predicate AllProper(attrs: AttrList) {
    attrs.Also? ==> Proper(attrs.a) && AllProper(attrs.rest)
  }

  function ValueBytes(a: Attr): seq<byte> {
    match a
    case Inline(_, text) => [0x03] + (text + [0])
    case Opaque(_, data) => [0xC3] + MultiByte(|data|) + data
    case Number(_, v) => MultiByte(v)
  }

  function AttrBytes(attrs: AttrList): seq<byte> {
    match attrs
    case End => [1]
    case Also(a, rest) => [a.start] + (ValueBytes(a) + AttrBytes(rest))
  }

  lemma ValueSkipped(data: seq<byte>, pos: nat, a: Attr)
    requires Proper(a) && Found(data, pos, ValueBytes(a))
    ensures pos < |data| && SkipAttribute(data, pos) == Ok(pos + |ValueBytes(a)|)
  {
    match a
    case Inline(_, text) =>
      FoundSplit(data, pos, [0x03], text + [0]);
      FoundAt(data, pos, [0x03], 0);
      InlineBack(data, pos + 1, text);
    case Opaque(_, bytes) =>
      OpaqueFound(data, pos, MultiByte(|bytes|), bytes);
      MultiByteBack(data, pos + 1, |bytes|);
    case Number(_, v) =>
      FoundAt(data, pos, MultiByte(v), 0);
      MultiByteBack(data, pos, v);
  }

  lemma OneSkipped(data: seq<byte>, pos: nat, next: nat)
    requires pos + 1 < |data| && data[pos] != 1 && SkipAttribute(data, pos + 1) == Ok(next)
    ensures SkipAttributes(data, pos) == SkipAttributes(data, next)
  {
  }

  lemma AttributeSkipped(data: seq<byte>, pos: nat, a: Attr, value: seq<byte>, rest: seq<byte>)
    requires Proper(a) && value == ValueBytes(a) && Found(data, pos, [a.start] + (value + rest))
    ensures Found(data, pos + 1 + |value|, rest)
    ensures SkipAttributes(data, pos) == SkipAttributes(data, pos + 1 + |value|)
  {
    FoundSplit(data, pos, [a.start], value + rest);
    FoundAt(data, pos, [a.start], 0);
    FoundSplit(data, pos + 1, value, rest);
    ValueSkipped(data, pos + 1, a);
    OneSkipped(data, pos, pos + 1 + |value|);
  }

  /** An attribute list is skipped to the byte behind its END, whatever its values hold. */
  lemma {:induction false} AttributesSkipped(data: seq<byte>, pos: nat, attrs: AttrList)
    requires AllProper(attrs) && Found(data, pos, AttrBytes(attrs))
    ensures SkipAttributes(data, pos) == Ok(pos + |AttrBytes(attrs)|)
    decreases attrs
  {
    match attrs
    case End => FoundAt(data, pos, [1], 0);
    case Also(a, rest) =>
      var value := ValueBytes(a);
      AttributeSkipped(data, pos, a, value, AttrBytes(rest));
      AttributesSkipped(data, pos + 1 + |value|, rest);
  }

  /** An element of which only the content, if any, is still to be read. */
  function Behind(d: Doc, pos: nat, page: int, tok: byte, content: bool): Result<Parsed> {
    var n := Node(page, NameOf(d.lookup, page, tok), tok, [], [], false, false);
    if content then ParseContent(d, n, pos, page) else Ok(Parsed(n, pos, page))
  }

  lemma HeadSkipped(d: Doc, pos: nat, page: int, tok: byte, content: bool, end: nat)
    requires tok < 64 && pos < |d.data| && d.data[pos] == (if content then 192 else 128) + tok
    requires SkipAttributes(d.data, pos + 1) == Ok(end)
    ensures ParseElement(d, pos, page) == Behind(d, end, page, tok, content)
  {
    assert Low6(d.data[pos]) == tok && (ContentBit(d.data[pos]) <==> content);
  }

  /** An element with attributes is the element without them: its content is read from behind their END. */
  lemma ElementAttributes(d: Doc, pos: nat, page: int, tok: byte, content: bool, attrs: AttrList)
    requires tok < 64 && pos < |d.data| && d.data[pos] == (if content then 192 else 128) + tok
    requires AllProper(attrs) && Found(d.data, pos + 1, AttrBytes(attrs))
    ensures ParseElement(d, pos, page) == Behind(d, pos + 1 + |AttrBytes(attrs)|, page, tok, content)
  {
    AttributesSkipped(d.data, pos + 1, attrs);
    HeadSkipped(d, pos, page, tok, content, pos + 1 + |AttrBytes(attrs)|);
  }

  /** And without attributes it is read from behind its token. */
  lemma PlainHead(d: Doc, pos: nat, page: int, tok: byte, content: bool)
    requires tok < 64 && pos < |d.data| && d.data[pos] == (if content then 64 else 0) + tok
    ensures ParseElement(d, pos, page) == Behind(d, pos + 1, page, tok, content)
  {
    assert Low6(d.data[pos]) == tok && (ContentBit(d.data[pos]) <==> content);
  }
}
