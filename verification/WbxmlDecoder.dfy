/** The WBXML parser (internal/wbxml/wbxml.go: Decode and the decoder's methods). */
module WbxmlDecoder {
  import opened Options
  import opened WbxmlEncoder

  datatype Error = UnexpectedEof | IntegerOverflow | TooShort | BadVersion | BadStringTable | EmptyDocument

  datatype Result<+T> = Ok(value: T) | Err(error: Error)

  /** A parsed value and the cursor behind it. */
  datatype At<+T> = At(value: T, pos: nat)

  /** A parsed element, and the cursor and code page behind it. */
  datatype Parsed = Parsed(node: Node, pos: nat, page: int)

  /** Where the content loop stands after one item, and whether that item ended the element. */
  datatype Turn = Turn(at: Parsed, end: bool)

  /** What a parse never changes. */
  datatype Doc = Doc(data: seq<byte>, table: seq<byte>, lookup: Lookup)

  /** The low seven bits. */
  function Low7(b: byte): (r: byte)
    ensures r < 128
  {
    if b < 128 then b else b - 128
  }

  /** The low six bits. */
  function Low6(b: byte): (r: byte)
    ensures r < 64
  {
    if b < 64 then b else if b < 128 then b - 64 else if b < 192 then b - 128 else b - 192
  }

  predicate ContentBit(b: byte) {
    64 <= b < 128 || 192 <= b
  }

  /** Seven more bits pushed in from the right of a 32-bit integer. */
  function Push7(v: nat, low: byte): (r: nat)
    requires v < UINT32 && low < 128
    ensures r < UINT32
  {
    if v < 0x200_0000 then v * 128 + low else (v * 128 + low) % UINT32
  }

  function ReadMB(data: seq<byte>, pos: nat, i: nat, v: nat): (r: Result<At<nat>>)
    requires i <= 5 && v < UINT32
    ensures r.Ok? ==> pos < r.value.pos <= |data| && r.value.value < UINT32
    decreases 5 - i
  {
    if i == 5 then Err(IntegerOverflow)
    else if pos >= |data| then Err(UnexpectedEof)
    else
      var w := Push7(v, Low7(data[pos]));
      if data[pos] < 128 then Ok(At(w, pos + 1)) else ReadMB(data, pos + 1, i + 1, w)
  }

  /** First NUL at or after a position, or the end of the data. */
  function NulAt(data: seq<byte>, pos: nat): (k: nat)
    requires pos <= |data|
    ensures pos <= k <= |data|
    ensures forall j :: pos <= j < k ==> data[j] != 0
    ensures k < |data| ==> data[k] == 0
    decreases |data| - pos
  {
    if pos == |data| || data[pos] == 0 then pos else NulAt(data, pos + 1)
  }

  function ReadInline(data: seq<byte>, pos: nat): (r: Result<At<seq<byte>>>)
    requires pos <= |data|
    ensures r.Ok? ==> pos < r.value.pos <= |data|
  {
    var k := NulAt(data, pos);
    if k == |data| then Err(UnexpectedEof) else Ok(At(data[pos..k], k + 1))
  }

  function StringAt(table: seq<byte>, off: nat): seq<byte> {
    if off >= |table| then [] else table[off..NulAt(table, off)]
  }

  /** Skips one attribute; opaque data may carry the cursor past the end. */
  function SkipAttribute(data: seq<byte>, pos: nat): (r: Result<nat>)
    requires pos < |data|
    ensures r.Ok? ==> pos < r.value
  {
    if data[pos] == 0x03 then
      match ReadInline(data, pos + 1)
      case Err(e) => Err(e)
      case Ok(s) => Ok(s.pos)
    else if data[pos] == 0xC3 then
      match ReadMB(data, pos + 1, 0, 0)
      case Err(e) => Err(e)
      case Ok(l) => Ok(l.pos + l.value)
    else
      match ReadMB(data, pos, 0, 0)
      case Err(e) => Err(e)
      case Ok(l) => Ok(l.pos)
  }

  function SkipAttributes(data: seq<byte>, pos: nat): (r: Result<nat>)
    ensures r.Ok? ==> pos < r.value <= |data|
    decreases |data| - pos
  {
    if pos >= |data| then Err(UnexpectedEof)
    else if data[pos] == 1 then Ok(pos + 1)
    else if pos + 1 >= |data| then Err(UnexpectedEof)
    else
      match SkipAttribute(data, pos + 1)
      case Err(e) => Err(e)
      case Ok(next) => SkipAttributes(data, next)
  }

  function HexDigit(d: int): char
    requires 0 <= d < 16
  {
    "0123456789ABCDEF"[d]
  }

  function Synthetic(tok: byte): string {
    "x" + [HexDigit(tok / 16), HexDigit(tok % 16)]
  }

  /** Unknown tokens get a synthetic name. */
  function NameOf(l: Lookup, page: int, tok: byte): string {
    match l.name(page, tok)
    case Some(name) => if name == "" then Synthetic(tok) else name
    case None => Synthetic(tok)
  }

  function ParseElement(d: Doc, pos: nat, page: int): (r: Result<Parsed>)
    ensures r.Ok? ==> pos < r.value.pos <= |d.data|
    decreases |d.data| - pos, 0
  {
    if pos >= |d.data| then Err(UnexpectedEof)
    else
      var b := d.data[pos];
      var tok := Low6(b);
      var n := Node(page, NameOf(d.lookup, page, tok), tok, [], [], false, false);
      match if b >= 128 then SkipAttributes(d.data, pos + 1) else Ok(pos + 1)
      case Err(e) => Err(e)
      case Ok(pos') => if !ContentBit(b) then Ok(Parsed(n, pos', page)) else ParseContent(d, n, pos', page)
  }

  /** Inline string, opaque data, or a string-table reference of either form. */
  predicate HoldsText(l: Lookup, page: int, b: byte) {
    b == 0x03 || b == 0xC3 || b == 0x83 || (0x05 <= b < 0x40 && l.name(page, b).None?)
  }

  /** A content item that adds to an element's text. */
  function ReadText(d: Doc, n: Node, pos: nat): (r: Result<At<Node>>)
    requires pos < |d.data|
    ensures r.Ok? ==> pos < r.value.pos <= |d.data| && r.value.value.children == n.children
  {
    var b := d.data[pos];
    if b == 0x03 then
      match ReadInline(d.data, pos + 1)
      case Err(e) => Err(e)
      case Ok(s) => Ok(At(n.(text := n.text + s.value), s.pos))
    else if b == 0xC3 then
      match ReadMB(d.data, pos + 1, 0, 0)
      case Err(e) => Err(e)
      case Ok(l) =>
        if l.value > |d.data| - l.pos then Err(UnexpectedEof)
        else
          var end := l.pos + l.value;
          Ok(At(n.(text := n.text + d.data[l.pos..end], binary := true), end))
    else
      match ReadMB(d.data, if b == 0x83 then pos + 1 else pos, 0, 0)
      case Err(e) => Err(e)
      case Ok(off) => Ok(At(n.(text := n.text + StringAt(d.table, off.value)), off.pos))
  }

  /** One turn of the content loop of an element. */
  function ParseItem(d: Doc, n: Node, pos: nat, page: int): (r: Result<Turn>)
    ensures r.Ok? ==> pos < r.value.at.pos <= |d.data|
    decreases |d.data| - pos, 1
  {
    if pos >= |d.data| then Err(UnexpectedEof)
    else
      var b := d.data[pos];
      if b == 0x01 then Ok(Turn(Parsed(n, pos + 1, page), true))
      else if b == 0x00 then
        match ReadMB(d.data, pos + 1, 0, 0)
        case Err(e) => Err(e)
        case Ok(p) => Ok(Turn(Parsed(n, p.pos, p.value), false))
      else if HoldsText(d.lookup, page, b) then
        match ReadText(d, n, pos)
        case Err(e) => Err(e)
        case Ok(t) => Ok(Turn(Parsed(t.value, t.pos, page), false))
      else if b < 0x05 then Ok(Turn(Parsed(n, pos + 1, page), false))
      else
        match ParseElement(d, pos, page)
        case Err(e) => Err(e)
        case Ok(c) => Ok(Turn(Parsed(n.(children := n.children + [c.node]), c.pos, c.page), false))
  }

  function ParseContent(d: Doc, n: Node, pos: nat, page: int): (r: Result<Parsed>)
    ensures r.Ok? ==> pos < r.value.pos <= |d.data|
    decreases |d.data| - pos, 2
  {
    match ParseItem(d, n, pos, page)
    case Err(e) => Err(e)
    case Ok(t) => if t.end then Ok(t.at) else ParseContent(d, t.at.node, t.at.pos, t.at.page)
  }

  /** The document body: the first element is the root, later ones are dropped. */
  function ParseBody(d: Doc, root: Option<Node>, pos: nat, page: int): Result<Node>
    decreases |d.data| - pos
  {
    if pos >= |d.data| then if root.Some? then Ok(root.value) else Err(EmptyDocument)
    else if d.data[pos] == 0x00 then
      match ReadMB(d.data, pos + 1, 0, 0)
      case Err(e) => Err(e)
      case Ok(p) => ParseBody(d, root, p.pos, p.value)
    else if d.data[pos] == 0x01 then ParseBody(d, root, pos + 1, page)
    else
      match ParseElement(d, pos, page)
      case Err(e) => Err(e)
      case Ok(c) => ParseBody(d, if root.None? then Some(c.node) else root, c.pos, c.page)
  }

  /** Public id and charset are read and ignored; the result is the string-table length. */
  function HeaderOf(data: seq<byte>): (r: Result<At<nat>>)
    ensures r.Ok? ==> r.value.pos <= |data|
  {
    match ReadMB(data, 1, 0, 0)
    case Err(e) => Err(e)
    case Ok(id) =>
      match ReadMB(data, id.pos, 0, 0)
      case Err(e) => Err(e)
      case Ok(charset) => ReadMB(data, charset.pos, 0, 0)
  }

  /** The string table, and where the body starts. */
  function Prelude(data: seq<byte>): (r: Result<At<seq<byte>>>)
    ensures r.Ok? ==> r.value.pos <= |data|
  {
    match HeaderOf(data)
    case Err(e) => Err(e)
    case Ok(size) =>
      if size.value > |data| - size.pos then Err(BadStringTable)
      else
        var body := size.pos + size.value;
        Ok(At(data[size.pos..body], body))
  }

  function Decode(data: seq<byte>, l: Lookup): Result<Node> {
    if |data| < 4 then Err(TooShort)
    else if data[0] != 0x03 && data[0] != 0x02 then Err(BadVersion)
    else
      match Prelude(data)
      case Err(e) => Err(e)
      case Ok(start) => ParseBody(Doc(data, start.value, l), None, start.pos, 0)
  }

  // ----- What a parse creates, whether it succeeds or not -----

  /** The nodes created for one element: itself and what its content creates. */
  function ElementMade(d: Doc, pos: nat, page: int): nat
    decreases |d.data| - pos, 0
  {
    if pos >= |d.data| then 0
    else
      var b := d.data[pos];
      var tok := Low6(b);
      var n := Node(page, NameOf(d.lookup, page, tok), tok, [], [], false, false);
      match if b >= 128 then SkipAttributes(d.data, pos + 1) else Ok(pos + 1)
      case Err(_) => 1
      case Ok(pos') => if ContentBit(b) then 1 + ContentMade(d, n, pos', page) else 1
  }

  /** Only a child element creates nodes. */
  function ItemMade(d: Doc, pos: nat, page: int): nat
    decreases |d.data| - pos, 1
  {
    if pos < |d.data| && d.data[pos] >= 0x05 && !HoldsText(d.lookup, page, d.data[pos])
    then ElementMade(d, pos, page) else 0
  }

  function ContentMade(d: Doc, n: Node, pos: nat, page: int): nat
    decreases |d.data| - pos, 2
  {
    match ParseItem(d, n, pos, page)
    case Err(_) => ItemMade(d, pos, page)
    case Ok(t) =>
      ItemMade(d, pos, page) + if t.end then 0 else ContentMade(d, t.at.node, t.at.pos, t.at.page)
  }

  /** Elements behind the root are created, too, and then dropped. */
  function BodyMade(d: Doc, pos: nat, page: int): nat
    decreases |d.data| - pos
  {
    if pos >= |d.data| then 0
    else if d.data[pos] == 0x00 then
      match ReadMB(d.data, pos + 1, 0, 0)
      case Err(_) => 0
      case Ok(p) => BodyMade(d, p.pos, p.value)
    else if d.data[pos] == 0x01 then BodyMade(d, pos + 1, page)
    else
      match ParseElement(d, pos, page)
      case Err(_) => ElementMade(d, pos, page)
      case Ok(c) => ElementMade(d, pos, page) + BodyMade(d, c.pos, c.page)
  }

  function DecodeMade(data: seq<byte>, l: Lookup): nat {
    if |data| < 4 || (data[0] != 0x03 && data[0] != 0x02) then 0
    else
      match Prelude(data)
      case Err(_) => 0
      case Ok(start) => BodyMade(Doc(data, start.value, l), start.pos, 0)
  }

  // ----- The parser as it runs: one cursor moving over the data -----

  class Decoder {
    const data: seq<byte>
    const lookup: Lookup
    var table: seq<byte>
    var pos: nat
    var page: int

    /** The nodes created so far. */
    ghost var made: nat

    constructor (data: seq<byte>, l: Lookup)
      ensures this.data == data && lookup == l && table == [] && pos == 1 && page == 0 && made == 0
    {
      this.data, lookup, table, pos, page, made := data, l, [], 1, 0, 0;
    }

    function Source(): Doc
      reads this
    {
      Doc(data, table, lookup)
    }

    method MB() returns (r: Result<nat>)
      modifies this`pos
      ensures match ReadMB(data, old(pos), 0, 0)
        case Err(e) => r == Err(e)
        case Ok(a) => r == Ok(a.value) && pos == a.pos
    {
      var v: nat := 0;
      var i := 0;
      while i < 5
        invariant 0 <= i <= 5 && v < UINT32
        invariant ReadMB(data, old(pos), 0, 0) == ReadMB(data, pos, i, v)
      {
        if pos >= |data| {
          return Err(UnexpectedEof);
        }
        var b := data[pos];
        pos := pos + 1;
        v := Push7(v, Low7(b));
        if b < 128 {
          return Ok(v);
        }
        i := i + 1;
      }
      return Err(IntegerOverflow);
    }

    method InlineString() returns (r: Result<seq<byte>>)
      requires pos <= |data|
      modifies this`pos
      ensures match ReadInline(data, old(pos))
        case Err(e) => r == Err(e)
        case Ok(a) => r == Ok(a.value) && pos == a.pos
    {
      var start := pos;
      while pos < |data| && data[pos] != 0
        invariant start <= pos <= |data|
        invariant NulAt(data, start) == NulAt(data, pos)
      {
        pos := pos + 1;
      }
      if pos >= |data| {
        return Err(UnexpectedEof);
      }
      r := Ok(data[start..pos]);
      pos := pos + 1;
    }

    method SkipAttrs() returns (r: Result<()>)
      modifies this`pos
      ensures match SkipAttributes(data, old(pos))
        case Err(e) => r == Err(e)
        case Ok(p) => r == Ok(()) && pos == p
    {
      while true
        invariant SkipAttributes(data, old(pos)) == SkipAttributes(data, pos)
        decreases |data| - pos
      {
        if pos >= |data| {
          return Err(UnexpectedEof);
        }
        var b := data[pos];
        pos := pos + 1;
        if b == 0x01 {
          return Ok(());
        }
        if pos >= |data| {
          return Err(UnexpectedEof);
        }
        var skip := SkipAttr();
        if skip.Err? {
          return skip;
        }
      }
    }

    method SkipAttr() returns (r: Result<()>)
      requires pos < |data|
      modifies this`pos
      ensures match SkipAttribute(data, old(pos))
        case Err(e) => r == Err(e)
        case Ok(p) => r == Ok(()) && pos == p
    {
      var v := data[pos];
      if v == 0x03 {
        pos := pos + 1;
        var s := InlineString();
        if s.Err? {
          return Err(s.error);
        }
      } else if v == 0xC3 {
        pos := pos + 1;
        var l := MB();
        if l.Err? {
          return Err(l.error);
        }
        pos := pos + l.value;
      } else {
        var l := MB();
        if l.Err? {
          return Err(l.error);
        }
      }
      return Ok(());
    }

    method Element() returns (r: Result<Node>)
      modifies this`pos, this`page, this`made
      ensures made == old(made) + ElementMade(Source(), old(pos), old(page))
      ensures match ParseElement(Source(), old(pos), old(page))
        case Err(e) => r == Err(e)
        case Ok(p) => r == Ok(p.node) && pos == p.pos && page == p.page
      decreases |data| - pos, 0
    {
      if pos >= |data| {
        return Err(UnexpectedEof);
      }
      var b := data[pos];
      pos := pos + 1;
      var tok := Low6(b);
      var n := Node(page, NameOf(lookup, page, tok), tok, [], [], false, false);
      made := made + 1;
      if b >= 128 {
        var skip := SkipAttrs();
        if skip.Err? {
          return Err(skip.error);
        }
      }
      if !ContentBit(b) {
        return Ok(n);
      }
      r := Content(n);
    }

    /** The content loop of an element. */
    method Content(start: Node) returns (r: Result<Node>)
      modifies this`pos, this`page, this`made
      ensures made == old(made) + ContentMade(Source(), start, old(pos), old(page))
      ensures match ParseContent(Source(), start, old(pos), old(page))
        case Err(e) => r == Err(e)
        case Ok(p) => r == Ok(p.node) && pos == p.pos && page == p.page
      decreases |data| - pos, 1
    {
      var n := start;
      ghost var d, whole := Source(), ParseContent(Source(), start, pos, page);
      ghost var total := made + ContentMade(d, start, pos, page);
      while true
        invariant pos >= old(pos) && d == Source()
        invariant ParseContent(d, n, pos, page) == whole && made + ContentMade(d, n, pos, page) == total
        decreases |data| - pos
      {
        if pos >= |data| {
          return Err(UnexpectedEof);
        }
        var b := data[pos];
        if b == 0x01 {
          pos := pos + 1;
          return Ok(n);
        } else if b == 0x00 {
          pos := pos + 1;
          var p := MB();
          if p.Err? {
            return Err(p.error);
          }
          page := p.value;
        } else if HoldsText(lookup, page, b) {
          var t := Text(n);
          if t.Err? {
            return Err(t.error);
          }
          n := t.value;
        } else if b < 0x05 {
          pos := pos + 1;
        } else {
          var c := Element();
          if c.Err? {
            return Err(c.error);
          }
          n := n.(children := n.children + [c.value]);
        }
      }
    }

    method Text(n: Node) returns (r: Result<Node>)
      requires pos < |data|
      modifies this`pos
      ensures match ReadText(Source(), n, old(pos))
        case Err(e) => r == Err(e)
        case Ok(t) => r == Ok(t.value) && pos == t.pos
    {
      var b := data[pos];
      if b == 0x03 {
        pos := pos + 1;
        var s := InlineString();
        if s.Err? {
          return Err(s.error);
        }
        return Ok(n.(text := n.text + s.value));
      } else if b == 0xC3 {
        pos := pos + 1;
        var l := MB();
        if l.Err? {
          return Err(l.error);
        }
        if l.value > |data| - pos {
          return Err(UnexpectedEof);
        }
        r := Ok(n.(text := n.text + data[pos..pos + l.value], binary := true));
        pos := pos + l.value;
      } else {
        if b == 0x83 {
          pos := pos + 1;
        }
        var off := MB();
        if off.Err? {
          return Err(off.error);
        }
        return Ok(n.(text := n.text + StringAt(table, off.value)));
      }
    }
  }

  /** The three integers before the string table. */
  method ReadHeader(d: Decoder) returns (r: Result<nat>)
    requires d.pos == 1
    modifies d`pos
    ensures match HeaderOf(d.data)
      case Err(e) => r == Err(e)
      case Ok(a) => r == Ok(a.value) && d.pos == a.pos
  {
    var id := d.MB();
    if id.Err? {
      return Err(id.error);
    }
    var charset := d.MB();
    if charset.Err? {
      return Err(charset.error);
    }
    r := d.MB();
  }

  method ReadPrelude(d: Decoder) returns (r: Result<()>)
    requires d.pos == 1
    modifies d`pos, d`table
    ensures match Prelude(d.data)
      case Err(e) => r == Err(e)
      case Ok(a) => r == Ok(()) && d.table == a.value && d.pos == a.pos
  {
    var size := ReadHeader(d);
    if size.Err? {
      return Err(size.error);
    }
    if size.value > |d.data| - d.pos {
      return Err(BadStringTable);
    }
    d.table := d.data[d.pos..d.pos + size.value];
    d.pos := d.pos + size.value;
    return Ok(());
  }

  /** `made` counts every node the parse creates. */
  method DecodeDocument(data: seq<byte>, l: Lookup) returns (r: Result<Node>, ghost made: nat)
    ensures r == Decode(data, l)
    ensures made == DecodeMade(data, l) <= |data|
  {
    MadeBound(data, l);
    made := 0;
    if |data| < 4 {
      return Err(TooShort), made;
    }
    if data[0] != 0x03 && data[0] != 0x02 {
      return Err(BadVersion), made;
    }
    var d := new Decoder(data, l);
    var start := ReadPrelude(d);
    if start.Err? {
      return Err(start.error), made;
    }
    r := ReadBody(d);
    made := d.made;
  }

  method ReadBody(d: Decoder) returns (r: Result<Node>)
    modifies d`pos, d`page, d`made
    ensures r == ParseBody(d.Source(), None, old(d.pos), old(d.page))
    ensures d.made == old(d.made) + BodyMade(d.Source(), old(d.pos), old(d.page))
  {
    var root: Option<Node> := None;
    while d.pos < |d.data|
      invariant d.table == old(d.table)
      invariant ParseBody(d.Source(), None, old(d.pos), old(d.page)) == ParseBody(d.Source(), root, d.pos, d.page)
      invariant old(d.made) + BodyMade(d.Source(), old(d.pos), old(d.page))
        == d.made + BodyMade(d.Source(), d.pos, d.page)
      decreases |d.data| - d.pos
    {
      var b := d.data[d.pos];
      if b == 0x00 {
        d.pos := d.pos + 1;
        var p := d.MB();
        if p.Err? {
          return Err(p.error);
        }
        d.page := p.value;
      } else if b == 0x01 {
        d.pos := d.pos + 1;
      } else {
        var c := d.Element();
        if c.Err? {
          return Err(c.error);
        }
        if root.None? {
          root := Some(c.value);
        }
      }
    }
    if root.None? {
      return Err(EmptyDocument);
    }
    return Ok(root.value);
  }

  // ----- Totality -----

  function Count(n: Node): nat {
    1 + CountAll(n.children)
  }

  function CountAll(ns: seq<Node>): nat {
    if ns == [] then 0 else CountAll(ns[..|ns| - 1]) + Count(ns[|ns| - 1])
  }

  /** What is created for an element that parses is its tree. */
  lemma {:induction false} ElementCount(d: Doc, pos: nat, page: int)
    ensures var r := ParseElement(d, pos, page); r.Ok? ==> Count(r.value.node) == ElementMade(d, pos, page)
    decreases |d.data| - pos, 0
  {
    var r := ParseElement(d, pos, page);
    if r.Ok? {
      var b := d.data[pos];
      var n := Node(page, NameOf(d.lookup, page, Low6(b)), Low6(b), [], [], false, false);
      var next := if b >= 128 then SkipAttributes(d.data, pos + 1) else Ok(pos + 1);
      if ContentBit(b) {
        ContentCount(d, n, next.value, page);
      }
    }
  }

  lemma {:induction false} ItemCount(d: Doc, n: Node, pos: nat, page: int)
    ensures var r := ParseItem(d, n, pos, page);
      r.Ok? ==> Count(r.value.at.node) == Count(n) + ItemMade(d, pos, page)
    decreases |d.data| - pos, 1
  {
    var r := ParseItem(d, n, pos, page);
    if r.Ok? {
      ElementCount(d, pos, page);
      var c := ParseElement(d, pos, page);
      if c.Ok? {
        assert (n.children + [c.value.node])[..|n.children|] == n.children;
      }
    }
  }

  lemma {:induction false} ContentCount(d: Doc, n: Node, pos: nat, page: int)
    ensures var r := ParseContent(d, n, pos, page);
      r.Ok? ==> Count(r.value.node) == Count(n) + ContentMade(d, n, pos, page)
    decreases |d.data| - pos, 2
  {
    var t := ParseItem(d, n, pos, page);
    ItemCount(d, n, pos, page);
    if t.Ok? && !t.value.end {
      ContentCount(d, t.value.at.node, t.value.at.pos, t.value.at.page);
    }
  }

  /** The bytes a parse has taken: up to its cursor, or all there were when it fails. */
  function Taken(d: Doc, pos: nat, r: Result<Parsed>): int {
    (match r case Ok(p) => p.pos case Err(_) => |d.data|) - pos
  }

  lemma {:induction false} ElementMadeBound(d: Doc, pos: nat, page: int)
    requires pos <= |d.data|
    ensures ElementMade(d, pos, page) <= Taken(d, pos, ParseElement(d, pos, page))
    decreases |d.data| - pos, 0
  {
    if pos < |d.data| {
      var b := d.data[pos];
      var n := Node(page, NameOf(d.lookup, page, Low6(b)), Low6(b), [], [], false, false);
      var next := if b >= 128 then SkipAttributes(d.data, pos + 1) else Ok(pos + 1);
      if next.Ok? && ContentBit(b) {
        ContentMadeBound(d, n, next.value, page);
      }
    }
  }

  lemma {:induction false} ContentMadeBound(d: Doc, n: Node, pos: nat, page: int)
    requires pos <= |d.data|
    ensures ContentMade(d, n, pos, page) <= Taken(d, pos, ParseContent(d, n, pos, page))
    decreases |d.data| - pos, 2
  {
    ElementMadeBound(d, pos, page);
    var t := ParseItem(d, n, pos, page);
    if t.Ok? && !t.value.end {
      ContentMadeBound(d, t.value.at.node, t.value.at.pos, t.value.at.page);
    }
  }

  lemma {:induction false} BodyMadeBound(d: Doc, pos: nat, page: int)
    requires pos <= |d.data|
    ensures BodyMade(d, pos, page) <= |d.data| - pos
    decreases |d.data| - pos
  {
    if pos < |d.data| {
      if d.data[pos] == 0x00 {
        var p := ReadMB(d.data, pos + 1, 0, 0);
        if p.Ok? {
          BodyMadeBound(d, p.value.pos, p.value.value);
        }
      } else if d.data[pos] == 0x01 {
        BodyMadeBound(d, pos + 1, page);
      } else {
        var c := ParseElement(d, pos, page);
        ElementMadeBound(d, pos, page);
        if c.Ok? {
          BodyMadeBound(d, c.value.pos, c.value.page);
        }
      }
    }
  }

  /** On every byte string, well-formed or not: a parse creates at most one node for each byte. */
  lemma MadeBound(data: seq<byte>, l: Lookup)
    ensures DecodeMade(data, l) <= |data|
  {
    if |data| >= 4 && Prelude(data).Ok? {
      var start := Prelude(data).value;
      BodyMadeBound(Doc(data, start.value, l), start.pos, 0);
    }
  }

  lemma {:induction false} BodyCount(d: Doc, root: Option<Node>, pos: nat, page: int)
    ensures var r := ParseBody(d, root, pos, page);
      r.Ok? ==>
        if root.Some? then r.value == root.value else Count(r.value) <= BodyMade(d, pos, page)
    decreases |d.data| - pos
  {
    var r := ParseBody(d, root, pos, page);
    if r.Ok? && pos < |d.data| {
      if d.data[pos] == 0x00 {
        var p := ReadMB(d.data, pos + 1, 0, 0).value;
        BodyCount(d, root, p.pos, p.value);
      } else if d.data[pos] == 0x01 {
        BodyCount(d, root, pos + 1, page);
      } else {
        var c := ParseElement(d, pos, page).value;
        ElementCount(d, pos, page);
        BodyCount(d, if root.None? then Some(c.node) else root, c.pos, c.page);
      }
    }
  }

  /** The tree that is returned is part of what was created. */
  lemma DecodeCount(data: seq<byte>, l: Lookup)
    ensures var r := Decode(data, l); r.Ok? ==> Count(r.value) <= DecodeMade(data, l) <= |data|
  {
    MadeBound(data, l);
    if Decode(data, l).Ok? {
      var start := Prelude(data).value;
      BodyCount(Doc(data, start.value, l), None, start.pos, 0);
    }
  }
}
