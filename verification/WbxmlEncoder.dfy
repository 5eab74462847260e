/**
 WBXML trees and their printer (internal/wbxml/wbxml.go: Node, Encode, writeMB), after
 WAP-192-WBXML: what is written as a function of the tree and the code page, and the
 encoder that writes it, one byte after the other.
 */
module WbxmlEncoder {
  import opened Options

  type byte = b: int | 0 <= b < 256

  const UINT32 := 0x1_0000_0000

  datatype Node = Node(page: int, name: string, token: byte, text: seq<byte>, children: seq<Node>,
                       binary: bool, forceContent: bool)

  /** The two directions of the code-page tables. */
  datatype Lookup = Lookup(token: (int, string) -> Option<byte>, name: (int, byte) -> Option<string>)

  /** Bytes written, and the code page the writer is left on. */
  datatype Coded = Coded(bytes: seq<byte>, page: int)

  /** Base-128 digits with the continuation bit set. */
  function Continued(v: nat): seq<byte> {
    if v == 0 then [] else Continued(v / 128) + [128 + v % 128]
  }

  /** A multi-byte integer, section 5.1 of WAP-192-WBXML. */
  function MultiByte(v: nat): seq<byte> {
    Continued(v / 128) + [v % 128]
  }

  /** The content bit, or-ed in. */
  function WithContent(tok: byte): byte {
    if 64 <= tok < 128 || 192 <= tok then tok else tok + 64
  }

  predicate HasContent(n: Node) {
    n.children != [] || n.text != [] || n.forceContent
  }

  function StripNul(text: seq<byte>): seq<byte> {
    if text == [] then []
    else if text[0] == 0 then StripNul(text[1..]) else [text[0]] + StripNul(text[1..])
  }

  function Switch(page: int, to: int): seq<byte> {
    if page == to then [] else [0] + MultiByte(to % UINT32)
  }

  /** An element on its own code page. */
  function EncodeElement(l: Lookup, n: Node): Option<Coded>
    decreases n, 0
  {
    match l.token(n.page, n.name)
    case None => None
    case Some(tok) =>
      if !HasContent(n) then Some(Coded([tok], n.page))
      else if n.children != [] then
        match EncodeChildren(l, n.page, n.children)
        case None => None
        case Some(c) => Some(Coded([WithContent(tok)] + c.bytes + [1], c.page))
      else Some(Coded([WithContent(tok)] + TextBytes(n) + [1], n.page))
  }

  /** Opaque data, or a NUL-terminated inline string. */
  function TextBytes(n: Node): seq<byte> {
    if n.binary then [0xC3] + MultiByte(|n.text| % UINT32) + n.text
    else [0x03] + StripNul(n.text) + [0]
  }

  /** An element, after the code-page switch it may need. */
  function EncodeNode(l: Lookup, page: int, n: Node): Option<Coded>
    decreases n, 1
  {
    match EncodeElement(l, n)
    case None => None
    case Some(c) => Some(Coded(Switch(page, n.page) + c.bytes, c.page))
  }

  function EncodeChildren(l: Lookup, page: int, ns: seq<Node>): Option<Coded>
    decreases ns, 0
  {
    if ns == [] then Some(Coded([], page))
    else
      match EncodeNode(l, page, ns[0])
      case None => None
      case Some(a) =>
        match EncodeChildren(l, a.page, ns[1..])
        case None => None
        case Some(b) => Some(Coded(a.bytes + b.bytes, b.page))
  }

  /** Version 1.3, public id 1, UTF-8, empty string table. */
  const HEADER: seq<byte> := [0x03, 0x01, 0x6A, 0x00]

  function Encode(l: Lookup, root: Node): Option<seq<byte>> {
    match EncodeNode(l, 0, root)
    case None => None
    case Some(c) => Some(HEADER + c.bytes)
  }

  /** The base-128 digits of v at the end of a five-byte buffer. */
  method SplitDigits(v: nat) returns (tmp: array<byte>, i: nat)
    requires v < UINT32
    ensures fresh(tmp) && tmp.Length == 5 && i < 5
    ensures forall j :: i <= j < 5 ==> tmp[j] < 128
    ensures MultiByte(v) == Marked(tmp[i..])
  {
    tmp := new byte[5];
    i := 5;
    var rest := v;
    while true
      invariant 1 <= i <= 5 && rest < UINT32
      invariant i == 4 ==> rest < 0x200_0000
      invariant i == 3 ==> rest < 0x4_0000
      invariant i == 2 ==> rest < 0x800
      invariant i == 1 ==> rest < 16
      invariant if i == 5 then rest == v else rest > 0
      invariant forall j :: i <= j < 5 ==> tmp[j] < 128
      invariant i < 5 ==> MultiByte(v) == Continued(rest) + Marked(tmp[i..])
      decreases rest, i
    {
      ghost var before := tmp[i..];
      i := i - 1;
      tmp[i] := rest % 128;
      assert tmp[i..] == [rest % 128] + before;
      assert Continued(rest) == (if rest == 0 then [] else Continued(rest / 128) + [128 + rest % 128]);
      rest := rest / 128;
      if rest == 0 {
        break;
      }
    }
  }

  class Encoder {
    const lookup: Lookup
    var page: int
    var buf: seq<byte>

    constructor (l: Lookup)
      ensures lookup == l && page == 0 && buf == []
    {
      lookup, page, buf := l, 0, [];
    }

    method WriteMB(v: nat)
      requires v < UINT32
      modifies this`buf
      ensures buf == old(buf) + MultiByte(v)
    {
      var tmp, i := SplitDigits(v);
      ghost var digits := tmp[i..];
      var j := i;
      while j < 5
        invariant i <= j <= 5
        invariant tmp[i..] == digits
        invariant buf + Marked(digits[j - i..]) == old(buf) + Marked(digits)
      {
        var b := tmp[j];
        assert b == digits[j - i];
        if j != 4 {
          b := b + 128;
        }
        assert digits[j - i..][1..] == digits[j + 1 - i..];
        MarkedNext(buf, digits[j - i..]);
        buf := buf + [b];
        j := j + 1;
      }
      assert digits[j - i..] == [];
      assert buf == old(buf) + Marked(digits);
    }

    method WriteNode(n: Node) returns (ok: bool)
      modifies this`page, this`buf
      ensures ok <==> EncodeNode(lookup, old(page), n).Some?
      ensures ok ==> var c := EncodeNode(lookup, old(page), n).value;
        buf == old(buf) + c.bytes && page == c.page
      decreases n, 1
    {
      if n.page != page {
        buf := buf + [0];
        WriteMB(n.page % UINT32);
        page := n.page;
      }
      assert buf == old(buf) + Switch(old(page), n.page);
      var tok := lookup.token(n.page, n.name);
      if tok.None? {
        return false;
      }
      ok := WriteElement(n, tok.value);
    }

    method WriteElement(n: Node, tok: byte) returns (ok: bool)
      requires page == n.page && lookup.token(n.page, n.name) == Some(tok)
      modifies this`page, this`buf
      ensures ok <==> EncodeElement(lookup, n).Some?
      ensures ok ==> var c := EncodeElement(lookup, n).value;
        buf == old(buf) + c.bytes && page == c.page
      decreases n, 0
    {
      if !HasContent(n) {
        buf := buf + [tok];
        return true;
      }
      buf := buf + [WithContent(tok)];
      if n.children != [] {
        var good := WriteChildren(n.children);
        if !good {
          return false;
        }
      } else {
        WriteText(n);
      }
      buf := buf + [1];
      return true;
    }

    method WriteText(n: Node)
      modifies this`buf
      ensures buf == old(buf) + TextBytes(n)
    {
      if n.binary {
        buf := buf + [0xC3];
        WriteMB(|n.text| % UINT32);
        buf := buf + n.text;
      } else {
        buf := buf + [0x03] + StripNul(n.text) + [0];
      }
    }

    method WriteChildren(ns: seq<Node>) returns (ok: bool)
      modifies this`page, this`buf
      ensures ok <==> EncodeChildren(lookup, old(page), ns).Some?
      ensures ok ==> var c := EncodeChildren(lookup, old(page), ns).value;
        buf == old(buf) + c.bytes && page == c.page
      decreases ns, 0
    {
      ghost var written: seq<byte> := [];
      ResumeStart(lookup, page, ns);
      assert ns[0..] == ns && old(buf) + written == old(buf);
      var i := 0;
      while i < |ns|
        invariant 0 <= i <= |ns|
        invariant buf == old(buf) + written
        invariant EncodeChildren(lookup, old(page), ns) == Resume(lookup, written, page, ns[i..])
      {
        ghost var at := page;
        ResumeStep(lookup, written, at, ns, i);
        var good := WriteNode(ns[i]);
        if !good {
          return false;
        }
        ghost var more := EncodeNode(lookup, at, ns[i]).value.bytes;
        Joined(old(buf), written, more);
        written := written + more;
        i := i + 1;
      }
      assert written + [] == written;
      return true;
    }
  }

  /** Children still to be written after some bytes already were. */
  ghost function Resume(l: Lookup, bytes: seq<byte>, page: int, ns: seq<Node>): Option<Coded> {
    match EncodeChildren(l, page, ns)
    case None => None
    case Some(c) => Some(Coded(bytes + c.bytes, c.page))
  }

  lemma Joined(a: seq<byte>, b: seq<byte>, c: seq<byte>)
    ensures a + b + c == a + (b + c)
  {
  }

  lemma ResumeStart(l: Lookup, page: int, ns: seq<Node>)
    ensures Resume(l, [], page, ns) == EncodeChildren(l, page, ns)
  {
    match EncodeChildren(l, page, ns)
    case None =>
    case Some(c) => assert [] + c.bytes == c.bytes;
  }

  lemma ResumeStep(l: Lookup, bytes: seq<byte>, page: int, ns: seq<Node>, i: nat)
    requires i < |ns|
    ensures match EncodeNode(l, page, ns[i])
      case None => Resume(l, bytes, page, ns[i..]) == None
      case Some(a) => Resume(l, bytes, page, ns[i..]) == Resume(l, bytes + a.bytes, a.page, ns[i + 1..])
  {
    assert ns[i..][0] == ns[i] && ns[i..][1..] == ns[i + 1..];
    match EncodeNode(l, page, ns[i])
    case None =>
    case Some(a) =>
      match EncodeChildren(l, a.page, ns[i + 1..])
      case None =>
      case Some(b) => assert bytes + (a.bytes + b.bytes) == bytes + a.bytes + b.bytes;
  }

  /** Digits with the continuation bit on all but the last. */
  ghost function Marked(digits: seq<byte>): seq<byte>
    requires forall j :: 0 <= j < |digits| ==> digits[j] < 128
  {
    if digits == [] then []
    else [if |digits| == 1 then digits[0] else digits[0] + 128] + Marked(digits[1..])
  }

  lemma MarkedNext(buf: seq<byte>, digits: seq<byte>)
    requires digits != [] && forall j :: 0 <= j < |digits| ==> digits[j] < 128
    ensures var b := if |digits| == 1 then digits[0] else digits[0] + 128;
      buf + Marked(digits) == buf + [b] + Marked(digits[1..])
  {
    var b: byte := if |digits| == 1 then digits[0] else digits[0] + 128;
    Joined(buf, [b], Marked(digits[1..]));
  }

  method EncodeDocument(l: Lookup, root: Node) returns (r: Option<seq<byte>>)
    ensures r == Encode(l, root)
    ensures r.Some? ==> |r.value| >= 4 && r.value[..4] == [3, 1, 106, 0]
  {
    var e := new Encoder(l);
    var ok := e.WriteNode(root);
    if !ok {
      return None;
    }
    assert e.buf == EncodeNode(l, 0, root).value.bytes;
    return Some(HEADER + e.buf);
  }
}
