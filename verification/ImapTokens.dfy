/**
 IMAP argument lists (internal/imap/proto.go: splitTokens, quote, unquote), section
 4.3 of RFC 3501. A string here is a sequence of bytes, one character each.
 */
module ImapTokens {
  import opened Replacing

  // ----- Quoting -----

  method Quote(s: string) returns (r: string)
    ensures r == Quoted(s)
  {
    SlashedPasses(s);
    r := ReplaceAll(s, "\\", "\\\\");
    r := ReplaceAll(r, "\"", "\\\"");
    r := "\"" + r + "\"";
  }

  function Slash(c: char): string {
    if c == '\\' || c == '"' then ['\\', c] else [c]
  }

  function Slashed(s: string): string {
    if s == "" then "" else Slash(s[0]) + Slashed(s[1..])
  }

  function Quoted(s: string): string {
    "\"" + Slashed(s) + "\""
  }

  lemma {:induction false} SlashedPasses(s: string)
    ensures ReplaceAll(ReplaceAll(s, "\\", "\\\\"), "\"", "\\\"") == Slashed(s)
  {
    if s != "" {
      var c, rest := s[0], s[1..];
      assert s == [c] + rest;
      SlashedPasses(rest);
      CharFront(c, rest, '\\', "\\\\");
      var front := if c == '\\' then "\\\\" else [c];
      ReplaceSplit(front, ReplaceAll(rest, "\\", "\\\\"), '"', "\\\"");
      One(c, '"', "\\\"");
      Two('\\', '\\', '"', "\\\"");
    }
  }

  /** What a reader makes of the inside of a quoted string. */
  function Unslashed(s: string): string
    decreases |s|
  {
    if s == "" then ""
    else if s[0] == '\\' && |s| > 1 then [s[1]] + Unslashed(s[2..])
    else [s[0]] + Unslashed(s[1..])
  }

  function Unquoted(s: string): string {
    if |s| < 2 || s[0] != '"' || s[|s| - 1] != '"' then s else Unslashed(s[1..|s| - 1])
  }

  method Unquote(s: string) returns (b: string)
    ensures b == Unquoted(s)
  {
    if |s| < 2 || s[0] != '"' || s[|s| - 1] != '"' {
      return s;
    }
    var inner := s[1..|s| - 1];
    b := "";
    var i := 0;
    while i < |inner|
      invariant 0 <= i <= |inner|
      invariant b + Unslashed(inner[i..]) == Unslashed(inner)
    {
      ghost var rest := inner[i..];
      assert rest[0] == inner[i] && rest[1..] == inner[i + 1..];
      if inner[i] == '\\' && i + 1 < |inner| {
        assert rest[1] == inner[i + 1] && rest[2..] == inner[i + 2..];
        Associative(b, [inner[i + 1]], Unslashed(inner[i + 2..]));
        i := i + 1;
        b := b + [inner[i]];
        i := i + 1;
        continue;
      }
      Associative(b, [inner[i]], Unslashed(inner[i + 1..]));
      b := b + [inner[i]];
      i := i + 1;
    }
    assert inner[i..] == "" && b + "" == b;
  }

  lemma {:induction false} UnslashSlashed(s: string)
    ensures Unslashed(Slashed(s)) == s
  {
    if s != "" {
      var rest := Slashed(s[1..]);
      UnslashSlashed(s[1..]);
      assert (['\\', s[0]] + rest)[2..] == rest && ([s[0]] + rest)[1..] == rest;
      assert s == [s[0]] + s[1..];
    }
  }

  lemma UnquoteQuoted(s: string)
    ensures Unquoted(Quoted(s)) == s
  {
    UnslashSlashed(s);
    assert Quoted(s)[1..|Quoted(s)| - 1] == Slashed(s);
  }

  // ----- Splitting -----

  /** A token that ends here, if one was begun. */
  function Ended(cur: string): seq<string> {
    if cur == "" then [] else [cur]
  }

  function Deeper(depth: nat, ch: char): nat {
    if ch == '[' || ch == '(' then depth + 1
    else if (ch == ']' || ch == ')') && depth > 0 then depth - 1
    else depth
  }

  /** The tokens of the rest of a list, `cur` being the one under way. */
  function SplitFrom(s: string, cur: string, depth: nat, inQuote: bool): seq<string>
    decreases |s|
  {
    if s == "" then Ended(cur)
    else if inQuote then
      if s[0] == '\\' && |s| > 1 then SplitFrom(s[2..], cur + [s[0], s[1]], depth, true)
      else SplitFrom(s[1..], cur + [s[0]], depth, s[0] != '"')
    else if s[0] == '"' then SplitFrom(s[1..], cur + [s[0]], depth, true)
    else if (s[0] == ' ' || s[0] == '\t') && depth == 0 then Ended(cur) + SplitFrom(s[1..], "", 0, false)
    else SplitFrom(s[1..], cur + [s[0]], Deeper(depth, s[0]), false)
  }

  method SplitTokens(s: string) returns (out: seq<string>)
    ensures out == SplitFrom(s, "", 0, false)
  {
    out := [];
    var cur, depth: nat, inQuote := "", 0, false;
    var i := 0;
    assert s[0..] == s;
    while i < |s|
      invariant 0 <= i <= |s|
      invariant out + SplitFrom(s[i..], cur, depth, inQuote) == SplitFrom(s, "", 0, false)
    {
      var ch := s[i];
      ghost var rest := s[i..];
      assert rest[0] == ch && rest[1..] == s[i + 1..];
      if inQuote {
        if ch == '\\' && i + 1 < |s| {
          assert rest[1] == s[i + 1] && rest[2..] == s[i + 2..];
          assert cur + [ch] + [s[i + 1]] == cur + [ch, s[i + 1]];
          cur := cur + [ch];
          i := i + 1;
          cur := cur + [s[i]];
          i := i + 1;
          continue;
        }
        cur := cur + [ch];
        if ch == '"' {
          inQuote := false;
        }
        i := i + 1;
        continue;
      }
      if ch == '"' {
        inQuote := true;
        cur := cur + [ch];
      } else if (ch == ' ' || ch == '\t') && depth == 0 {
        assert out + (Ended(cur) + SplitFrom(rest[1..], "", 0, false))
          == out + Ended(cur) + SplitFrom(rest[1..], "", 0, false);
        if |cur| > 0 {
          out := out + [cur];
          cur := "";
        } else {
          assert out + [] == out;
        }
      } else {
        depth := Deeper(depth, ch);
        cur := cur + [ch];
      }
      i := i + 1;
    }
    assert s[i..] == "";
    if |cur| > 0 {
      out := out + [cur];
    } else {
      assert out + [] == out;
    }
  }

  // ----- Quoted lists come back -----

  function QuoteAll(list: seq<string>): seq<string> {
    if list == [] then [] else [Quoted(list[0])] + QuoteAll(list[1..])
  }

  function UnquoteAll(tokens: seq<string>): seq<string> {
    if tokens == [] then [] else [Unquoted(tokens[0])] + UnquoteAll(tokens[1..])
  }

  /** Joined by single spaces. */
  function Join(tokens: seq<string>): string {
    if tokens == [] then ""
    else if |tokens| == 1 then tokens[0]
    else tokens[0] + " " + Join(tokens[1..])
  }

  lemma ScanPlain(c: char, tail: string, cur: string, depth: nat)
    requires c != '\\' && c != '"'
    ensures SplitFrom([c] + tail, cur, depth, true) == SplitFrom(tail, cur + [c], depth, true)
  {
    assert ([c] + tail)[1..] == tail;
  }

  lemma ScanSlash(c: char, tail: string, cur: string, depth: nat)
    ensures SplitFrom(['\\', c] + tail, cur, depth, true) == SplitFrom(tail, cur + ['\\', c], depth, true)
  {
    assert (['\\', c] + tail)[2..] == tail;
  }

  /** Inside quotes the scanner runs to the closing quote and no further. */
  lemma {:induction false} ScanQuoted(x: string, rest: string, cur: string, depth: nat)
    ensures SplitFrom(Slashed(x) + ("\"" + rest), cur, depth, true)
      == SplitFrom(rest, cur + (Slashed(x) + "\""), depth, false)
    decreases |x|
  {
    if x == "" {
      assert "" + ("\"" + rest) == "\"" + rest && ("\"" + rest)[1..] == rest && "" + "\"" == "\"";
    } else {
      var front, tail := Slash(x[0]), Slashed(x[1..]);
      Associative(front, tail, "\"" + rest);
      Associative(front, tail, "\"");
      Associative(cur, front, tail + "\"");
      if x[0] == '\\' || x[0] == '"' {
        ScanSlash(x[0], tail + ("\"" + rest), cur, depth);
      } else {
        ScanPlain(x[0], tail + ("\"" + rest), cur, depth);
      }
      ScanQuoted(x[1..], rest, cur + front, depth);
    }
  }

  /** At this depth the scanner takes the text into the current token, whatever follows. */
  ghost predicate Spans(text: string, depth: nat) {
    forall rest, cur :: SplitFrom(text + rest, cur, depth, false) == SplitFrom(rest, cur + text, depth, false)
  }

  lemma QuotedSpans(x: string, depth: nat)
    ensures Spans(Quoted(x), depth)
  {
    forall rest, cur
      ensures SplitFrom(Quoted(x) + rest, cur, depth, false) == SplitFrom(rest, cur + Quoted(x), depth, false)
    {
      var inside := Slashed(x) + ("\"" + rest);
      assert Quoted(x) + rest == "\"" + inside;
      assert ("\"" + inside)[1..] == inside;
      ScanQuoted(x, rest, cur + "\"", depth);
      assert cur + "\"" + (Slashed(x) + "\"") == cur + Quoted(x);
    }
  }

  /** Tokens that the scanner takes whole, joined by spaces, split into themselves. */
  lemma {:induction false} SplitJoined(tokens: seq<string>)
    requires forall t :: t in tokens ==> t != "" && Spans(t, 0)
    ensures SplitFrom(Join(tokens), "", 0, false) == tokens
  {
    if tokens != [] {
      var t := tokens[0];
      assert t in tokens && forall u :: u in tokens[1..] ==> u in tokens;
      assert tokens == [t] + tokens[1..];
      var after := if |tokens| == 1 then "" else " " + Join(tokens[1..]);
      assert Join(tokens) == t + after;
      assert SplitFrom(t + after, "", 0, false) == SplitFrom(after, "" + t, 0, false);
      assert "" + t == t;
      if |tokens| > 1 {
        assert after[1..] == Join(tokens[1..]);
        SplitJoined(tokens[1..]);
      }
    }
  }

  /** Any run of blanks ends a token, and is no token itself. */
  lemma {:induction false} BlanksEnd(blanks: string, rest: string, cur: string)
    requires blanks != "" && forall c :: c in blanks ==> c == ' ' || c == '\t'
    ensures SplitFrom(blanks + rest, cur, 0, false) == Ended(cur) + SplitFrom(rest, "", 0, false)
  {
    var all := blanks + rest;
    assert all[0] == blanks[0] && blanks[0] in blanks && all[1..] == blanks[1..] + rest;
    if |blanks| == 1 {
      assert blanks[1..] + rest == rest;
    } else {
      assert forall c :: c in blanks[1..] ==> c in blanks;
      BlanksEnd(blanks[1..], rest, "");
      assert [] + SplitFrom(rest, "", 0, false) == SplitFrom(rest, "", 0, false);
    }
  }

  // ----- Arguments with groups -----

  /** A piece of an argument, such as BODY[HEADER.FIELDS (DATE FROM)] or (\Seen "x"). */
  datatype Part =
    | Plain(text: string)
    | Str(text: string)
    | Gap(blank: char)
    | Group(open: char, parts: seq<Part>, close: char)

  /** Blanks stand inside groups only; plain text has no blanks, quotes or brackets of its own. */
  predicate Proper(p: Part, inside: bool) {
    match p
    case Plain(text) => forall c :: c in text ==> c !in " \t\"()[]"
    case Str(_) => true
    case Gap(c) => inside && (c == ' ' || c == '\t')
    case Group(open, parts, close) =>
      (open == '(' || open == '[') && (close == ')' || close == ']') && forall q :: q in parts ==> Proper(q, true)
  }

  function Text(p: Part): string {
    match p
    case Plain(text) => text
    case Str(text) => Quoted(text)
    case Gap(c) => [c]
    case Group(open, parts, close) => [open] + Texts(parts) + [close]
  }

  function Texts(parts: seq<Part>): string {
    if parts == [] then "" else Text(parts[0]) + Texts(parts[1..])
  }

  lemma CharSpans(c: char, depth: nat)
    requires c != '"' && (c == ' ' || c == '\t' ==> depth > 0)
    ensures forall rest, cur ::
      SplitFrom([c] + rest, cur, depth, false) == SplitFrom(rest, cur + [c], Deeper(depth, c), false)
  {
    forall rest, cur
      ensures SplitFrom([c] + rest, cur, depth, false) == SplitFrom(rest, cur + [c], Deeper(depth, c), false)
    {
      assert ([c] + rest)[1..] == rest;
    }
  }

  lemma SpansBoth(a: string, b: string, depth: nat)
    requires Spans(a, depth) && Spans(b, depth)
    ensures Spans(a + b, depth)
  {
    forall rest, cur
      ensures SplitFrom(a + b + rest, cur, depth, false) == SplitFrom(rest, cur + (a + b), depth, false)
    {
      Associative(a, b, rest);
      Associative(cur, a, b);
      assert SplitFrom(a + (b + rest), cur, depth, false) == SplitFrom(b + rest, cur + a, depth, false);
    }
  }

  lemma EmptySpans(depth: nat)
    ensures Spans("", depth)
  {
    forall rest, cur ensures SplitFrom("" + rest, cur, depth, false) == SplitFrom(rest, cur + "", depth, false) {
      assert "" + rest == rest && cur + "" == cur;
    }
  }

  lemma {:induction false} PlainSpans(text: string, depth: nat)
    requires forall c :: c in text ==> c !in " \t\"()[]"
    ensures Spans(text, depth)
  {
    if text == "" {
      EmptySpans(depth);
    } else {
      var c := text[0];
      assert c in text && forall d :: d in text[1..] ==> d in text;
      CharSpans(c, depth);
      assert Spans([c], depth);
      PlainSpans(text[1..], depth);
      SpansBoth([c], text[1..], depth);
      assert text == [c] + text[1..];
    }
  }

  lemma GroupSpans(open: char, text: string, close: char, depth: nat)
    requires (open == '(' || open == '[') && (close == ')' || close == ']') && Spans(text, depth + 1)
    ensures Spans([open] + text + [close], depth)
  {
    CharSpans(open, depth);
    CharSpans(close, depth + 1);
    forall rest, cur
      ensures SplitFrom([open] + text + [close] + rest, cur, depth, false)
        == SplitFrom(rest, cur + ([open] + text + [close]), depth, false)
    {
      var behind := [close] + rest;
      assert [open] + text + [close] + rest == [open] + (text + behind);
      assert SplitFrom([open] + (text + behind), cur, depth, false)
        == SplitFrom(text + behind, cur + [open], depth + 1, false);
      assert SplitFrom(text + behind, cur + [open], depth + 1, false)
        == SplitFrom(behind, cur + [open] + text, depth + 1, false);
      assert cur + [open] + text + [close] == cur + ([open] + text + [close]);
    }
  }

  lemma {:induction false} PartSpans(p: Part, depth: nat)
    requires Proper(p, depth > 0)
    ensures Spans(Text(p), depth)
    decreases p, 1
  {
    match p
    case Plain(text) => PlainSpans(text, depth);
    case Str(text) => QuotedSpans(text, depth);
    case Gap(c) =>
      CharSpans(c, depth);
    case Group(open, parts, close) =>
      PartsSpan(parts, depth + 1);
      GroupSpans(open, Texts(parts), close, depth);
  }

  lemma {:induction false} PartsSpan(parts: seq<Part>, depth: nat)
    requires forall p :: p in parts ==> Proper(p, depth > 0)
    ensures Spans(Texts(parts), depth)
    decreases parts, 0
  {
    if parts == [] {
      EmptySpans(depth);
    } else {
      assert parts[0] in parts && forall q :: q in parts[1..] ==> q in parts;
      PartSpans(parts[0], depth);
      PartsSpan(parts[1..], depth);
      SpansBoth(Text(parts[0]), Texts(parts[1..]), depth);
    }
  }

  function TextsOf(arguments: seq<seq<Part>>): seq<string> {
    if arguments == [] then [] else [Texts(arguments[0])] + TextsOf(arguments[1..])
  }

  /**
   Arguments come apart where they were joined: groups, nested to any depth and with
   blanks and quoted strings inside, stay whole.
   */
  lemma {:induction false} ArgumentsSplit(arguments: seq<seq<Part>>)
    requires forall a :: a in arguments ==> Texts(a) != "" && forall p :: p in a ==> Proper(p, false)
    ensures SplitFrom(Join(TextsOf(arguments)), "", 0, false) == TextsOf(arguments)
  {
    ArgumentsSpan(arguments);
    SplitJoined(TextsOf(arguments));
  }

  lemma {:induction false} ArgumentsSpan(arguments: seq<seq<Part>>)
    requires forall a :: a in arguments ==> Texts(a) != "" && forall p :: p in a ==> Proper(p, false)
    ensures forall t :: t in TextsOf(arguments) ==> t != "" && Spans(t, 0)
  {
    if arguments != [] {
      assert arguments[0] in arguments && forall a :: a in arguments[1..] ==> a in arguments;
      PartsSpan(arguments[0], 0);
      ArgumentsSpan(arguments[1..]);
    }
  }

  lemma {:induction false} QuotedAllSpan(list: seq<string>)
    ensures forall t :: t in QuoteAll(list) ==> t != "" && Spans(t, 0)
  {
    if list != [] {
      QuotedSpans(list[0], 0);
      QuotedAllSpan(list[1..]);
    }
  }

  lemma {:induction false} UnquoteQuoteAll(list: seq<string>)
    ensures UnquoteAll(QuoteAll(list)) == list
  {
    if list != [] {
      UnquoteQuoteAll(list[1..]);
      UnquoteQuoted(list[0]);
      assert QuoteAll(list)[1..] == QuoteAll(list[1..]);
      assert list == [list[0]] + list[1..];
    }
  }

  /** Whatever bytes the strings hold, quoting, joining, splitting and unquoting gives the list back. */
  lemma ListRoundTrip(list: seq<string>)
    ensures UnquoteAll(SplitFrom(Join(QuoteAll(list)), "", 0, false)) == list
  {
    QuotedAllSpan(list);
    SplitJoined(QuoteAll(list));
    UnquoteQuoteAll(list);
  }
}
