/**
 iCalendar text (internal/ical/ical.go: escape and fold), sections 3.1 and 3.3.11
 of RFC 5545. Strings are sequences of characters; octets count as UTF-8.
 */
module ICalText {
  import opened Replacing

  // ----- Escaping -----

  method Escape(value: string) returns (r: string)
    ensures r == Escaped(value)
  {
    PassesAreOne(value);
    r := ReplaceAll(value, "\\", "\\\\");
    r := ReplaceAll(r, ";", "\\;");
    r := ReplaceAll(r, ",", "\\,");
    r := ReplaceAll(r, "\r\n", "\\n");
    r := ReplaceAll(r, "\n", "\\n");
    r := ReplaceAll(r, "\r", "\\n");
  }

  function Punctuated(value: string): string {
    ReplaceAll(ReplaceAll(ReplaceAll(value, "\\", "\\\\"), ";", "\\;"), ",", "\\,")
  }

  function Broken(s: string): string {
    ReplaceAll(ReplaceAll(ReplaceAll(s, "\r\n", "\\n"), "\n", "\\n"), "\r", "\\n")
  }

  predicate StartsWithCrLf(s: string) {
    |s| >= 2 && s[0] == '\r' && s[1] == '\n'
  }

  /** The escape of one character that is not the start of a line break pair. */
  function EscapedChar(c: char): string {
    if c == '\\' then "\\\\"
    else if c == ';' then "\\;"
    else if c == ',' then "\\,"
    else if c == '\n' || c == '\r' then "\\n"
    else [c]
  }

  /** The six passes as one. */
  function Escaped(value: string): string
    decreases |value|
  {
    if value == "" then ""
    else if StartsWithCrLf(value) then "\\n" + Escaped(value[2..])
    else EscapedChar(value[0]) + Escaped(value[1..])
  }

  lemma PlainFront(d: char, rest: string)
    requires !(d == '\r' && rest != "" && rest[0] == '\n')
    ensures ReplaceAll([d] + rest, "\r\n", "\\n") == [d] + ReplaceAll(rest, "\r\n", "\\n")
  {
    var s := [d] + rest;
    assert s[1..] == rest;
    if rest != "" {
      assert s[..2] == [d, rest[0]];
    }
  }

  /** Replacing line break pairs works piece by piece unless a pair is torn. */
  lemma {:induction false} PairSplit(a: string, b: string)
    requires !(a != "" && a[|a| - 1] == '\r' && b != "" && b[0] == '\n')
    ensures ReplaceAll(a + b, "\r\n", "\\n") == ReplaceAll(a, "\r\n", "\\n") + ReplaceAll(b, "\r\n", "\\n")
    decreases |a|
  {
    if a == "" {
      assert a + b == b;
    } else if StartsWithCrLf(a) {
      var rest := a[2..];
      assert a == "\r\n" + rest;
      Associative("\r\n", rest, b);
      PairSplit(rest, b);
      Associative("\\n", ReplaceAll(rest, "\r\n", "\\n"), ReplaceAll(b, "\r\n", "\\n"));
    } else {
      var d, rest := a[0], a[1..];
      assert a == [d] + rest;
      Associative([d], rest, b);
      PlainFront(d, rest);
      PlainFront(d, rest + b);
      PairSplit(rest, b);
      Associative([d], ReplaceAll(rest, "\r\n", "\\n"), ReplaceAll(b, "\r\n", "\\n"));
    }
  }

  lemma PunctuatedOne(c: char)
    ensures Punctuated([c]) == if c == '\r' || c == '\n' then [c] else EscapedChar(c)
  {
    One(c, '\\', "\\\\");
    One(c, ';', "\\;");
    One(c, ',', "\\,");
    if c == '\\' {
      Two('\\', '\\', ';', "\\;");
      Two('\\', '\\', ',', "\\,");
    } else if c == ';' {
      Two('\\', ';', ',', "\\,");
    }
  }

  lemma PunctuatedSplit(a: string, b: string)
    ensures Punctuated(a + b) == Punctuated(a) + Punctuated(b)
  {
    var a1, b1 := ReplaceAll(a, "\\", "\\\\"), ReplaceAll(b, "\\", "\\\\");
    ReplaceSplit(a, b, '\\', "\\\\");
    ReplaceSplit(a1, b1, ';', "\\;");
    ReplaceSplit(ReplaceAll(a1, ";", "\\;"), ReplaceAll(b1, ";", "\\;"), ',', "\\,");
  }

  lemma BrokenSplit(a: string, b: string)
    requires !(a != "" && a[|a| - 1] == '\r' && b != "" && b[0] == '\n')
    ensures Broken(a + b) == Broken(a) + Broken(b)
  {
    var a1, b1 := ReplaceAll(a, "\r\n", "\\n"), ReplaceAll(b, "\r\n", "\\n");
    PairSplit(a, b);
    ReplaceSplit(a1, b1, '\n', "\\n");
    ReplaceSplit(ReplaceAll(a1, "\n", "\\n"), ReplaceAll(b1, "\n", "\\n"), '\r', "\\n");
  }

  lemma BrokenOne(c: char)
    ensures Broken([c]) == if c == '\r' || c == '\n' then "\\n" else [c]
  {
    assert ReplaceAll([c], "\r\n", "\\n") == [c];
    One(c, '\n', "\\n");
    if c == '\n' {
      Two('\\', 'n', '\r', "\\n");
    } else {
      One(c, '\r', "\\n");
    }
  }

  lemma BrokenPunctuated(c: char)
    ensures Broken(Punctuated([c])) == EscapedChar(c)
  {
    PunctuatedOne(c);
    if c == '\\' || c == ';' || c == ',' {
      assert EscapedChar(c) == ['\\'] + [c];
      BrokenSplit(['\\'], [c]);
      BrokenOne('\\');
    }
    BrokenOne(c);
  }

  lemma PassesFront(c: char, rest: string)
    requires !(c == '\r' && rest != "" && rest[0] == '\n')
    ensures Broken(Punctuated([c] + rest)) == EscapedChar(c) + Broken(Punctuated(rest))
  {
    PunctuatedSplit([c], rest);
    PunctuatedOne(c);
    if rest != "" {
    }
    BrokenSplit(Punctuated([c]), Punctuated(rest));
    BrokenPunctuated(c);
  }

  lemma BrokenPair()
    ensures Punctuated("\r\n") == "\r\n" && Broken("\r\n") == "\\n"
  {
    Two('\r', '\n', '\\', "\\\\");
    Two('\r', '\n', ';', "\\;");
    Two('\r', '\n', ',', "\\,");
    assert "\r\n"[..2] == "\r\n" && "\r\n"[2..] == "" && "\\n" + "" == "\\n";
    assert ReplaceAll("\r\n", "\r\n", "\\n") == "\\n";
    Two('\\', 'n', '\n', "\\n");
    Two('\\', 'n', '\r', "\\n");
  }

  lemma PassesPair(rest: string)
    ensures Broken(Punctuated("\r\n" + rest)) == "\\n" + Broken(Punctuated(rest))
  {
    PunctuatedSplit("\r\n", rest);
    BrokenPair();
    BrokenSplit("\r\n", Punctuated(rest));
  }

  /** The six passes together escape each character once, and a line break pair as one. */
  lemma {:induction false} PassesAreOne(value: string)
    ensures Broken(Punctuated(value)) == Escaped(value)
    decreases |value|
  {
    if value == "" {
    } else if StartsWithCrLf(value) {
      assert value == "\r\n" + value[2..];
      PassesPair(value[2..]);
      PassesAreOne(value[2..]);
    } else {
      assert value == [value[0]] + value[1..];
      PassesFront(value[0], value[1..]);
      PassesAreOne(value[1..]);
    }
  }

  // ----- Unescaping -----

  /** The reader's side, section 3.3.11: a backslash pair stands for one character. */
  function Unescape(s: string): string
    decreases |s|
  {
    if |s| <= 1 then s
    else if s[0] != '\\' then [s[0]] + Unescape(s[1..])
    else [if s[1] == 'n' || s[1] == 'N' then '\n' else s[1]] + Unescape(s[2..])
  }

  /** Every line break, of whatever kind, as a line feed. */
  function LineFeeds(value: string): string
    decreases |value|
  {
    if value == "" then ""
    else if StartsWithCrLf(value) then "\n" + LineFeeds(value[2..])
    else [if value[0] == '\r' then '\n' else value[0]] + LineFeeds(value[1..])
  }

  lemma UnescapePlain(c: char, rest: string)
    requires c != '\\'
    ensures Unescape([c] + rest) == [c] + Unescape(rest)
  {
    assert ([c] + rest)[1..] == rest;
  }

  lemma UnescapeFront(c: char, rest: string)
    ensures Unescape(EscapedChar(c) + rest) == [if c == '\r' then '\n' else c] + Unescape(rest)
  {
    if c == '\r' || c == '\n' {
    } else if c == '\\' || c == ';' || c == ',' {
    } else {
      UnescapePlain(c, rest);
    }
  }

  /** Reading an escaped text back yields the text, with its line breaks as line feeds. */
  lemma {:induction false} TextRoundTrip(value: string)
    ensures Unescape(Escaped(value)) == LineFeeds(value)
    decreases |value|
  {
    if value == "" {
    } else if StartsWithCrLf(value) {
      TextRoundTrip(value[2..]);
    } else {
      TextRoundTrip(value[1..]);
      UnescapeFront(value[0], Escaped(value[1..]));
    }
  }

  /** No line break is left raw. */
  lemma {:induction false} EscapedOneLine(value: string)
    ensures '\r' !in Escaped(value) && '\n' !in Escaped(value)
    decreases |value|
  {
    if value == "" {
    } else if StartsWithCrLf(value) {
      EscapedOneLine(value[2..]);
    } else {
      EscapedOneLine(value[1..]);
    }
  }

  predicate Special(c: char) {
    c == '\\' || c == ';' || c == ',' || c == '\n' || c == '\r'
  }

  lemma EscapedFront(c: char, rest: string)
    requires !Special(c)
    ensures Escaped([c] + rest) == [c] + Escaped(rest)
  {
    assert ([c] + rest)[0] == c && ([c] + rest)[1..] == rest;
  }

  /** Characters that mean nothing to the format are written as they are, wherever they stand. */
  lemma {:induction false} PlainUntouched(a: string, b: string)
    requires forall c :: c in a ==> !Special(c)
    ensures Escaped(a + b) == a + Escaped(b)
  {
    if a == "" {
      assert a + b == b && a + Escaped(b) == Escaped(b);
    } else {
      var c, rest := a[0], a[1..];
      assert c in a && forall d :: d in rest ==> d in a;
      PlainUntouched(rest, b);
      EscapedFront(c, rest + b);
      assert a == [c] + rest;
      Associative([c], rest, b);
      Associative([c], rest, Escaped(b));
    }
  }

  /** A reader that skips escaped characters meets a separator, or a backslash that escapes nothing. */
  predicate Separated(s: string)
    decreases |s|
  {
    s != "" && if s[0] == '\\' then |s| == 1 || Separated(s[2..]) else s[0] == ';' || s[0] == ',' || Separated(s[1..])
  }

  /** An escaped text is one value: no separator in it is left bare. */
  lemma {:induction false} NoSeparator(value: string)
    ensures !Separated(Escaped(value))
    decreases |value|
  {
    if value == "" {
    } else if StartsWithCrLf(value) {
      NoSeparator(value[2..]);
      SeparatedFront('\n', Escaped(value[2..]));
    } else {
      NoSeparator(value[1..]);
      SeparatedFront(value[0], Escaped(value[1..]));
    }
  }

  lemma SeparatedFront(c: char, rest: string)
    ensures Separated(EscapedChar(c) + rest) <==> Separated(rest)
  {
    var e := EscapedChar(c);
    assert (e + rest)[|e|..] == rest;
  }
}
