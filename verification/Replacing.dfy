/** strings.ReplaceAll, and how it works piece by piece. */
module Replacing {

  /** Every occurrence replaced, left to right, without overlap. */
  function ReplaceAll(s: string, pattern: string, text: string): string
    requires pattern != ""
    decreases |s|
  {
    if |s| < |pattern| then s
    else if s[..|pattern|] == pattern then text + ReplaceAll(s[|pattern|..], pattern, text)
    else [s[0]] + ReplaceAll(s[1..], pattern, text)
  }

  lemma Associative(a: string, b: string, c: string)
    ensures a + b + c == a + (b + c)
  {
  }

  lemma CharFront(d: char, rest: string, c: char, text: string)
    ensures ReplaceAll([d] + rest, [c], text) == (if d == c then text else [d]) + ReplaceAll(rest, [c], text)
  {
    assert ([d] + rest)[1..] == rest && ([d] + rest)[..1] == [d];
  }

  /** Replacing a single character works piece by piece. */
  lemma {:induction false} ReplaceSplit(a: string, b: string, c: char, text: string)
    ensures ReplaceAll(a + b, [c], text) == ReplaceAll(a, [c], text) + ReplaceAll(b, [c], text)
  {
    if a == "" {
      assert a + b == b;
    } else {
      var d, rest := a[0], a[1..];
      assert a == [d] + rest;
      Associative([d], rest, b);
      CharFront(d, rest, c, text);
      CharFront(d, rest + b, c, text);
      ReplaceSplit(rest, b, c, text);
      Associative(if d == c then text else [d], ReplaceAll(rest, [c], text), ReplaceAll(b, [c], text));
    }
  }

  lemma One(c: char, p: char, text: string)
    ensures ReplaceAll([c], [p], text) == if c == p then text else [c]
  {
    assert [c][1..] == "" && [c][..1] == [c] && text + "" == text && [c] + "" == [c];
  }

  /** Two characters without the pattern stay. */
  lemma Two(a: char, b: char, p: char, text: string)
    requires a != p && b != p
    ensures ReplaceAll([a, b], [p], text) == [a, b]
  {
    assert [a, b] == [a] + [b];
    ReplaceSplit([a], [b], p, text);
    One(a, p, text);
    One(b, p, text);
  }
}
