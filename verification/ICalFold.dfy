/** iCalendar line folding (internal/ical/ical.go: fold). */
module ICalFold {
  import opened Replacing
  import opened ICalText

  /*
   Section 3.1 of RFC 5545: no physical line is longer than 75 octets, and removing the
   folds gives the line back.
   */

  const LIMIT := 74

  const MARK := "\r\n "

  /** Length in UTF-8. */
  function Octets(c: char): (n: nat)
    ensures 1 <= n <= 4
  {
    var p := c as int;
    if p < 0x80 then 1 else if p < 0x800 then 2 else if p < 0x1_0000 then 3 else 4
  }

  function Width(s: string): nat {
    if s == "" then 0 else Octets(s[0]) + Width(s[1..])
  }

  /** What is written for the rest of a line when `width` octets of the current piece are used up. */
  function FoldFrom(line: string, width: nat): string {
    if line == "" then "\r\n"
    else
      var n := Octets(line[0]);
      if width + n > LIMIT then MARK + [line[0]] + FoldFrom(line[1..], n)
      else [line[0]] + FoldFrom(line[1..], width + n)
  }

  method Fold(line: string) returns (b: string)
    ensures b == FoldFrom(line, 0)
  {
    b := "";
    var width: nat := 0;
    for i := 0 to |line|
      invariant b + FoldFrom(line[i..], width) == FoldFrom(line, 0)
    {
      var r, size := line[i], Octets(line[i]);
      FoldFront(b, line, i, width);
      if width + size > LIMIT {
        b := b + "\r\n ";
        width := 0;
      }
      b := b + [r];
      width := width + size;
    }
    assert line[|line|..] == "";
    b := b + "\r\n";
  }

  lemma FoldFront(b: string, line: string, i: nat, width: nat)
    requires i < |line|
    ensures var n := Octets(line[i]);
      b + FoldFrom(line[i..], width) ==
        if width + n > LIMIT then b + MARK + [line[i]] + FoldFrom(line[i + 1..], n)
        else b + [line[i]] + FoldFrom(line[i + 1..], width + n)
  {
    var n := Octets(line[i]);
    assert line[i..][0] == line[i] && line[i..][1..] == line[i + 1..];
    if width + n > LIMIT {
      var rest := FoldFrom(line[i + 1..], n);
      assert b + (MARK + [line[i]] + rest) == b + MARK + [line[i]] + rest;
    } else {
      var rest := FoldFrom(line[i + 1..], width + n);
      assert b + ([line[i]] + rest) == b + [line[i]] + rest;
    }
  }

  // ----- The pieces of a folded line -----

  /** The pieces the rest of a line is cut into; the first continues the current one. */
  function Pieces(line: string, width: nat): (ps: seq<string>)
    ensures ps != []
  {
    if line == "" then [""]
    else
      var n := Octets(line[0]);
      var wide := width + n > LIMIT;
      var ps := Pieces(line[1..], if wide then n else width + n);
      var qs := [[line[0]] + ps[0]] + ps[1..];
      if wide then [""] + qs else qs
  }

  function Concat(ps: seq<string>): string {
    if ps == [] then "" else ps[0] + Concat(ps[1..])
  }

  /** The pieces with fold marks between them. */
  function Marked(ps: seq<string>): string
    requires ps != []
  {
    if |ps| == 1 then ps[0] else ps[0] + (MARK + Marked(ps[1..]))
  }

  lemma MarkedFront(c: char, ps: seq<string>)
    requires ps != []
    ensures Marked([[c] + ps[0]] + ps[1..]) == [c] + Marked(ps)
    ensures Concat([[c] + ps[0]] + ps[1..]) == [c] + Concat(ps)
  {
    var qs := [[c] + ps[0]] + ps[1..];
    assert qs[1..] == ps[1..];
    Associative([c], ps[0], Concat(ps[1..]));
    if |ps| > 1 {
      Associative([c], ps[0], MARK + Marked(ps[1..]));
    }
  }

  lemma CutFront(qs: seq<string>)
    requires qs != []
    ensures Marked([""] + qs) == MARK + Marked(qs) && Concat([""] + qs) == Concat(qs)
  {
    assert ([""] + qs)[1..] == qs;
    assert "" + (MARK + Marked(qs)) == MARK + Marked(qs) && "" + Concat(qs) == Concat(qs);
  }

  lemma Glue(mark: string, c: string, m: string, end: string)
    ensures mark + c + (m + end) == mark + (c + m) + end
    ensures c + (m + end) == c + m + end
  {
  }

  /** A folded line is its pieces with marks between, and a line break. */
  lemma {:induction false} FoldPieces(line: string, width: nat)
    ensures FoldFrom(line, width) == Marked(Pieces(line, width)) + "\r\n"
  {
    if line == "" {
      assert "" + "\r\n" == "\r\n";
    } else {
      var c, n := line[0], Octets(line[0]);
      var wide := width + n > LIMIT;
      var ps := Pieces(line[1..], if wide then n else width + n);
      FoldPieces(line[1..], if wide then n else width + n);
      MarkedFront(c, ps);
      Glue(MARK, [c], Marked(ps), "\r\n");
      if wide {
        CutFront([[c] + ps[0]] + ps[1..]);
      }
    }
  }

  lemma {:induction false} PiecesConcat(line: string, width: nat)
    ensures Concat(Pieces(line, width)) == line
  {
    if line == "" {
      assert Concat([""]) == "";
    } else {
      var c, n := line[0], Octets(line[0]);
      var wide := width + n > LIMIT;
      var ps := Pieces(line[1..], if wide then n else width + n);
      PiecesConcat(line[1..], if wide then n else width + n);
      MarkedFront(c, ps);
      if wide {
        CutFront([[c] + ps[0]] + ps[1..]);
      }
      assert line == [c] + line[1..];
    }
  }

  lemma WidthFront(c: char, s: string)
    ensures Width([c] + s) == Octets(c) + Width(s)
  {
    assert ([c] + s)[1..] == s;
  }

  /** Piece k has room, after what was used up of the first piece before. */
  predicate Fits(ps: seq<string>, width: nat, k: nat)
    requires k < |ps|
  {
    (if k == 0 then width else 0) + Width(ps[k]) <= LIMIT
  }

  lemma FitsFront(c: char, ps: seq<string>, width: nat, k: nat)
    requires k < |ps| && Fits(ps, width + Octets(c), k)
    ensures Fits([[c] + ps[0]] + ps[1..], width, k)
  {
    WidthFront(c, ps[0]);
  }

  lemma FitsCut(qs: seq<string>, width: nat, k: nat)
    requires k <= |qs| && width <= LIMIT && (k > 0 ==> Fits(qs, 0, k - 1))
    ensures Fits([""] + qs, width, k)
  {
  }

  /** No piece is wider than the limit; with the leading space of a continuation that makes 75 octets. */
  lemma {:induction false} PiecesFit(line: string, width: nat, k: nat)
    requires width <= LIMIT && k < |Pieces(line, width)|
    ensures Fits(Pieces(line, width), width, k)
    decreases |line|
  {
    if line != "" {
      var c, rest, n := line[0], line[1..], Octets(line[0]);
      if width + n > LIMIT {
        var ps := Pieces(rest, n);
        if k > 0 {
          PiecesFit(rest, n, k - 1);
          FitsFront(c, ps, 0, k - 1);
        }
        FitsCut([[c] + ps[0]] + ps[1..], width, k);
      } else {
        PiecesFit(rest, width + n, k);
        FitsFront(c, Pieces(rest, width + n), width, k);
      }
    }
  }

  /** Piece k is full: the next one begins with a character for which there was no room. */
  predicate Full(ps: seq<string>, width: nat, k: nat)
    requires k + 1 < |ps|
  {
    ps[k + 1] != "" && (if k == 0 then width else 0) + Width(ps[k]) + Octets(ps[k + 1][0]) > LIMIT
  }

  lemma FullFront(c: char, ps: seq<string>, width: nat, k: nat)
    requires k + 1 < |ps| && Full(ps, width + Octets(c), k)
    ensures Full([[c] + ps[0]] + ps[1..], width, k)
  {
    WidthFront(c, ps[0]);
  }

  lemma FullCut(qs: seq<string>, width: nat, k: nat)
    requires k < |qs| && qs[0] != "" && width + Octets(qs[0][0]) > LIMIT
    requires k > 0 ==> Full(qs, 0, k - 1)
    ensures Full([""] + qs, width, k)
  {
  }

  /** And a line is not folded early. */
  lemma {:induction false} PiecesFull(line: string, width: nat, k: nat)
    requires width <= LIMIT && k + 1 < |Pieces(line, width)|
    ensures Full(Pieces(line, width), width, k)
    decreases |line|
  {
    var c, rest, n := line[0], line[1..], Octets(line[0]);
    if width + n > LIMIT {
      var ps := Pieces(rest, n);
      if k > 0 {
        PiecesFull(rest, n, k - 1);
        FullFront(c, ps, 0, k - 1);
      }
      FullCut([[c] + ps[0]] + ps[1..], width, k);
    } else {
      PiecesFull(rest, width + n, k);
      FullFront(c, Pieces(rest, width + n), width, k);
    }
  }

  // ----- Octets -----

  /** The octets of a character, section 3 of RFC 3629. */
  function Utf8(c: char): seq<int> {
    var p := c as int;
    if p < 0x80 then [p]
    else if p < 0x800 then [0xC0 + p / 0x40, 0x80 + p % 0x40]
    else if p < 0x1_0000 then [0xE0 + p / 0x1000, 0x80 + p / 0x40 % 0x40, 0x80 + p % 0x40]
    else [0xF0 + p / 0x4_0000, 0x80 + p / 0x1000 % 0x40, 0x80 + p / 0x40 % 0x40, 0x80 + p % 0x40]
  }

  function Utf8All(s: string): seq<int> {
    if s == "" then [] else Utf8(s[0]) + Utf8All(s[1..])
  }

  lemma {:induction false} WidthIsOctets(s: string)
    ensures Width(s) == |Utf8All(s)|
  {
    if s != "" {
      WidthIsOctets(s[1..]);
    }
  }

  /**
   On the wire no physical line, the space of a continuation included, has more than
   75 octets; and but for the last one each is so full that the next character would
   have made it longer.
   */
  lemma PhysicalLines(line: string, k: nat)
    requires k < |Pieces(line, 0)|
    ensures
      var ps := Pieces(line, 0);
      && (if k == 0 then 0 else 1) + |Utf8All(ps[k])| <= 75
      && (k + 1 < |ps| ==> ps[k + 1] != "" && |Utf8All(ps[k])| + |Utf8(ps[k + 1][0])| >= 75)
  {
    PiecesFit(line, 0, k);
    WidthIsOctets(Pieces(line, 0)[k]);
    if k + 1 < |Pieces(line, 0)| {
      PiecesFull(line, 0, k);
    }
  }

  // ----- Unfolding -----

  predicate HasMark(s: string) {
    |s| >= 3 && (s[..3] == MARK || HasMark(s[1..]))
  }

  /** The reader's side: every line break followed by a space goes, and the final line break. */
  function Unfold(s: string): string {
    var body := if |s| >= 2 && s[|s| - 2..] == "\r\n" then s[..|s| - 2] else s;
    ReplaceAll(body, MARK, "")
  }

  lemma MarkFront(b: string)
    ensures ReplaceAll(MARK + b, MARK, "") == ReplaceAll(b, MARK, "")
  {
    assert (MARK + b)[..3] == MARK && (MARK + b)[3..] == b;
    assert "" + ReplaceAll(b, MARK, "") == ReplaceAll(b, MARK, "");
  }

  lemma NoMarkFront(s: string)
    requires s != "" && !(|s| >= 3 && s[0] == '\r' && s[1] == '\n' && s[2] == ' ')
    ensures ReplaceAll(s, MARK, "") == [s[0]] + ReplaceAll(s[1..], MARK, "")
  {
    if |s| >= 3 {
      var front := s[..3];
      assert front[0] == s[0] && front[1] == s[1] && front[2] == s[2];
      assert front != MARK;
    } else {
      assert s == [s[0]] + s[1..];
    }
  }

  /** An inserted mark is removed whole, whatever stands around it. */
  lemma {:induction false} MarkSplit(a: string, b: string)
    ensures ReplaceAll(a + (MARK + b), MARK, "") == ReplaceAll(a, MARK, "") + ReplaceAll(b, MARK, "")
    decreases |a|
  {
    var s := a + (MARK + b);
    if a == "" {
      assert s == MARK + b;
      MarkFront(b);
    } else if |a| >= 3 && a[0] == '\r' && a[1] == '\n' && a[2] == ' ' {
      var rest := a[3..];
      assert a == MARK + rest && s == MARK + (rest + (MARK + b));
      MarkFront(rest);
      MarkFront(rest + (MARK + b));
      MarkSplit(rest, b);
    } else {
      assert s[1..] == a[1..] + (MARK + b);
      assert |a| < 3 ==> s[|a|] == '\r';
      NoMarkFront(a);
      NoMarkFront(s);
      MarkSplit(a[1..], b);
      Associative([a[0]], ReplaceAll(a[1..], MARK, ""), ReplaceAll(b, MARK, ""));
    }
  }

  /** Removing marks shortens a text exactly when there is one. */
  lemma {:induction false} MarkLength(s: string)
    ensures !HasMark(s) ==> ReplaceAll(s, MARK, "") == s
    ensures |ReplaceAll(s, MARK, "")| <= |s|
    ensures HasMark(s) ==> |ReplaceAll(s, MARK, "")| < |s|
    decreases |s|
  {
    if |s| >= 3 {
      if s[..3] == MARK {
        assert s == MARK + s[3..];
        MarkFront(s[3..]);
        MarkLength(s[3..]);
      } else {
        assert s[..3] == [s[0], s[1], s[2]];
        NoMarkFront(s);
        MarkLength(s[1..]);
        assert s == [s[0]] + s[1..];
      }
    }
  }

  function Cleaned(ps: seq<string>): string {
    if ps == [] then "" else ReplaceAll(ps[0], MARK, "") + Cleaned(ps[1..])
  }

  lemma {:induction false} MarkedCleaned(ps: seq<string>)
    requires ps != []
    ensures ReplaceAll(Marked(ps), MARK, "") == Cleaned(ps)
  {
    if |ps| == 1 {
      assert ps[1..] == [] && ReplaceAll(ps[0], MARK, "") + "" == ReplaceAll(ps[0], MARK, "");
    } else {
      MarkSplit(ps[0], Marked(ps[1..]));
      MarkedCleaned(ps[1..]);
    }
  }

  lemma {:induction false} CleanedLength(ps: seq<string>)
    ensures |Cleaned(ps)| <= |Concat(ps)|
    ensures (forall k :: 0 <= k < |ps| ==> !HasMark(ps[k])) <==> Cleaned(ps) == Concat(ps)
    ensures Cleaned(ps) == Concat(ps) || |Cleaned(ps)| < |Concat(ps)|
  {
    if ps != [] {
      CleanedLength(ps[1..]);
      MarkLength(ps[0]);
      assert forall k :: 0 < k < |ps| ==> ps[k] == ps[1..][k - 1];
    }
  }

  /**
   Fold round trip: unfolding a folded line gives it back exactly when no piece
   contained a fold mark of its own.
   */
  lemma FoldRoundTrip(line: string)
    ensures Unfold(FoldFrom(line, 0)) == line
      <==> forall k :: 0 <= k < |Pieces(line, 0)| ==> !HasMark(Pieces(line, 0)[k])
  {
    var ps := Pieces(line, 0);
    FoldPieces(line, 0);
    PiecesConcat(line, 0);
    var body := Marked(ps);
    assert (body + "\r\n")[..|body|] == body && (body + "\r\n")[|body|..] == "\r\n";
    MarkedCleaned(ps);
    CleanedLength(ps);
  }

  // ----- What a caller can check -----

  lemma {:induction false} MarkAppended(s: string, t: string)
    requires HasMark(s)
    ensures HasMark(s + t)
  {
    assert (s + t)[..3] == s[..3];
    if s[..3] != MARK {
      MarkAppended(s[1..], t);
      assert (s + t)[1..] == s[1..] + t;
    }
  }

  lemma {:induction false} MarkPrepended(t: string, s: string)
    requires HasMark(s)
    ensures HasMark(t + s)
  {
    if t == "" {
      assert t + s == s;
    } else {
      MarkPrepended(t[1..], s);
      assert (t + s)[1..] == t[1..] + s;
    }
  }

  lemma {:induction false} PieceMark(ps: seq<string>, k: nat)
    requires k < |ps| && HasMark(ps[k])
    ensures HasMark(Concat(ps))
  {
    if k == 0 {
      MarkAppended(ps[0], Concat(ps[1..]));
    } else {
      PieceMark(ps[1..], k - 1);
      MarkPrepended(ps[0], Concat(ps[1..]));
    }
  }

  /** A line without a line break and a space comes back, however it is cut. */
  lemma GuardedFold(line: string)
    requires !HasMark(line)
    ensures Unfold(FoldFrom(line, 0)) == line
  {
    PiecesConcat(line, 0);
    forall k | 0 <= k < |Pieces(line, 0)| ensures !HasMark(Pieces(line, 0)[k]) {
      if HasMark(Pieces(line, 0)[k]) {
        PieceMark(Pieces(line, 0), k);
      }
    }
    FoldRoundTrip(line);
  }

  /** One character more in front: it joins the current piece, or begins the next. */
  lemma PiecesStep(c: char, rest: string, width: nat)
    ensures
      var wide := width + Octets(c) > LIMIT;
      var ps := Pieces(rest, if wide then Octets(c) else width + Octets(c));
      Pieces([c] + rest, width) == (if wide then [""] else []) + ([[c] + ps[0]] + ps[1..])
  {
    assert ([c] + rest)[0] == c && ([c] + rest)[1..] == rest;
  }

  /** What fits joins the current piece. */
  lemma {:induction false} PiecesPrefix(a: string, t: string, width: nat)
    requires width + Width(a) <= LIMIT
    ensures var ps := Pieces(t, width + Width(a));
      Pieces(a + t, width) == [a + ps[0]] + ps[1..]
  {
    var ps := Pieces(t, width + Width(a));
    if a == "" {
      assert a + t == t && a + ps[0] == ps[0];
    } else {
      var c, rest := a[0], a[1..];
      assert a == [c] + rest && a + t == [c] + (rest + t);
      PiecesPrefix(rest, t, width + Octets(c));
      PiecesStep(c, rest + t, width);
      Associative([c], rest, ps[0]);
    }
  }

  lemma OnePiece(line: string)
    requires Width(line) <= LIMIT
    ensures Pieces(line, 0) == [line]
  {
    PiecesPrefix(line, "", 0);
    assert line + "" == line;
  }

  /** A line that needs no folding comes back if and only if it holds no line break and space. */
  lemma ShortFold(line: string)
    requires Width(line) <= LIMIT
    ensures Unfold(FoldFrom(line, 0)) == line <==> !HasMark(line)
  {
    OnePiece(line);
    FoldRoundTrip(line);
    var ps := Pieces(line, 0);
    assert |ps| == 1 && ps[0] == line;
    assert HasMark(line) ==> HasMark(ps[0]);
  }

  lemma MarkInside(a: string, b: string)
    ensures HasMark(a + (MARK + b))
  {
    assert (MARK + b)[..3] == MARK;
    MarkPrepended(a, MARK + b);
  }

  lemma {:induction false} CrFree(s: string)
    requires '\r' !in s
    ensures ReplaceAll(s, MARK, "") == s
  {
    NoBreakNoMark(s);
    MarkLength(s);
  }

  /** Text with a line break and a space, written as it is, loses them. */
  lemma BreakLost(a: string, b: string)
    requires '\r' !in a && '\r' !in b && Width(a + (MARK + b)) <= LIMIT
    ensures Unfold(FoldFrom(a + (MARK + b), 0)) == a + b != a + (MARK + b)
  {
    var line := a + (MARK + b);
    OnePiece(line);
    FoldPieces(line, 0);
    assert FoldFrom(line, 0) == line + "\r\n";
    assert (line + "\r\n")[..|line|] == line && (line + "\r\n")[|line|..] == "\r\n";
    MarkSplit(a, b);
    CrFree(a);
    CrFree(b);
    assert |a + b| < |line|;
  }

  /** UIDs, mail addresses and common names are written unescaped: this UID reads back as "ab". */
  lemma UidLost()
    ensures Unfold(FoldFrom("UID:a\r\n b", 0)) == "UID:ab"
  {
    var a, b := "UID:a", "b";
    assert a + (MARK + b) == "UID:a\r\n b";
    WidthAscii(a + (MARK + b));
    BreakLost(a, b);
  }

  lemma {:induction false} WidthAscii(s: string)
    requires forall c :: c in s ==> c as int < 0x80
    ensures Width(s) == |s|
  {
    if s != "" {
      assert s[0] in s && forall c :: c in s[1..] ==> c in s;
      WidthAscii(s[1..]);
    }
  }

  /** Cut behind the CR, neither the first piece nor the others hold a mark. */
  lemma TornPieces(a: string, t: string, all: seq<string>)
    requires '\r' !in a && '\r' !in t && all != [] && all[0] == a + "\r" && Concat(all[1..]) == t
    ensures forall k :: 0 <= k < |all| ==> !HasMark(all[k])
  {
    CrAtEnd(a);
    forall k | 0 < k < |all| ensures !HasMark(all[k]) {
      assert all[k] == all[1..][k - 1];
      ConcatMembers(all[1..], k - 1, '\r');
      NoBreakNoMark(all[k]);
    }
  }

  lemma TornCut(a: string, t: string)
    requires Width(a) == LIMIT - 1 && t != "" && t[0] == '\n'
    ensures var all := Pieces(a + "\r" + t, 0);
      all != [] && all[0] == a + "\r" && Concat(all[1..]) == t
  {
    WidthCr(a);
    PiecesPrefix(a + "\r", t, 0);
    var ps := Pieces(t, LIMIT);
    assert Octets('\n') == 1 && ps[0] == "";
    PiecesConcat(t, LIMIT);
    assert a + "\r" + ps[0] == a + "\r" && "" + Concat(ps[1..]) == Concat(ps[1..]);
    assert ([a + "\r"] + ps[1..])[1..] == ps[1..];
  }

  /** The guard is not needed by every long line: a mark that folding tears apart survives. */
  lemma TornMark(a: string, b: string)
    requires Width(a) == LIMIT - 1 && '\r' !in a && '\r' !in b
    ensures HasMark(a + (MARK + b)) && Unfold(FoldFrom(a + (MARK + b), 0)) == a + (MARK + b)
  {
    var line, t := a + (MARK + b), "\n " + b;
    MarkInside(a, b);
    assert MARK + b == "\r" + t && a + "\r" + t == line;
    TornCut(a, t);
    TornPieces(a, t, Pieces(line, 0));
    FoldRoundTrip(line);
  }

  lemma {:induction false} WidthCr(a: string)
    ensures Width(a + "\r") == Width(a) + 1
  {
    if a == "" {
      assert a + "\r" == "\r" && "\r"[1..] == "";
    } else {
      WidthCr(a[1..]);
      assert (a + "\r")[1..] == a[1..] + "\r";
    }
  }

  lemma {:induction false} CrAtEnd(a: string)
    requires '\r' !in a
    ensures !HasMark(a + "\r")
  {
    var s := a + "\r";
    if |s| >= 3 {
      assert s[..3][0] == a[0];
      CrAtEnd(a[1..]);
      assert s[1..] == a[1..] + "\r";
    }
  }

  lemma {:induction false} NoBreakNoMark(s: string)
    requires '\r' !in s
    ensures !HasMark(s)
  {
    if |s| >= 3 {
      assert s[..3][0] == s[0];
      NoBreakNoMark(s[1..]);
    }
  }

  lemma {:induction false} ConcatMembers(ps: seq<string>, k: nat, c: char)
    requires k < |ps| && c !in Concat(ps)
    ensures c !in ps[k]
  {
    if k > 0 {
      ConcatMembers(ps[1..], k - 1, c);
    }
  }

  lemma {:induction false} CrFreePrefix(prefix: string, text: string)
    requires '\r' !in prefix && '\r' !in text
    ensures !HasMark(prefix + text)
  {
    assert forall c :: c in prefix + text ==> c in prefix || c in text;
    NoBreakNoMark(prefix + text);
  }

  /** So the line of a property with an escaped text comes back. */
  lemma PropertySurvives(prefix: string, value: string, line: string)
    requires '\r' !in prefix && line == prefix + Escaped(value)
    ensures Unfold(FoldFrom(line, 0)) == line
  {
    EscapedOneLine(value);
    CrFreePrefix(prefix, Escaped(value));
    GuardedFold(line);
  }

  /** And so does its text, with line breaks as line feeds. */
  lemma PropertyText(prefix: string, value: string, line: string)
    requires '\r' !in prefix && line == prefix + Escaped(value)
    ensures var back := Unfold(FoldFrom(line, 0));
      |back| >= |prefix| && Unescape(back[|prefix|..]) == LineFeeds(value)
  {
    PropertySurvives(prefix, value, line);
    assert line[|prefix|..] == Escaped(value);
    TextRoundTrip(value);
  }
}
