/** The delay between attempts to send a queued message (internal/outbound/worker.go: Backoff). */
module OutboundBackoff {

  const UINT64 := 0x1_0000_0000_0000_0000

  const INT64_LIMIT := 0x8000_0000_0000_0000

  const SECOND := 1_000_000_000

  /** Durations are nanoseconds in a signed 64-bit integer. */
  const MINUTE := 60_000_000_000

  const MAX_BACKOFF := 3_600_000_000_000

  /** A left shift of 64 bits, one place at a time; what leaves at the top is lost. */
  function ShiftLeft(x: nat, k: nat): (r: nat)
    requires x < UINT64
    ensures r < UINT64
  {
    if k == 0 then x
    else
      var d := 2 * ShiftLeft(x, k - 1);
      if d >= UINT64 then d - UINT64 else d
  }

  function AsInt64(x: nat): int {
    if x >= INT64_LIMIT then x - UINT64 else x
  }

  function Backoff(attempts: int): int {
    var n := if attempts < 1 then 1 else attempts;
    var d := AsInt64(ShiftLeft(MINUTE, n - 1));
    if d > MAX_BACKOFF || d <= 0 then MAX_BACKOFF else d
  }

  function Pow2(k: nat): (r: nat)
    ensures r > 0
  {
    if k == 0 then 1 else 2 * Pow2(k - 1)
  }

  function Min(a: int, b: int): int {
    if a <= b then a else b
  }

  lemma {:induction false} PowSum(a: nat, b: nat)
    ensures Pow2(a + b) == Pow2(a) * Pow2(b) && Pow2(a) <= Pow2(a + b)
  {
    if b > 0 {
      PowSum(a, b - 1);
      assert Pow2(a + b) == 2 * Pow2(a + (b - 1));
    }
  }

  lemma Powers()
    ensures Pow2(5) == 32 && Pow2(6) == 64 && Pow2(27) == 0x800_0000 && Pow2(28) == 0x1000_0000
  {
    assert Pow2(7) == 128 && Pow2(6) == 64;
    PowSum(7, 7);
    PowSum(14, 6);
    PowSum(20, 7);
    assert Pow2(28) == 2 * Pow2(27);
  }

  /** While nothing leaves at the top, shifting multiplies. */
  lemma {:induction false} ShiftExact(k: nat)
    requires k <= 28
    ensures ShiftLeft(MINUTE, k) == MINUTE * Pow2(k)
  {
    if k > 0 {
      ShiftExact(k - 1);
      Powers();
      PowSum(k - 1, 28 - k);
      assert Pow2(k - 1) <= 0x800_0000;
    }
  }

  /** From 31 places on, only multiples of 2^42 are left: zero, or more than an hour. */
  lemma {:induction false} ShiftCoarse(k: nat) returns (j: nat)
    requires k >= 31
    ensures ShiftLeft(MINUTE, k) == 0x400_0000_0000 * j && j < 0x40_0000
  {
    if k == 31 {
      ShiftWrapped();
      j := ShiftLeft(MINUTE, 31) / 0x400_0000_0000;
    } else {
      var i := ShiftCoarse(k - 1);
      j := if i < 0x20_0000 then 2 * i else 2 * i - 0x40_0000;
    }
  }

  /** The first shifts that wrap. */
  lemma ShiftWrapped()
    ensures ShiftLeft(MINUTE, 28) == MINUTE * 0x1000_0000
    ensures ShiftLeft(MINUTE, 29) == 2 * ShiftLeft(MINUTE, 28) - UINT64
    ensures ShiftLeft(MINUTE, 30) == 2 * ShiftLeft(MINUTE, 29) - UINT64
    ensures ShiftLeft(MINUTE, 31) == 2 * ShiftLeft(MINUTE, 30)
  {
    ShiftExact(28);
    Powers();
  }

  /**
   Although the shift wraps for 29 attempts and more, the delay is min(2^(n-1), 60)
   minutes for every n >= 1.
   */
  lemma BackoffExact(n: int)
    ensures n >= 1 ==> Backoff(n) == MINUTE * Min(Pow2(n - 1), 60)
    ensures n < 1 ==> Backoff(n) == MINUTE
    ensures n >= 7 ==> Backoff(n) == 60 * MINUTE
  {
    if n < 1 {
      assert ShiftLeft(MINUTE, 0) == MINUTE;
    } else {
      var k := n - 1;
      Powers();
      if k <= 5 {
        ShiftExact(k);
        PowSum(k, 5 - k);
      } else {
        PowSum(6, k - 6);
        if k <= 28 {
          ShiftExact(k);
          PowSum(k, 28 - k);
          if k < 28 {
            PowSum(k, 27 - k);
          }
        } else {
          LateShift(k);
        }
      }
    }
  }

  lemma LateShift(k: nat)
    requires k > 28
    ensures var d := AsInt64(ShiftLeft(MINUTE, k)); d > MAX_BACKOFF || d <= 0
  {
    ShiftWrapped();
    if k >= 31 {
      var j := ShiftCoarse(k);
    }
  }
}
