/** The wait before a retry, computed in the 64-bit integers of time.Duration. */
module Backoff {

  const BASE_DELAY := 200_000_000
  const TWO_64 := 0x1_0000_0000_0000_0000
  const TWO_63 := 0x8000_0000_0000_0000
  const TWO_59 := 0x800_0000_0000_0000
  const DEFAULT_MAX_DELAY := 8_000_000_000

  type Duration = x: int | -TWO_63 <= x < TWO_63

  function Pow2(n: nat): (r: nat)
    ensures r >= 1
  {
    if n == 0 then 1 else 2 * Pow2(n - 1)
  }

  /** The 64-bit integer an exact result wraps to. */
  function Wrap(x: int): Duration {
    var m := x % TWO_64;
    if m < TWO_63 then m else m - TWO_64
  }

  /** x << n on an int64. */
  function ShiftLeft(x: Duration, n: nat): Duration {
    Wrap(x * Pow2(n))
  }

  /** backoffDelay up to the jitter: the doubled base, or maxDelay once that is exceeded or the shift overflowed. */
  function Ceiling(attempt: nat, maxDelay: Duration): Duration {
    var d := ShiftLeft(BASE_DELAY, attempt);
    if d <= 0 || d > maxDelay then maxDelay else d
  }

  function Min(a: int, b: int): int {
    if a <= b then a else b
  }

  lemma {:induction false} Pow2Adds(a: nat, b: nat)
    ensures Pow2(a + b) == Pow2(a) * Pow2(b)
  {
    if a > 0 { Pow2Adds(a - 1, b); }
  }

  lemma {:induction false} Pow2Grows(a: nat, b: nat)
    requires a <= b
    ensures Pow2(a) <= Pow2(b)
  {
    if a < b { Pow2Grows(a, b - 1); }
  }

  lemma KnownPowers()
    ensures Pow2(18) == 0x4_0000 && Pow2(19) == 0x8_0000 && Pow2(35) == 0x8_0000_0000 && Pow2(36) == 0x10_0000_0000
    ensures Pow2(55) == 0x80_0000_0000_0000
  {
    assert Pow2(9) == 512;
    Pow2Adds(9, 9);
    Pow2Adds(18, 18);
    Pow2Adds(36, 19);
  }

  /** Up to attempt 35 nothing overflows; past it the exact delay is beyond any 64-bit maximum. */
  lemma ExactDelay(attempt: nat)
    ensures attempt <= 35 ==> BASE_DELAY * Pow2(attempt) < TWO_63
    ensures attempt >= 36 ==> BASE_DELAY * Pow2(attempt) >= TWO_63
  {
    KnownPowers();
    if attempt <= 35 { Pow2Grows(attempt, 35); } else { Pow2Grows(36, attempt); }
  }

  /** From attempt 55 on every bit has been shifted out. */
  lemma ShiftedOut(attempt: nat)
    requires attempt >= 55
    ensures ShiftLeft(BASE_DELAY, attempt) == 0
  {
    KnownPowers();
    Pow2Adds(55, attempt - 55);
    RegroupWhole(Pow2(attempt - 55));
    MultipleWraps(390625 * Pow2(attempt - 55));
  }

  lemma RegroupWhole(p: nat)
    ensures BASE_DELAY * (0x80_0000_0000_0000 * p) == (390625 * p) * TWO_64
  {}

  lemma MultipleWraps(k: int)
    ensures Wrap(k * TWO_64) == 0
  {}

  const TWO_45 := 0x2000_0000_0000

  /** A multiple of 2^45 wraps as its cofactor does on 19 bits. */
  lemma WrapCofactor(y: nat)
    ensures Wrap(TWO_45 * y) == TWO_45 * (if y % 0x8_0000 < 0x4_0000 then y % 0x8_0000 else y % 0x8_0000 - 0x8_0000)
  {}

  /** Between, the base is 390625 * 2^(9 + attempt), and what is left is negative or at least 2^59, which attempt 50
      meets. */
  lemma OverflowIsLarge(attempt: nat)
    requires 36 <= attempt <= 54
    ensures ShiftLeft(BASE_DELAY, attempt) < 0 || ShiftLeft(BASE_DELAY, attempt) >= TWO_59
    ensures attempt == 50 ==> ShiftLeft(BASE_DELAY, attempt) == TWO_59
  {
    KnownPowers();
    var n := attempt - 36;
    Pow2Adds(36, n);
    var y := 390625 * Pow2(n);
    assert BASE_DELAY * Pow2(attempt) == TWO_45 * y by { Regroup(Pow2(n)); }
    WrapCofactor(y);
    Residues(n);
  }

  lemma Regroup(p: nat)
    ensures BASE_DELAY * (0x10_0000_0000 * p) == TWO_45 * (390625 * p)
  {}

  function Residue(n: nat): nat {
    if n == 0 then 390625 else 2 * Residue(n - 1) % 0x8_0000
  }

  lemma {:induction false} ResidueExact(n: nat)
    ensures (390625 * Pow2(n)) % 0x8_0000 == Residue(n)
  {
    if n > 0 {
      ResidueExact(n - 1);
      DoubleModulo(390625 * Pow2(n - 1));
    }
  }

  lemma DoubleModulo(x: nat)
    ensures (2 * x) % 0x8_0000 == (2 * (x % 0x8_0000)) % 0x8_0000
  {}

  const RESIDUES: seq<nat> := [
    390625, 256962, 513924, 503560, 482832, 441376, 358464, 192640, 385280, 246272,
    492544, 460800, 397312, 270336, 16384, 32768, 65536, 131072, 262144]

  lemma {:induction false} ResidueTable(n: nat)
    requires n <= 18
    ensures Residue(n) == RESIDUES[n]
  {
    if n > 0 {
      ResidueTable(n - 1);
      TableDoubles(n);
    }
  }

  lemma TableDoubles(n: nat)
    requires 0 < n <= 18
    ensures RESIDUES[n] == 2 * RESIDUES[n - 1] % 0x8_0000
  {}

  lemma TableLarge(n: nat)
    requires n <= 18
    ensures RESIDUES[n] >= 0x4000 && (n == 14 ==> RESIDUES[n] == 0x4000)
  {}

  lemma Residues(n: nat)
    requires n <= 18
    ensures (390625 * Pow2(n)) % 0x8_0000 >= 0x4000
    ensures n == 14 ==> (390625 * Pow2(n)) % 0x8_0000 == 0x4000
  {
    ResidueExact(n);
    ResidueTable(n);
    TableLarge(n);
  }

  /** The delay is the exact doubling capped at maxDelay, for every attempt, exactly when maxDelay is at most 2^59 ns.
      */
  lemma CeilingExact(maxDelay: Duration)
    requires maxDelay > 0
    ensures (forall attempt: nat :: Ceiling(attempt, maxDelay) == Min(BASE_DELAY * Pow2(attempt), maxDelay)) <==>
      maxDelay <= TWO_59
  {
    if maxDelay <= TWO_59 {
      forall attempt: nat ensures Ceiling(attempt, maxDelay) == Min(BASE_DELAY * Pow2(attempt), maxDelay) {
        ExactDelay(attempt);
        if attempt >= 55 { ShiftedOut(attempt); } else if attempt >= 36 { OverflowIsLarge(attempt); }
      }
    } else {
      ExactDelay(50);
      OverflowIsLarge(50);
      assert Ceiling(50, maxDelay) == TWO_59;
    }
  }

  /** backoffDelay: half fixed, half random. random stands for the generator's draw. */
  method BackoffDelay(attempt: nat, maxDelay: Duration, random: nat) returns (d: Duration)
    requires maxDelay > 0
    ensures d == Jittered(attempt, maxDelay, random)
    ensures Ceiling(attempt, maxDelay) / 2 <= d <= Ceiling(attempt, maxDelay) <= maxDelay
  {
    d := ShiftLeft(BASE_DELAY, attempt);
    if d <= 0 || d > maxDelay { d := maxDelay; }
    var half := d / 2;
    d := half + random % (half + 1);
  }

  /** The draw reaches every wait between them. */
  lemma JitterCovers(attempt: nat, maxDelay: Duration, wait: int)
    requires maxDelay > 0
    requires Ceiling(attempt, maxDelay) / 2 <= wait <= 2 * (Ceiling(attempt, maxDelay) / 2)
    ensures Jittered(attempt, maxDelay, wait - Ceiling(attempt, maxDelay) / 2) == wait
  {
    var half := Ceiling(attempt, maxDelay) / 2;
    SmallModulo(wait - half, half + 1);
  }

  lemma SmallModulo(x: nat, n: nat)
    requires x < n
    ensures x % n == x
  {}

  function Jittered(attempt: nat, maxDelay: Duration, random: nat): int
    requires maxDelay > 0
  {
    var half := Ceiling(attempt, maxDelay) / 2;
    half + random % (half + 1)
  }
}
