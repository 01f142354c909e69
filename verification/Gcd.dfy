/** The common divisor of the timer's deltas (jitterentropy-gcd.c): Euclid's algorithm over a history, and the
    divisor that is published once for the life of the process. */
module Gcd {
  import opened Basics

  /** UINT32_MAX / 2 */
  const COARSE: nat := 0x7FFF_FFFF

  ghost predicate Divides(d: nat, x: nat) {
    exists k: nat :: x == k * d
  }

  lemma DividesSum(d: nat, x: nat, y: nat, q: nat)
    requires Divides(d, y)
    ensures Divides(d, x) ==> Divides(d, q * y + x)
  {
    if Divides(d, x) {
      var k: nat :| x == k * d;
      var l: nat :| y == l * d;
      assert q * (l * d) + k * d == (q * l + k) * d;
    }
  }

  lemma DividesRest(d: nat, x: nat, y: nat, q: nat)
    requires Divides(d, y) && Divides(d, q * y + x)
    ensures Divides(d, x)
  {
    var k: nat :| q * y + x == k * d;
    var l: nat :| y == l * d;
    TakenOut(k, l, q, x, d);
    if k < q * l {
      NoNegative(k - q * l, d);
      assert x == 0 == 0 * d;
    }
  }

  lemma TakenOut(k: int, l: int, q: int, x: int, d: int)
    requires q * (l * d) + x == k * d
    ensures x == (k - q * l) * d
  {
    assert q * (l * d) == (q * l) * d;
  }

  lemma NoNegative(a: int, d: nat)
    requires a < 0 && a * d >= 0
    ensures a * d == 0
  {
  }

  /** The common divisors of a and b are those of b and the remainder. */
  lemma RemainderDivisors(a: nat, b: nat, d: nat)
    requires b > 0
    ensures Divides(d, a) && Divides(d, b) <==> Divides(d, b) && Divides(d, a % b)
  {
    hide Divides;
    QuotientDivisors(a / b, a % b, b, d);
  }

  lemma QuotientDivisors(q: nat, r: nat, b: nat, d: nat)
    ensures Divides(d, q * b + r) && Divides(d, b) <==> Divides(d, b) && Divides(d, r)
  {
    hide Divides;
    if Divides(d, b) {
      DividesSum(d, r, b, q);
      if Divides(d, q * b + r) {
        DividesRest(d, r, b, q);
      }
    }
  }

  lemma DividesZero(d: nat)
    ensures Divides(d, 0)
  {
    assert 0 == 0 * d;
  }

  /** jent_gcd64: its divisors are the common divisors of the arguments, so it is the greatest of them. */
  method Gcd64(x: Word, y: Word) returns (a: Word)
    ensures forall d: nat :: Divides(d, a) <==> Divides(d, x) && Divides(d, y)
  {
    hide Divides;
    var b: Word;
    a, b := x, y;
    if a < b {
      a, b := b, a;
    }
    while b != 0
      invariant forall d: nat :: Divides(d, a) && Divides(d, b) <==> Divides(d, x) && Divides(d, y)
      decreases b
    {
      forall d: nat ensures Divides(d, a) && Divides(d, b) <==> Divides(d, b) && Divides(d, a % b) {
        RemainderDivisors(a, b, d);
      }
      var r := a % b;
      a := b;
      b := r;
    }
    forall d: nat ensures Divides(d, 0) {
      DividesZero(d);
    }
  }

  // ---------------------------------------------------------------- a history of deltas

  ghost predicate CommonDivisor(d: nat, h: seq<Word>) {
    forall i | 0 <= i < |h| :: Divides(d, h[i])
  }

  /** g has exactly the common divisors of all deltas. */
  ghost predicate IsGcdOf(g: nat, h: seq<Word>) {
    forall d: nat :: Divides(d, g) <==> CommonDivisor(d, h)
  }

  /** It is a common divisor, no larger one exists unless every delta is zero, and there is only one such number. */
  lemma GreatestDivisor(g: nat, h: seq<Word>)
    requires h != [] && IsGcdOf(g, h)
    ensures CommonDivisor(g, h)
    ensures g == 0 <==> forall i | 0 <= i < |h| :: h[i] == 0
    ensures g > 0 ==> forall d: nat | CommonDivisor(d, h) :: d <= g
    ensures forall f: nat | IsGcdOf(f, h) :: f == g
  {
    assert Divides(g, g) by {
      assert g == 1 * g;
    }
    if g > 0 {
      forall d: nat | Divides(d, g) ensures d <= g {
        DivisorNoLarger(d, g);
      }
    }
    if forall i | 0 <= i < |h| :: h[i] == 0 {
      forall i | 0 <= i < |h| ensures Divides(g + 1, h[i]) {
        DividesZero(g + 1);
      }
      assert CommonDivisor(g + 1, h);
    }
    forall f: nat | IsGcdOf(f, h) ensures f == g {
      assert Divides(f, f) by {
        assert f == 1 * f;
      }
      Antisymmetric(f, g);
    }
  }

  lemma DivisorNoLarger(d: nat, g: nat)
    requires Divides(d, g) && g > 0
    ensures d <= g
  {
    var k: nat :| g == k * d;
    if k > 0 {
      assert k * d == (k - 1) * d + d;
    }
  }

  lemma Antisymmetric(f: nat, g: nat)
    requires Divides(f, g) && Divides(g, f)
    ensures f == g
  {
    if f > 0 && g > 0 {
      DivisorNoLarger(f, g);
      DivisorNoLarger(g, f);
    }
  }

  function Distance(x: nat, y: nat): nat {
    if x >= y then x - y else y - x
  }

  /** The total variation of the history. */
  function Variation(h: seq<Word>): nat {
    if |h| <= 1 then 0 else Variation(h[..|h| - 1]) + Distance(h[|h| - 1], h[|h| - 2])
  }

  /** A history that only rises or only falls varies by the distance between its ends. */
  lemma {:induction false} MonotoneVariation(h: seq<Word>)
    requires h != []
    ensures (forall i | 0 < i < |h| :: h[i - 1] <= h[i]) ==> h[0] + Variation(h) == h[|h| - 1]
    ensures (forall i | 0 < i < |h| :: h[i - 1] >= h[i]) ==> h[|h| - 1] + Variation(h) == h[0]
  {
    if |h| > 1 {
      MonotoneVariation(h[..|h| - 1]);
      RisesTo(h, |h| - 2);
    }
  }

  lemma {:induction false} RisesTo(h: seq<Word>, n: nat)
    requires n < |h|
    ensures (forall i | 0 < i < |h| :: h[i - 1] <= h[i]) ==> h[0] <= h[n]
    ensures (forall i | 0 < i < |h| :: h[i - 1] >= h[i]) ==> h[0] >= h[n]
  {
    if n > 0 {
      RisesTo(h, n - 1);
    }
  }

  lemma {:induction false} FlatVariation(h: seq<Word>)
    requires forall i | 0 <= i < |h| :: h[i] == 0
    ensures Variation(h) == 0
  {
    if |h| > 1 {
      FlatVariation(h[..|h| - 1]);
    }
  }

  /** jent_gcd_analyze_internal; the sum wraps. */
  method AnalyzeInternal(h: seq<Word>) returns (running: Word, sum: Word)
    requires h != []
    ensures IsGcdOf(running, h) && sum == Variation(h) % UINT64
  {
    hide Divides;
    running, sum := h[0], 0;
    assert h[..1] == [h[0]];
    for i := 1 to |h|
      invariant IsGcdOf(running, h[..i])
      invariant sum == Variation(h[..i]) % UINT64
    {
      assert h[..i + 1][..i] == h[..i];
      var step := if h[i] >= h[i - 1] then h[i] - h[i - 1] else h[i - 1] - h[i];
      WrappedSum(Variation(h[..i]), step);
      sum := (sum + step) % UINT64;
      ghost var before := running;
      running := Gcd64(h[i], running);
      OneMore(h, i, before, running);
    }
    assert h[..|h|] == h;
  }

  lemma OneMore(h: seq<Word>, i: nat, before: nat, g: nat)
    requires i < |h| && IsGcdOf(before, h[..i])
    requires forall d: nat :: Divides(d, g) <==> Divides(d, h[i]) && Divides(d, before)
    ensures IsGcdOf(g, h[..i + 1])
  {
    hide Divides;
    forall d: nat ensures CommonDivisor(d, h[..i + 1]) <==> CommonDivisor(d, h[..i]) && Divides(d, h[i]) {
      assert forall j | 0 <= j < i :: h[..i][j] == h[..i + 1][j];
    }
  }

  lemma WrappedSum(x: nat, y: nat)
    ensures (x % UINT64 + y) % UINT64 == (x + y) % UINT64
  {
  }

  datatype Verdict = Accepted | NoVariation | CoarseTime

  /** The divisor every time delta is divided by; 0 until it is published. */
  class Timer {
    var common: Word

    ghost predicate Valid()
      reads this
    {
      common < COARSE
    }

    constructor ()
      ensures Valid() && common == 0
    {
      common := 0;
    }

    /** jent_gcd_analyze: a history that varies enough and is not too coarse publishes its divisor, if none is
        published yet.  What is published is never zero, and never changes. */
    method Analyze(h: seq<Word>, osr: Word) returns (ret: Verdict)
      requires Valid()
      modifies this
      ensures Valid()
      ensures old(common) != 0 ==> common == old(common)
      ensures ret == NoVariation <==> h != [] && (Variation(h) % UINT64 * osr) % UINT64 < |h|
      ensures ret == CoarseTime ==> exists g: nat :: IsGcdOf(g, h) && g >= 0x7FFF_FFFF
      ensures ret == Accepted && h != [] ==> exists g: nat :: IsGcdOf(g, h) && 0 < g < 0x7FFF_FFFF
      ensures ret == Accepted && h != [] ==> common != 0 && (old(common) == 0 ==> IsGcdOf(common, h))
      ensures ret != Accepted || h == [] ==> common == old(common)
    {
      hide IsGcdOf;
      if h == [] {
        return Accepted;
      }
      var running, sum := AnalyzeInternal(h);
      Varies(h, running);
      if (sum * osr) % UINT64 < |h| {
        return NoVariation;
      }
      if running >= COARSE {
        return CoarseTime;
      }
      if common == 0 {
        common := running;
      }
      ret := Accepted;
    }

    /** The divisor a new collector gets: the published one, or 1. */
    method Get() returns (divisor: Word)
      requires Valid()
      ensures divisor == (if common != 0 then common else 1) && divisor != 0
    {
      divisor := if common != 0 then common else 1;
    }
  }

  /** A history whose divisor is zero does not vary. */
  lemma Varies(h: seq<Word>, g: nat)
    requires h != [] && IsGcdOf(g, h)
    ensures g == 0 ==> Variation(h) == 0
  {
    GreatestDivisor(g, h);
    if g == 0 {
      FlatVariation(h);
    }
  }
}
