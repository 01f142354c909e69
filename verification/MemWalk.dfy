/** The deterministic memory walk of jitterentropy-noise.c: every access adds one to a byte and moves on by 127,
    modulo the size of the block, which is a power of two. */
module MemWalk {
  import opened Basics

  /** JENT_MEMORY_BLOCKSIZE - 1 */
  const STEP: nat := 127

  /** JENT_MEM_ACC_LOOP_DEFAULT */
  const DEFAULT_LOOPS: nat := 128

  /** The byte that access t touches in a block of m bytes. */
  function Location(t: nat, m: nat): (x: nat)
    requires m > 0
    ensures x < m
  {
    t * STEP % m
  }

  // ---------------------------------------------------------------- arithmetic modulo m

  lemma Remainder(a: int, r: nat, k: int, m: nat)
    requires r < m && a == k * m + r
    ensures a % m == r
  {
    var d := a / m;
    assert a == d * m + a % m;
    assert (d - k) * m == r - a % m;
    SmallMultiple(d - k, m);
  }

  /** A multiple of m that is closer to zero than m is zero. */
  lemma SmallMultiple(n: int, m: nat)
    requires -(m as int) < n * m < m
    ensures n == 0
  {
    var l := -n;
    assert l * m == -(n * m);
    if n >= 1 {
      AtLeast(n, m);
    } else if l >= 1 {
      AtLeast(l, m);
    }
  }

  lemma AtLeast(n: int, m: nat)
    requires n >= 1
    ensures n * m >= m
  {
    assert n * m == (n - 1) * m + m;
    Nonneg(n - 1, m);
  }

  lemma Nonneg(a: int, b: int)
    requires a >= 0 && b >= 0
    ensures a * b >= 0
  {
  }

  lemma Distribute(a: int, b: int, m: int)
    ensures (a + b) * m == a * m + b * m
  {
  }

  lemma DivMod(a: nat, m: nat) returns (q: nat, r: nat)
    requires m > 0
    ensures a == q * m + r && r == a % m < m
  {
    q, r := a / m, a % m;
  }

  lemma LocationStep(t: nat, m: nat)
    requires m > 0
    ensures Location(t + 1, m) == (Location(t, m) + STEP) % m && Location(0, m) == 0
  {
    var q, x := DivMod(t * STEP, m);
    var q1, r := DivMod(x + STEP, m);
    Distribute(q, q1, m);
    Remainder((t + 1) * STEP, r, q + q1, m);
    Remainder(0, 0, 0, m);
  }

  // ---------------------------------------------------------------- 127 has an inverse modulo a power of two

  /** 1 + 128 + ... + 128^(k-1) */
  function Geometric(k: nat): nat {
    if k == 0 then 0 else Geometric(k - 1) + Pow(128, k - 1)
  }

  lemma {:induction false} GeometricSum(k: nat)
    ensures STEP * Geometric(k) == Pow(128, k) - 1
  {
    if k > 0 {
      GeometricSum(k - 1);
    }
  }

  lemma {:induction false} PowSplits(k: nat)
    ensures Pow(128, k) == Pow(2, k) * Pow(64, k)
  {
    if k > 0 {
      PowSplits(k - 1);
      assert 128 * (Pow(2, k - 1) * Pow(64, k - 1)) == (2 * Pow(2, k - 1)) * (64 * Pow(64, k - 1));
    }
  }

  function Inverse(k: nat): nat {
    Geometric(k) * (Pow(2, k) - 1)
  }

  lemma InverseOf(k: nat) returns (e: int)
    ensures STEP * Inverse(k) == 1 + e * Pow(2, k)
  {
    hide Pow, Geometric;
    var m: int, w: int := Pow(2, k), Pow(64, k);
    GeometricSum(k);
    PowSplits(k);
    e := w * (m - 1) - 1;
    calc {
      STEP * Inverse(k);
      (STEP * Geometric(k)) * (m - 1);
      (m * w - 1) * (m - 1);
      { Expand(m, w); }
      1 + e * m;
    }
  }

  lemma Expand(m: int, w: int)
    ensures (m * w - 1) * (m - 1) == 1 + (w * (m - 1) - 1) * m
  {
  }

  // ---------------------------------------------------------------- a full cycle

  /** The turn of byte x in every round of accesses. */
  function Turn(x: nat, k: nat): (t: nat)
    ensures t < Pow(2, k)
  {
    x * Inverse(k) % Pow(2, k)
  }

  /** Access t touches byte x exactly if it is x's turn. */
  lemma TurnOf(t: nat, x: nat, k: nat)
    requires x < Pow(2, k)
    ensures Location(t, Pow(2, k)) == x <==> t % Pow(2, k) == Turn(x, k)
  {
    hide Pow, Inverse, Location, Turn;
    if Location(t, Pow(2, k)) == x {
      TouchedInTurn(t, x, k);
    }
    if t % Pow(2, k) == Turn(x, k) {
      TouchesInTurn(t, x, k);
    }
  }

  lemma TouchedInTurn(t: nat, x: nat, k: nat)
    requires x < Pow(2, k) && Location(t, Pow(2, k)) == x
    ensures t % Pow(2, k) == Turn(x, k)
  {
    hide Pow, Inverse;
    var m, c := Pow(2, k), Inverse(k);
    var e := InverseOf(k);
    var u, l := x * c / m, t * STEP / m;
    assert x * c == u * m + Turn(x, k);
    assert t * STEP == l * m + x;
    Forward(t, x, c, e, l, m);
    Distribute(l * c - t * e, u, m);
    Remainder(t, Turn(x, k), l * c - t * e + u, m);
  }

  lemma TouchesInTurn(t: nat, x: nat, k: nat)
    requires x < Pow(2, k) && t % Pow(2, k) == Turn(x, k)
    ensures Location(t, Pow(2, k)) == x
  {
    hide Pow, Inverse;
    var m, c := Pow(2, k), Inverse(k);
    var e := InverseOf(k);
    var q, u := t / m, x * c / m;
    assert t == q * m + t % m && x * c == u * m + Turn(x, k);
    Distribute(q - u, u, m);
    Backward(t, x, c, e, q - u, m);
    Remainder(t * STEP, x, e * x + STEP * (q - u), m);
  }

  lemma Forward(t: int, x: int, c: int, e: int, l: int, m: int)
    requires STEP * c == 1 + e * m && t * STEP == l * m + x
    ensures t == (l * c - t * e) * m + x * c
  {
    assert t * STEP * c == t * (STEP * c) == t + t * e * m;
    assert (l * m + x) * c == l * c * m + x * c;
  }

  lemma Backward(t: int, x: int, c: int, e: int, r: int, m: int)
    requires STEP * c == 1 + e * m && t == r * m + x * c
    ensures t * STEP == (e * x + STEP * r) * m + x
  {
    assert x * c * STEP == x * (STEP * c) == x + x * e * m;
  }

  /** How often the first t accesses touch byte x. */
  function Hits(t: nat, x: nat, m: nat): nat
    requires m > 0
  {
    if t == 0 then 0 else Hits(t - 1, x, m) + if Location(t - 1, m) == x then 1 else 0
  }

  /** Every byte has been touched once a round, and once more after its turn. */
  lemma {:induction false} HitsExactly(t: nat, x: nat, k: nat)
    requires x < Pow(2, k)
    ensures Hits(t, x, Pow(2, k)) == t / Pow(2, k) + if t % Pow(2, k) > Turn(x, k) then 1 else 0
  {
    hide Pow, Turn, Location;
    var m := Pow(2, k);
    if t == 0 {
      SmallQuotient(m);
    } else {
      HitsExactly(t - 1, x, k);
      TurnOf(t - 1, x, k);
      NextTurn(t - 1, m);
    }
  }

  lemma SmallQuotient(m: nat)
    requires m > 0
    ensures 0 / m == 0 && 0 % m == 0
  {
  }

  lemma NextTurn(t: nat, m: nat)
    requires m > 0
    ensures if t % m + 1 < m then (t + 1) / m == t / m && (t + 1) % m == t % m + 1
            else (t + 1) / m == t / m + 1 && (t + 1) % m == 0
  {
    var q, r := t / m, t % m;
    assert t == q * m + r;
    if r + 1 < m {
      Remainder(t + 1, r + 1, q, m);
      Quotient(t + 1, q, r + 1, m);
    } else {
      assert t + 1 == (q + 1) * m + 0;
      Remainder(t + 1, 0, q + 1, m);
      Quotient(t + 1, q + 1, 0, m);
    }
  }

  lemma Quotient(a: nat, q: int, r: nat, m: nat)
    requires m > 0 && a == q * m + r && a % m == r
    ensures a / m == q
  {
    assert a == (a / m) * m + r;
    assert (a / m - q) * m == 0;
    SmallMultiple(a / m - q, m);
  }

  /** Any round of consecutive accesses touches every byte exactly once. */
  lemma FullCycle(t: nat, x: nat, k: nat)
    requires x < Pow(2, k)
    ensures Hits(t + Pow(2, k), x, Pow(2, k)) == Hits(t, x, Pow(2, k)) + 1
  {
    hide Pow, Hits, Turn;
    var m := Pow(2, k);
    HitsExactly(t, x, k);
    HitsExactly(t + m, x, k);
    assert t == (t / m) * m + t % m;
    assert t + m == (t / m + 1) * m + t % m;
    Remainder(t + m, t % m, t / m + 1, m);
    Quotient(t + m, t / m + 1, t % m, m);
  }

  /** At no time have two bytes been touched more than once apart. */
  lemma EvenHits(t: nat, x: nat, y: nat, k: nat)
    requires x < Pow(2, k) && y < Pow(2, k)
    ensures Hits(t, x, Pow(2, k)) <= Hits(t, y, Pow(2, k)) + 1
  {
    hide Pow, Hits, Turn;
    HitsExactly(t, x, k);
    HitsExactly(t, y, k);
  }

  // ---------------------------------------------------------------- the program

  /** The memory block of a collector and the place of the walk. */
  class Memory {
    const mem: array<nat>
    var memlocation: nat

    /** How many accesses there have been, over all calls. */
    ghost var accesses: nat
    ghost const bits: nat

    ghost predicate Valid()
      reads this, mem
    {
      && mem.Length == Pow(2, bits)
      && memlocation == Location(accesses, mem.Length)
      && forall x | 0 <= x < mem.Length :: mem[x] == Hits(accesses, x, mem.Length) % 256
    }

    /** A block of zeros; its size is a power of two. */
    constructor (size: nat, ghost bits: nat)
      requires size == Pow(2, bits)
      ensures Valid() && fresh(mem) && mem.Length == size && accesses == 0 && this.bits == bits
    {
      mem := new nat[size](_ => 0);
      memlocation := 0;
      accesses, this.bits := 0, bits;
      new;
      LocationStep(0, size);
    }

    /** jent_memaccess_deterministic: the walk goes on where the last call left it; a count of zero stands for the
        default. */
    method Walk(loopCount: nat)
      requires Valid()
      modifies this`memlocation, this`accesses, mem
      ensures Valid() && accesses == old(accesses) + if loopCount == 0 then 128 else loopCount
    {
      hide Location, Pow;
      var count := if loopCount == 0 then DEFAULT_LOOPS else loopCount;
      var wrap := mem.Length;
      for i := 0 to count
        invariant Valid() && accesses == old(accesses) + i
      {
        mem[memlocation] := (mem[memlocation] + 1) % 256;
        LocationStep(accesses, wrap);
        forall x | 0 <= x < mem.Length ensures mem[x] == Hits(accesses + 1, x, mem.Length) % 256 {
          WrapOne(Hits(accesses, x, mem.Length));
        }
        memlocation := (memlocation + STEP) % wrap;
        accesses := accesses + 1;
      }
    }
  }

  lemma WrapOne(h: nat)
    ensures (h % 256 + 1) % 256 == (h + 1) % 256
  {
  }
}
