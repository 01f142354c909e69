/** The serial correlation of app/entropy_stats.c, over integers: the correlation of a byte sequence with itself
    moved by one, wrapping around. */
module Serial {
  import opened Basics

  type Byte = x: nat | x < 256

  function Sum(x: seq<int>): int {
    if x == [] then 0 else Sum(x[..|x| - 1]) + x[|x| - 1]
  }

  /** The product, as a function, so that proofs about sums need not look into it. */
  function Times(a: int, b: int): int {
    a * b
  }

  function Dot(x: seq<int>, y: seq<int>): int
    requires |x| == |y|
  {
    if x == [] then 0 else Dot(x[..|x| - 1], y[..|y| - 1]) + Times(x[|x| - 1], y[|y| - 1])
  }

  /** Every element's successor, the first one after the last. */
  function Rotated(x: seq<int>): (r: seq<int>)
    requires x != []
    ensures |r| == |x|
  {
    x[1..] + [x[0]]
  }

  /** The numerator and the denominator of the correlation. */
  function Covariance(x: seq<int>): int
    requires x != []
  {
    Times(|x|, Dot(x, Rotated(x))) - Times(Sum(x), Sum(x))
  }

  function Variance(x: seq<int>): int {
    Times(|x|, Dot(x, x)) - Times(Sum(x), Sum(x))
  }

  predicate AllEqual(x: seq<int>) {
    forall i | 0 <= i < |x| :: x[i] == x[0]
  }

  /** The wraparound of the program. */
  lemma RotatedIs(x: seq<int>, i: nat)
    requires i < |x|
    ensures Rotated(x)[i] == if i + 1 < |x| then x[i + 1] else x[0]
  {
  }

  /** Two different values are perfectly anticorrelated. */
  lemma TwoValues(a: int, b: int)
    ensures Covariance([a, b]) == -(a - b) * (a - b) && Variance([a, b]) == (a - b) * (a - b)
  {
    assert [] + [a] == [a] && [] + [b] == [b] && [a] + [b] == [a, b] && [b] + [a] == [b, a];
    assert Rotated([a, b]) == [b, a];
    OneMore([], [], a, b);
    OneMore([], [], a, a);
    OneMore([a], [b], b, a);
    OneMore([a], [a], b, b);
  }

  /** Sums and products of one element more. */
  lemma OneMore(x: seq<int>, y: seq<int>, a: int, b: int)
    requires |x| == |y|
    ensures Sum([]) == 0 && Dot([], []) == 0
    ensures Sum(x + [a]) == Sum(x) + a && Dot(x + [a], y + [b]) == Dot(x, y) + a * b
  {
    assert (x + [a])[..|x|] == x && (y + [b])[..|y|] == y;
  }

  // ---------------------------------------------------------------- sums under moving and adding

  lemma {:induction false} SumFront(x: seq<int>)
    requires x != []
    ensures Sum(x) == x[0] + Sum(x[1..])
  {
    if |x| > 1 {
      SumFront(x[..|x| - 1]);
      assert x[1..][..|x| - 2] == x[..|x| - 1][1..];
    }
  }

  lemma {:induction false} DotFront(x: seq<int>, y: seq<int>)
    requires |x| == |y| > 0
    ensures Dot(x, y) == Times(x[0], y[0]) + Dot(x[1..], y[1..])
  {
    hide Times;
    if |x| > 1 {
      DotFront(x[..|x| - 1], y[..|y| - 1]);
      assert x[1..][..|x| - 2] == x[..|x| - 1][1..];
      assert y[1..][..|y| - 2] == y[..|y| - 1][1..];
    }
  }

  lemma RotatedSums(x: seq<int>)
    requires x != []
    ensures Sum(Rotated(x)) == Sum(x) && Dot(Rotated(x), Rotated(x)) == Dot(x, x)
  {
    SumFront(x);
    DotFront(x, x);
    assert Rotated(x)[..|x| - 1] == x[1..];
  }

  /** The elements times the length less their sum. */
  function Centred(x: seq<int>, n: int, s: int): (r: seq<int>)
    ensures |r| == |x| && forall i | 0 <= i < |x| :: r[i] == Times(n, x[i]) - s
  {
    if x == [] then [] else Centred(x[..|x| - 1], n, s) + [Times(n, x[|x| - 1]) - s]
  }

  lemma {:induction false} CentredDot(x: seq<int>, y: seq<int>, n: int, s: int)
    requires |x| == |y|
    ensures Dot(Centred(x, n, s), Centred(y, n, s))
         == n * n * Dot(x, y) - n * s * (Sum(x) + Sum(y)) + |x| * s * s
  {
    hide Times;
    if x != [] {
      var x0, y0 := x[..|x| - 1], y[..|y| - 1];
      CentredDot(x0, y0, n, s);
      assert Centred(x, n, s)[..|x| - 1] == Centred(x0, n, s);
      assert Centred(y, n, s)[..|y| - 1] == Centred(y0, n, s);
      CentredStep(x[|x| - 1], y[|y| - 1], n, s, Dot(x0, y0), Sum(x0) + Sum(y0), |x0|);
    }
  }

  lemma CentredStep(a: int, b: int, n: int, s: int, d: int, t: int, k: int)
    ensures n * n * d - n * s * t + k * s * s + Times(Times(n, a) - s, Times(n, b) - s)
         == n * n * (d + Times(a, b)) - n * s * (t + a + b) + (k + 1) * s * s
  {
  }

  /** The sum of the squares of the sums (or differences) of the elements. */
  function Squares(x: seq<int>, y: seq<int>, sign: int): (r: int)
    requires |x| == |y|
    ensures r >= 0
  {
    if x == [] then 0
    else Squares(x[..|x| - 1], y[..|y| - 1], sign) + Square(x[|x| - 1] + sign * y[|y| - 1])
  }

  function Square(a: int): (r: int)
    ensures r >= 0 && (r == 0 <==> a == 0)
  {
    a * a
  }

  lemma {:induction false} SquaresExpand(x: seq<int>, y: seq<int>, sign: int)
    requires |x| == |y| && (sign == 1 || sign == -1)
    ensures Squares(x, y, sign) == Dot(x, x) + 2 * sign * Dot(x, y) + Dot(y, y)
  {
    if x != [] {
      SquaresExpand(x[..|x| - 1], y[..|y| - 1], sign);
      SquareExpand(x[|x| - 1], y[|y| - 1], sign);
    }
  }

  lemma SquareExpand(a: int, b: int, sign: int)
    requires sign == 1 || sign == -1
    ensures Square(a + sign * b) == Times(a, a) + 2 * sign * Times(a, b) + Times(b, b)
  {
  }

  lemma {:induction false} DotSelf(x: seq<int>)
    ensures Dot(x, x) >= 0
    ensures Dot(x, x) == 0 <==> forall i | 0 <= i < |x| :: x[i] == 0
  {
    if x != [] {
      DotSelf(x[..|x| - 1]);
      assert Times(x[|x| - 1], x[|x| - 1]) == Square(x[|x| - 1]);
    }
  }

  // ---------------------------------------------------------------- the bounds

  /** Cauchy-Schwarz for the wrapped correlation: the covariance is bounded by the variance, which is zero exactly
      for a constant sequence. */
  lemma CorrelationBounds(x: seq<int>)
    requires x != []
    ensures -Variance(x) <= Covariance(x) <= Variance(x)
    ensures Variance(x) >= 0 && (Variance(x) == 0 <==> AllEqual(x))
  {
    hide Dot, Sum, Centred, Squares, Times, Square, Rotated, AllEqual;
    var n, s := |x|, Sum(x);
    var r := Rotated(x);
    var c, d := Centred(x, n, s), Centred(r, n, s);
    RotatedSums(x);
    CentredDots(x);
    SquaresExpand(c, d, 1);
    SquaresExpand(c, d, -1);
    DotSelf(c);
    CentredZero(x, c);
    Conclude(n, Variance(x), Covariance(x), Dot(c, c), Dot(c, d));
  }

  /** Centring multiplies the variance and the covariance by the length. */
  lemma CentredDots(x: seq<int>)
    requires x != []
    ensures var c, d := Centred(x, |x|, Sum(x)), Centred(Rotated(x), |x|, Sum(x));
            Dot(c, c) == Dot(d, d) == |x| * Variance(x) && Dot(c, d) == |x| * Covariance(x)
  {
    hide Dot, Sum, Centred, Times, Rotated;
    var n, s := |x|, Sum(x);
    var r := Rotated(x);
    RotatedSums(x);
    CentredDot(x, x, n, s);
    CentredDot(r, r, n, s);
    CentredDot(x, r, n, s);
    Collect(n, s, Dot(x, x));
    Collect(n, s, Dot(x, r));
  }

  lemma Collect(n: nat, s: int, d: int)
    ensures n * n * d - n * s * (s + s) + n * s * s == n * (Times(n, d) - Times(s, s))
  {
  }

  /** The sums and the differences have squares that are not negative. */
  lemma Conclude(n: nat, v: int, c: int, cc: int, cd: int)
    requires n > 0 && cc == n * v && cd == n * c && cc >= 0
    requires cc + 2 * 1 * cd + cc >= 0 && cc + 2 * -1 * cd + cc >= 0
    ensures v >= 0 && -v <= c <= v && (v == 0 <==> cc == 0)
  {
    NoLess(n, v, 0);
    NoLess(n, v, c);
    NoLess(n, c, -v);
  }

  lemma NoLess(n: nat, a: int, b: int)
    requires n > 0 && n * a >= n * b
    ensures a >= b
  {
    if a < b {
      TimesMore(n, a, b);
    }
  }

  lemma TimesMore(n: nat, a: int, b: int)
    requires n > 0 && a < b
    ensures n * a < n * b
  {
    assert n * b == n * a + n * (b - a);
  }

  lemma CentredZero(x: seq<int>, c: seq<int>)
    requires x != [] && |c| == |x| && forall i | 0 <= i < |x| :: c[i] == Times(|x|, x[i]) - Sum(x)
    ensures AllEqual(x) <==> forall i | 0 <= i < |x| :: c[i] == 0
  {
    hide Sum, Times;
    var n := |x|;
    if AllEqual(x) {
      SumConstant(x);
      forall i | 0 <= i < |x| ensures c[i] == 0 {
        assert x[i] == x[0];
      }
    }
    if forall i | 0 <= i < |x| :: c[i] == 0 {
      forall i | 0 <= i < |x| ensures x[i] == x[0] {
        assert c[i] == 0 && c[0] == 0;
        Cancel(n, x[i], x[0]);
      }
    }
  }

  lemma Cancel(n: nat, a: int, b: int)
    requires n > 0 && Times(n, a) == Times(n, b)
    ensures a == b
  {
    NoLess(n, a, b);
    NoLess(n, b, a);
  }

  lemma {:induction false} SumConstant(x: seq<int>)
    requires x != [] && AllEqual(x)
    ensures Sum(x) == Times(|x|, x[0])
  {
    if |x| > 1 {
      SumConstant(x[..|x| - 1]);
    } else {
      assert x[..0] == [];
    }
  }

  // ---------------------------------------------------------------- the program

  /** entropy_stats_serial_correlation: none (NaN) for fewer than two bytes or a constant sequence, and otherwise a
      number between -1 and 1. */
  method SerialCorrelation(data: seq<Byte>) returns (r: Option<real>)
    ensures r.None? <==> |data| < 2 || AllEqual(data)
    ensures r.Some? ==> -1.0 <= r.value <= 1.0
    ensures r.Some? ==> Variance(data) != 0 && r.value == Covariance(data) as real / Variance(data) as real
  {
    hide Dot, Sum, Times, AllEqual, Covariance, Variance;
    var n := |data|;
    if n < 2 {
      return None;
    }
    var sumXy, sumX, sumX2 := Sums(data);
    var num := n * sumXy - sumX * sumX;
    var den := n * sumX2 - sumX * sumX;
    Meaning(data, n, sumXy, sumX, sumX2);
    CorrelationBounds(data);
    if den == 0 {
      return None;
    }
    Ratio(num, den);
    r := Some(num as real / den as real);
  }

  lemma Meaning(x: seq<int>, n: int, sumXy: int, sumX: int, sumX2: int)
    requires x != [] && n == |x| && sumXy == Dot(x, Rotated(x)) && sumX == Sum(x) && sumX2 == Dot(x, x)
    ensures n * sumXy - sumX * sumX == Covariance(x) && n * sumX2 - sumX * sumX == Variance(x)
  {
  }

  lemma Ratio(num: int, den: int)
    requires den > 0 && -den <= num <= den
    ensures -1.0 <= num as real / den as real <= 1.0
  {
    var r := num as real / den as real;
    assert r * den as real == num as real;
  }

  /** The accumulator loop. */
  method Sums(data: seq<Byte>) returns (sumXy: int, sumX: int, sumX2: int)
    requires data != []
    ensures sumXy == Dot(data, Rotated(data)) && sumX == Sum(data) && sumX2 == Dot(data, data)
  {
    sumXy, sumX, sumX2 := 0, 0, 0;
    var n := |data|;
    ghost var x: seq<int>, y: seq<int> := data, Rotated(data);
    for i := 0 to n
      invariant sumXy == Dot(x[..i], y[..i]) && sumX == Sum(x[..i]) && sumX2 == Dot(x[..i], x[..i])
    {
      var xi := data[i];
      var xi1 := data[(i + 1) % n];
      Successor(i, n);
      assert y[i] == xi1 && x[i] == xi;
      assert x[..i + 1][..i] == x[..i] && y[..i + 1][..i] == y[..i];
      sumXy := sumXy + Times(xi, xi1);
      sumX := sumX + xi;
      sumX2 := sumX2 + Times(xi, xi);
    }
    assert x[..n] == x && y[..n] == y;
  }

  lemma Successor(i: nat, n: nat)
    requires i < n
    ensures (i + 1) % n == if i + 1 == n then 0 else i + 1
  {
  }
}
