/** The critical value of the binomial distribution in app/entropy_stats.c (section 4.4.2 of NIST SP 800-90B), over
    the real numbers. */
module CritBinom {

  function Power(x: real, k: nat): real {
    if k == 0 then 1.0 else x * Power(x, k - 1)
  }

  function Factorial(n: nat): (f: nat)
    ensures f > 0
  {
    if n == 0 then 1 else n * Factorial(n - 1)
  }

  // ---------------------------------------------------------------- the distribution

  /** a with probability p, b otherwise. */
  function Mix(p: real, a: real, b: real): real {
    p * a + (1.0 - p) * b
  }

  /** The probability that k of n independent trials succeed, each with probability p: the last one does or not. */
  function Exactly(n: nat, k: int, p: real): real {
    if n == 0 then (if k == 0 then 1.0 else 0.0) else Mix(p, Exactly(n - 1, k - 1, p), Exactly(n - 1, k, p))
  }

  /** The probability that no more than k of them do. */
  function AtMost(n: nat, k: int, p: real): real
    decreases k
  {
    if k < 0 then 0.0 else AtMost(n, k - 1, p) + Exactly(n, k, p)
  }

  /** The critical value: the least k that is not exceeded with probability 1 - alpha or more. */
  ghost predicate IsCritical(n: nat, p: real, alpha: real, k: nat) {
    AtMost(n, k, p) >= 1.0 - alpha && forall j | 0 <= j < k :: AtMost(n, j, p) < 1.0 - alpha
  }

  lemma MixFacts(p: real, a: real, b: real)
    ensures Mix(p, a, a) == a && Mix(0.0, a, b) == b && Mix(1.0, a, b) == a
    ensures 0.0 <= p <= 1.0 && a >= 0.0 && b >= 0.0 ==> Mix(p, a, b) >= 0.0
  {
    assert Mix(p, a, a) == p * a + a - p * a;
    if 0.0 <= p <= 1.0 && a >= 0.0 && b >= 0.0 {
      ProductNotNegative(p, a);
      ProductNotNegative(1.0 - p, b);
    }
  }

  lemma ProductNotNegative(x: real, y: real)
    requires x >= 0.0 && y >= 0.0
    ensures x * y >= 0.0
  {
  }

  lemma MixAdds(p: real, a: real, b: real, c: real, d: real)
    ensures Mix(p, a, b) + Mix(p, c, d) == Mix(p, a + c, b + d)
  {
  }

  lemma {:induction false} Impossible(n: nat, k: int, p: real)
    requires k < 0 || k > n
    ensures Exactly(n, k, p) == 0.0
  {
    hide Mix;
    if n > 0 {
      Impossible(n - 1, k - 1, p);
      Impossible(n - 1, k, p);
      MixFacts(p, 0.0, 0.0);
    }
  }

  lemma {:induction false} NotNegative(n: nat, k: int, p: real)
    requires 0.0 <= p <= 1.0
    ensures Exactly(n, k, p) >= 0.0
  {
    hide Mix;
    if n > 0 {
      NotNegative(n - 1, k - 1, p);
      NotNegative(n - 1, k, p);
      MixFacts(p, Exactly(n - 1, k - 1, p), Exactly(n - 1, k, p));
    }
  }

  /** Conditioning on the last trial. */
  lemma {:induction false} AtMostStep(n: nat, k: int, p: real)
    requires n > 0
    ensures AtMost(n, k, p) == Mix(p, AtMost(n - 1, k - 1, p), AtMost(n - 1, k, p))
    decreases k
  {
    hide Mix;
    if k >= 0 {
      AtMostStep(n, k - 1, p);
      AtMostUnfold(n - 1, k - 1, p);
      AtMostUnfold(n - 1, k, p);
      MixAdds(p, AtMost(n - 1, k - 2, p), AtMost(n - 1, k - 1, p), Exactly(n - 1, k - 1, p), Exactly(n - 1, k, p));
    } else {
      MixFacts(p, 0.0, 0.0);
    }
  }

  lemma AtMostUnfold(n: nat, k: int, p: real)
    ensures AtMost(n, k, p) == AtMost(n, k - 1, p) + Exactly(n, k, p)
  {
    if k < 0 {
      Impossible(n, k, p);
    }
  }

  /** The binomial theorem for p and 1 - p: the probabilities of all outcomes add up to one. */
  lemma {:induction false} Total(n: nat, k: nat, p: real)
    requires k >= n
    ensures AtMost(n, k, p) == 1.0
  {
    hide Mix;
    if n == 0 {
      TotalNone(k, p);
    } else {
      AtMostStep(n, k, p);
      Total(n - 1, k - 1, p);
      Total(n - 1, k, p);
      MixFacts(p, 1.0, 1.0);
    }
  }

  lemma {:induction false} TotalNone(k: nat, p: real)
    ensures AtMost(0, k, p) == 1.0
  {
    if k > 0 {
      TotalNone(k - 1, p);
    } else {
      assert AtMost(0, -1, p) == 0.0;
    }
  }

  lemma {:induction false} AtMostRises(n: nat, j: int, k: int, p: real)
    requires j <= k && 0.0 <= p <= 1.0
    ensures AtMost(n, j, p) <= AtMost(n, k, p)
    decreases k - j
  {
    if j < k {
      AtMostRises(n, j, k - 1, p);
      NotNegative(n, k, p);
    }
  }

  // ---------------------------------------------------------------- the formula

  /** The terms of the sum, as factorials and powers. */
  function Term(n: nat, k: nat, p: real): real
    requires k <= n
  {
    Factorial(n) as real / (Factorial(k) as real * Factorial(n - k) as real) * Power(p, k) * Power(1.0 - p, n - k)
  }

  function Choose(n: nat, k: int): nat {
    if k < 0 || k > n then 0 else if n == 0 then 1 else Choose(n - 1, k - 1) + Choose(n - 1, k)
  }

  /** The number of ways times the orders within the two groups. */
  function Orders(ways: nat, chosen: nat, rest: nat): nat {
    ways * (chosen * rest)
  }

  lemma {:induction false} ChooseByFactorials(n: nat, k: nat)
    requires k <= n
    ensures Orders(Choose(n, k), Factorial(k), Factorial(n - k)) == Factorial(n)
  {
    hide Orders;
    if n == 0 {
      OneOrder();
    } else if k == 0 {
      assert Choose(n - 1, -1) == 0;
      ChooseByFactorials(n - 1, 0);
      MoreOrders(n, Choose(n, 0), Factorial(0), Factorial(n - 1));
    } else if k == n {
      assert Choose(n - 1, n) == 0;
      ChooseByFactorials(n - 1, n - 1);
      MoreOrders(n, Choose(n, n), Factorial(n - 1), Factorial(0));
    } else {
      ChooseByFactorials(n - 1, k - 1);
      ChooseByFactorials(n - 1, k);
      Pascal(n, k, Choose(n - 1, k - 1), Choose(n - 1, k), Factorial(k - 1), Factorial(n - k - 1), Factorial(n - 1));
    }
  }

  lemma OneOrder()
    ensures Orders(1, 1, 1) == 1
  {
  }

  lemma MoreOrders(n: nat, ways: nat, chosen: nat, rest: nat)
    ensures Orders(ways, n * chosen, rest) == n * Orders(ways, chosen, rest) == Orders(ways, chosen, n * rest)
  {
    Associate(n, chosen, rest);
    Associate(n, ways, chosen * rest);
    Associate(n, rest, chosen);
  }

  lemma Associate(n: nat, a: nat, b: nat)
    ensures (n * a) * b == n * (a * b) == a * (n * b)
  {
  }

  lemma Pascal(n: nat, k: nat, a: nat, b: nat, fk: nat, fm: nat, fn: nat)
    requires 0 < k < n && Orders(a, fk, (n - k) * fm) == fn && Orders(b, k * fk, fm) == fn
    ensures Orders(a + b, k * fk, (n - k) * fm) == n * fn
  {
    MoreOrders(k, a, fk, (n - k) * fm);
    MoreOrders(n - k, b, k * fk, fm);
    OrdersAdd(a, b, k * fk, (n - k) * fm);
    TimesAdd(k, n - k, fn);
  }

  lemma OrdersAdd(a: nat, b: nat, chosen: nat, rest: nat)
    ensures Orders(a + b, chosen, rest) == Orders(a, chosen, rest) + Orders(b, chosen, rest)
  {
  }

  lemma TimesAdd(a: nat, b: nat, c: nat)
    ensures a * c + b * c == (a + b) * c
  {
  }

  function Product(c: nat, x: real, y: real): real {
    c as real * x * y
  }

  lemma {:induction false} ExactlyByChoose(n: nat, k: nat, p: real)
    requires k <= n
    ensures Exactly(n, k, p) == Product(Choose(n, k), Power(p, k), Power(1.0 - p, n - k))
  {
    hide Mix, Product;
    var q := 1.0 - p;
    if n == 0 {
      Units(p);
    } else if k == 0 {
      Impossible(n - 1, -1, p);
      ExactlyByChoose(n - 1, 0, p);
      assert Choose(n - 1, -1) == 0 && Power(p, 0) == 1.0;
      Regroup(p, 0, Choose(n - 1, 0), 0.0, 1.0, Power(q, n), Power(q, n - 1));
    } else if k == n {
      Impossible(n - 1, n, p);
      ExactlyByChoose(n - 1, n - 1, p);
      assert Choose(n - 1, n) == 0 && Power(q, 0) == 1.0;
      Regroup(p, Choose(n - 1, n - 1), 0, Power(p, n - 1), Power(p, n), 1.0, 0.0);
    } else {
      ExactlyByChoose(n - 1, k - 1, p);
      ExactlyByChoose(n - 1, k, p);
      Regroup(p, Choose(n - 1, k - 1), Choose(n - 1, k), Power(p, k - 1), Power(p, k), Power(q, n - k), Power(q, n - k - 1));
    }
  }

  lemma Units(p: real)
    ensures Exactly(0, 0, p) == Product(Choose(0, 0), Power(p, 0), Power(1.0 - p, 0))
  {
  }

  /** a successes before a success and b successes before a failure. */
  lemma Regroup(p: real, a: nat, b: nat, before: real, x: real, y: real, after: real)
    requires a == 0 || x == p * before
    requires b == 0 || y == (1.0 - p) * after
    ensures Mix(p, Product(a, before, y), Product(b, x, after)) == Product(a + b, x, y)
    ensures Product(0, before, y) == 0.0 && Product(0, x, after) == 0.0
  {
    hide Product;
    var q := 1.0 - p;
    Scaled(p, a, before, x, y);
    Scaled(q, b, after, y, x);
    ProductSwaps(b, x, after);
    ProductSwaps(b, x, y);
    ProductSwaps(0, x, after);
    Scaled(p, 0, before, x, y);
    Scaled(q, 0, after, y, x);
    ProductAdds(a, b, x, y);
  }

  /** A factor moves into the product; nothing is left of it if there are no cases. */
  lemma Scaled(f: real, c: nat, u: real, w: real, v: real)
    requires c == 0 || w == f * u
    ensures f * Product(c, u, v) == Product(c, w, v)
    ensures c == 0 ==> Product(c, u, v) == 0.0
  {
    if c == 0 {
      assert Product(0, u, v) == 0.0;
    } else {
      Triple(f, c as real * u, v);
      Triple(f, c as real, u);
    }
  }

  lemma ProductSwaps(c: nat, x: real, y: real)
    ensures Product(c, x, y) == Product(c, y, x)
  {
  }

  lemma Triple(f: real, x: real, y: real)
    ensures f * (x * y) == x * (f * y) == (f * x) * y == (x * f) * y
  {
  }

  lemma ProductAdds(a: nat, b: nat, x: real, y: real)
    ensures Product(a, x, y) + Product(b, x, y) == Product(a + b, x, y)
  {
  }

  /** The formula is the probability. */
  lemma TermIsExactly(n: nat, k: nat, p: real)
    requires k <= n
    ensures Term(n, k, p) == Exactly(n, k, p)
  {
    hide Factorial, Choose, Exactly, Power, Orders;
    ChooseByFactorials(n, k);
    ExactlyByChoose(n, k, p);
    Quotient(Choose(n, k), Factorial(k), Factorial(n - k), Factorial(n));
  }

  lemma Quotient(c: nat, a: nat, b: nat, f: nat)
    requires a > 0 && b > 0 && Orders(c, a, b) == f
    ensures f as real / (a as real * b as real) == c as real
  {
    assert (a * b) as real == a as real * b as real;
    assert (c * (a * b)) as real == c as real * (a as real * b as real);
  }

  // ---------------------------------------------------------------- the program

  /** crit_binom: the upper tail is summed from n downwards until it exceeds alpha. */
  method CritBinom(n: nat, p: real, alpha: real) returns (k: nat)
    requires 0.0 < alpha < 1.0
    ensures k <= n
    ensures 0.0 <= p <= 1.0 ==>
              IsCritical(n, p, alpha, k)
              && AtMost(n, k, p) >= 1.0 - alpha && forall j | 0 <= j < k :: AtMost(n, j, p) < 1.0 - alpha
    ensures p < 0.0 ==> k == 0
    ensures p > 1.0 ==> k == n
  {
    hide Term, Exactly, AtMost;
    if p <= 0.0 {
      Certain(n, p);
      return 0;
    }
    if p >= 1.0 {
      SureSuccess(n, p, alpha);
      return n;
    }
    var tail := 0.0;
    k := n;
    Total(n, n, p);
    while true
      invariant 0 <= k <= n && tail == 1.0 - AtMost(n, k, p) && tail <= alpha
      decreases k
    {
      TermIsExactly(n, k, p);
      AtMostUnfold(n, k, p);
      tail := tail + Term(n, k, p);
      if tail > alpha || k == 0 {
        break;
      }
      k := k - 1;
    }
    forall j | 0 <= j < k ensures AtMost(n, j, p) < 1.0 - alpha {
      AtMostRises(n, j, k - 1, p);
    }
  }

  /** Without successes the critical value is zero. */
  lemma {:induction false} Certain(n: nat, p: real)
    ensures p == 0.0 ==> AtMost(n, 0, p) == 1.0
  {
    hide Mix;
    if n == 0 {
      TotalNone(0, p);
    } else if p == 0.0 {
      Certain(n - 1, p);
      AtMostStep(n, 0, p);
      MixFacts(p, AtMost(n - 1, -1, p), AtMost(n - 1, 0, p));
    }
  }

  /** Without failures it is the number of trials. */
  lemma SureSuccess(n: nat, p: real, alpha: real)
    ensures p == 1.0 && 0.0 < alpha < 1.0 ==> IsCritical(n, p, alpha, n)
  {
    Total(n, n, p);
    forall j | 0 <= j < n && p == 1.0 ensures AtMost(n, j, p) == 0.0 {
      NeverFewer(n, j);
    }
  }

  lemma {:induction false} NeverFewer(n: nat, j: int)
    requires j < n
    ensures AtMost(n, j, 1.0) == 0.0
    decreases n
  {
    hide Mix;
    if j >= 0 {
      NeverFewer(n - 1, j - 1);
      AtMostStep(n, j, 1.0);
      MixFacts(1.0, AtMost(n - 1, j - 1, 1.0), AtMost(n - 1, j, 1.0));
    }
  }
}
