/** Facts about multiplication, division and powers of two used by several modules. */
module Arith {
  function Max(a: nat, b: nat): nat {
    if a >= b then a else b
  }

  /** Sum of the numbers of a list. */
  function Sum(s: seq<int>): int {
    if s == [] then 0 else Sum(s[..|s| - 1]) + s[|s| - 1]
  }

  lemma {:induction false} SumConcat(a: seq<int>, b: seq<int>)
    ensures Sum(a + b) == Sum(a) + Sum(b)
    decreases |b|
  {
    if b == [] {
      assert a + b == a;
    } else {
      var ab := a + b;
      assert ab[..|ab| - 1] == a + b[..|b| - 1] && ab[|ab| - 1] == b[|b| - 1];
      SumConcat(a, b[..|b| - 1]);
    }
  }

  lemma {:induction false} SumBetween(s: seq<int>, low: int, high: int)
    requires forall i :: 0 <= i < |s| ==> low <= s[i] <= high
    ensures |s| * low <= Sum(s) <= |s| * high
  {
    if s != [] {
      SumBetween(s[..|s| - 1], low, high);
      Distrib(|s| - 1, 1, low);
      Distrib(|s| - 1, 1, high);
    }
  }

  lemma MulMono(a: int, b: int, c: nat)
    requires a <= b
    ensures a * c <= b * c
  {
  }

  /** Quotient and remainder are determined by x == q*g + r with 0 <= r < g. */
  lemma DivModUnique(x: int, g: int, q: int, r: int)
    requires 0 <= r < g && x == q * g + r
    ensures x / g == q && x % g == r
  {
    var q', r' := x / g, x % g;
    assert x == g * q' + r';
    assert (q' + 1) * g == q' * g + g;
    assert (q + 1) * g == q * g + g;
    if q' < q {
      MulMono(q' + 1, q, g);
    } else if q < q' {
      MulMono(q + 1, q', g);
    }
  }

  lemma Distrib(a: int, b: int, g: int)
    ensures (a + b) * g == a * g + b * g
    ensures (a - b) * g == a * g - b * g
  {
  }

  /** Division of naturals, with the facts the solver needs about it. */
  function Quot(a: nat, b: nat): (q: nat)
    requires b > 0
    ensures q * b <= a < (q + 1) * b
  {
    assert a == a / b * b + a % b;
    assert (a / b + 1) * b == a / b * b + b;
    QuotNonNegative(a, b);
    a / b
  }

  lemma QuotNonNegative(a: nat, b: nat)
    requires b > 0
    ensures a / b >= 0
  {
    if a / b < 0 {
      MulMono(a / b, -1, b);
    }
  }

  lemma AddMultiple(x: int, k: int, m: int)
    requires m > 0
    ensures (x + k * m) % m == x % m
    ensures (x + k * m) / m == x / m + k
  {
    assert (x / m + k) * m == x / m * m + k * m;
    DivModUnique(x + k * m, m, x / m + k, x % m);
  }

  function Pow2(k: nat): (p: nat)
    ensures p >= 1
  {
    if k == 0 then 1 else 2 * Pow2(k - 1)
  }

  lemma {:induction false} Pow2Sum(a: nat, b: nat)
    ensures Pow2(a + b) == Pow2(a) * Pow2(b)
  {
    if a > 0 {
      Pow2Sum(a - 1, b);
      assert Pow2(a + b) == 2 * Pow2(a - 1 + b);
      assert (2 * Pow2(a - 1)) * Pow2(b) == 2 * (Pow2(a - 1) * Pow2(b));
    }
  }
}
