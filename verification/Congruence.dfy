/** Congruence of integers modulo q, powers and finite sums: the vocabulary in which the
    transforms and the residue-number-system code are specified. */
module Congruence {

  /** a and b leave the same remainder modulo q. */
  ghost predicate Cong(a: int, b: int, q: int)
    requires q > 0
  {
    a % q == b % q
  }

  lemma CongFrom(a: int, b: int, k: int, q: int)
    requires q > 0 && a == b + k * q
    ensures Cong(a, b, q)
  {
    var d := a / q - b / q - k;
    assert q * d == q * (a / q) - q * (b / q) - q * k;
    assert q * d == b % q - a % q;
    assert -q < q * d < q;
    assert d >= 1 ==> q * d >= q;
    assert d <= -1 ==> q * d <= -q;
  }

  lemma CongQuotient(a: int, b: int, q: int) returns (k: int)
    requires q > 0 && Cong(a, b, q)
    ensures a == b + k * q
  {
    k := a / q - b / q;
    assert k * q == q * (a / q) - q * (b / q);
  }

  lemma CongAdd(a: int, b: int, c: int, d: int, q: int)
    requires q > 0 && Cong(a, b, q) && Cong(c, d, q)
    ensures Cong(a + c, b + d, q)
  {
    var k := CongQuotient(a, b, q);
    var l := CongQuotient(c, d, q);
    assert (k + l) * q == k * q + l * q;
    CongFrom(a + c, b + d, k + l, q);
  }

  lemma CongSub(a: int, b: int, c: int, d: int, q: int)
    requires q > 0 && Cong(a, b, q) && Cong(c, d, q)
    ensures Cong(a - c, b - d, q)
  {
    var k := CongQuotient(a, b, q);
    var l := CongQuotient(c, d, q);
    assert (k - l) * q == k * q - l * q;
    CongFrom(a - c, b - d, k - l, q);
  }

  lemma ExpandProduct(b: int, k: int, d: int, l: int, q: int)
    ensures (b + k * q) * (d + l * q) == b * d + (b * l + k * d + k * l * q) * q
  {
    assert (b + k * q) * (d + l * q) == b * d + b * (l * q) + (k * q) * d + (k * q) * (l * q);
  }

  lemma CongMul(a: int, b: int, c: int, d: int, q: int)
    requires q > 0 && Cong(a, b, q) && Cong(c, d, q)
    ensures Cong(a * c, b * d, q)
  {
    var k := CongQuotient(a, b, q);
    var l := CongQuotient(c, d, q);
    ExpandProduct(b, k, d, l, q);
    CongFrom(a * c, b * d, b * l + k * d + k * l * q, q);
  }

  lemma CongMod(a: int, q: int)
    requires q > 0
    ensures Cong(a % q, a, q)
  {
    CongFrom(a, a % q, a / q, q);
  }

  /** A value below q is its own representative. */
  lemma CongCanonical(a: int, b: int, q: int)
    requires q > 0 && Cong(a, b, q) && 0 <= a < q
    ensures a == b % q
  {
    SmallMod(a, q);
  }

  lemma SmallMod(a: int, q: int)
    requires 0 <= a < q
    ensures a % q == a
  {
  }

  // ----- powers

  function Pow(b: int, e: nat): int
  {
    if e == 0 then 1 else b * Pow(b, e - 1)
  }

  lemma {:induction false} PowAdd(b: int, e: nat, f: nat)
    ensures Pow(b, e + f) == Pow(b, e) * Pow(b, f)
  {
    if e == 0 {
    } else {
      PowAdd(b, e - 1, f);
      assert Pow(b, e + f) == b * Pow(b, e - 1 + f);
      Associate(b, Pow(b, e - 1), Pow(b, f));
    }
  }

  lemma Associate(a: int, b: int, c: int)
    ensures (a * b) * c == a * (b * c)
  {
  }

  lemma {:induction false} PowMul(b: int, e: nat, f: nat)
    ensures Pow(Pow(b, e), f) == Pow(b, e * f)
  {
    if f == 0 {
      assert e * f == 0;
    } else {
      PowMul(b, e, f - 1);
      assert e * f == e + e * (f - 1);
      PowAdd(b, e, e * (f - 1));
    }
  }

  lemma {:induction false} PowBase(a: int, b: int, e: nat)
    ensures Pow(a * b, e) == Pow(a, e) * Pow(b, e)
  {
    if e == 0 {
    } else {
      PowBase(a, b, e - 1);
      PairFactors(a, b, Pow(a, e - 1), Pow(b, e - 1));
    }
  }

  lemma PairFactors(a: int, b: int, c: int, d: int)
    ensures (a * b) * (c * d) == (a * c) * (b * d)
  {
    var x := c * d;
    assert (a * b) * x == a * (b * x);
    assert b * x == c * (b * d);
    assert a * (c * (b * d)) == (a * c) * (b * d);
  }

  lemma {:induction false} PowCong(a: int, b: int, e: nat, q: int)
    requires q > 0 && Cong(a, b, q)
    ensures Cong(Pow(a, e), Pow(b, e), q)
  {
    if e == 0 {
    } else {
      PowCong(a, b, e - 1, q);
      CongMul(a, b, Pow(a, e - 1), Pow(b, e - 1), q);
    }
  }

  lemma {:induction false} PowOne(e: nat)
    ensures Pow(1, e) == 1
  {
    if e == 0 {
    } else {
      PowOne(e - 1);
    }
  }

  lemma {:induction false} PowPositive(b: int, e: nat)
    requires b > 0
    ensures Pow(b, e) > 0
  {
    if e == 0 {
    } else {
      PowPositive(b, e - 1);
    }
  }

  // ----- sums

  function Sum(f: nat -> int, n: nat): int
  {
    if n == 0 then 0 else Sum(f, n - 1) + f(n - 1)
  }

  lemma {:induction false} SumExt(f: nat -> int, g: nat -> int, n: nat)
    requires forall i: nat :: i < n ==> f(i) == g(i)
    ensures Sum(f, n) == Sum(g, n)
  {
    if n == 0 {
    } else {
      SumExt(f, g, n - 1);
    }
  }

  lemma {:induction false} SumCong(f: nat -> int, g: nat -> int, n: nat, q: int)
    requires q > 0
    requires forall i: nat :: i < n ==> Cong(f(i), g(i), q)
    ensures Cong(Sum(f, n), Sum(g, n), q)
  {
    if n == 0 {
    } else {
      SumCong(f, g, n - 1, q);
      CongAdd(Sum(f, n - 1), Sum(g, n - 1), f(n - 1), g(n - 1), q);
    }
  }

  lemma {:induction false} SumMonotone(f: nat -> int, g: nat -> int, n: nat)
    requires forall i: nat :: i < n ==> f(i) <= g(i)
    ensures Sum(f, n) <= Sum(g, n)
  {
    if n == 0 {
    } else {
      SumMonotone(f, g, n - 1);
    }
  }

  function Plus(f: nat -> int, g: nat -> int): nat -> int
  {
    (i: nat) => f(i) + g(i)
  }

  function Times(c: int, f: nat -> int): nat -> int
  {
    (i: nat) => c * f(i)
  }

  /** f from m onwards. */
  function Shift(f: nat -> int, m: nat): nat -> int
  {
    (i: nat) => f(m + i)
  }

  lemma {:induction false} SumAdd(f: nat -> int, g: nat -> int, n: nat)
    ensures Sum(Plus(f, g), n) == Sum(f, n) + Sum(g, n)
  {
    if n == 0 {
    } else {
      SumAdd(f, g, n - 1);
    }
  }

  lemma {:induction false} SumScale(c: int, f: nat -> int, n: nat)
    ensures Sum(Times(c, f), n) == c * Sum(f, n)
  {
    if n == 0 {
    } else {
      SumScale(c, f, n - 1);
      assert c * (Sum(f, n - 1) + f(n - 1)) == c * Sum(f, n - 1) + c * f(n - 1);
    }
  }

  lemma {:induction false} SumZero(f: nat -> int, n: nat)
    requires forall i: nat :: i < n ==> f(i) == 0
    ensures Sum(f, n) == 0
  {
    if n == 0 {
    } else {
      SumZero(f, n - 1);
    }
  }

  lemma {:induction false} SumSplit(f: nat -> int, m: nat, n: nat)
    ensures Sum(f, m + n) == Sum(f, m) + Sum(Shift(f, m), n)
  {
    if n == 0 {
    } else {
      SumSplit(f, m, n - 1);
    }
  }

  /** Only the term at k is not zero. */
  lemma {:induction false} SumSingle(f: nat -> int, n: nat, k: nat)
    requires k < n
    requires forall i: nat :: i < n && i != k ==> f(i) == 0
    ensures Sum(f, n) == f(k)
  {
    SumSplit(f, k, n - k);
    SumZero(f, k);
    var g := Shift(f, k);
    SumSplit(g, 1, n - k - 1);
    assert Sum(g, 1) == Sum(g, 0) + g(0) == f(k);
    SumZero(Shift(g, 1), n - k - 1);
  }

  function FixFirst(f: (nat, nat) -> int, i: nat): nat -> int
  {
    (j: nat) => f(i, j)
  }

  function FixSecond(f: (nat, nat) -> int, j: nat): nat -> int
  {
    (i: nat) => f(i, j)
  }

  function FirstTotals(f: (nat, nat) -> int, n: nat): nat -> int
  {
    (i: nat) => Sum(FixFirst(f, i), n)
  }

  function SecondTotals(f: (nat, nat) -> int, m: nat): nat -> int
  {
    (j: nat) => Sum(FixSecond(f, j), m)
  }

  /** Exchanging the order of a double sum. */
  lemma {:induction false} SumSwap(f: (nat, nat) -> int, m: nat, n: nat)
    ensures Sum(FirstTotals(f, n), m) == Sum(SecondTotals(f, m), n)
  {
    if m == 0 {
      SumZero(SecondTotals(f, m), n);
    } else {
      SumSwap(f, m - 1, n);
      SumAdd(SecondTotals(f, m - 1), FixFirst(f, m - 1), n);
      SumExt(SecondTotals(f, m), Plus(SecondTotals(f, m - 1), FixFirst(f, m - 1)), n);
    }
  }

  function Stride(f: nat -> int, r: nat, rows: nat): nat -> int
  {
    (c: nat) => f(r + rows * c)
  }

  function RowSum(f: nat -> int, rows: nat, cols: nat): nat -> int
  {
    (r: nat) => Sum(Stride(f, r, rows), cols)
  }

  /** A sum over rows * cols terms, regrouped by remainder modulo rows. */
  lemma {:induction false} SumRows(f: nat -> int, rows: nat, cols: nat)
    ensures Sum(f, rows * cols) == Sum(RowSum(f, rows, cols), rows)
  {
    if cols == 0 {
      assert rows * cols == 0;
      SumZero(RowSum(f, rows, cols), rows);
    } else {
      var done := rows * (cols - 1);
      assert rows * cols == done + rows;
      SumRows(f, rows, cols - 1);
      SumSplit(f, done, rows);
      SumAdd(RowSum(f, rows, cols - 1), Shift(f, done), rows);
      SumExt(RowSum(f, rows, cols), Plus(RowSum(f, rows, cols - 1), Shift(f, done)), rows);
    }
  }
}
