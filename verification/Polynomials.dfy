/** Polynomials as coefficient sequences: evaluation, the negacyclic product and automorphism, and the
    orthogonality of the powers of a root of unity. Nothing here needs a prime modulus. */
module Polynomials {
  import opened Congruence

  function At(a: seq<int>, i: int): int
  {
    if 0 <= i < |a| then a[i] else 0
  }

  function Term(a: seq<int>, x: int): nat -> int
  {
    (i: nat) => At(a, i) * Pow(x, i)
  }

  function Eval(a: seq<int>, x: int): int
  {
    Sum(Term(a, x), |a|)
  }

  ghost predicate SeqCong(a: seq<int>, b: seq<int>, q: int)
    requires q > 0
  {
    |a| == |b| && forall i :: 0 <= i < |a| ==> Cong(a[i], b[i], q)
  }

  /** Evaluation respects congruence in the coefficients and in the point. */
  lemma EvalCong(a: seq<int>, b: seq<int>, x: int, y: int, q: int)
    requires q > 0 && SeqCong(a, b, q) && Cong(x, y, q)
    ensures Cong(Eval(a, x), Eval(b, y), q)
  {
    forall i: nat | i < |a|
      ensures Cong(Term(a, x)(i), Term(b, y)(i), q)
    {
      PowCong(x, y, i, q);
      CongMul(a[i], b[i], Pow(x, i), Pow(y, i), q);
    }
    SumCong(Term(a, x), Term(b, y), |a|, q);
  }

  function Twist(a: seq<int>, psi: int): seq<int>
  {
    seq(|a|, (i: nat) => At(a, i) * Pow(psi, i))
  }

  /** Scaling coefficient i by psi^i moves the evaluation point by the factor psi. */
  lemma EvalTwist(a: seq<int>, psi: int, x: int)
    ensures Eval(Twist(a, psi), x) == Eval(a, psi * x)
  {
    var t := Twist(a, psi);
    forall i: nat | i < |a|
      ensures Term(t, x)(i) == Term(a, psi * x)(i)
    {
      PowBase(psi, x, i);
      assert At(t, i) == At(a, i) * Pow(psi, i);
      assert (At(a, i) * Pow(psi, i)) * Pow(x, i) == At(a, i) * (Pow(psi, i) * Pow(x, i));
    }
    SumExt(Term(t, x), Term(a, psi * x), |a|);
  }

  // ----- splitting a transform of rows * cols points into row and column transforms

  /** The coefficients r, r + rows, r + 2 * rows, ... */
  function Lane(a: seq<int>, r: nat, rows: nat, cols: nat): seq<int>
  {
    seq(cols, (c: nat) => At(a, r + rows * c))
  }

  function LaneTerm(a: seq<int>, x: int, rows: nat, cols: nat): nat -> int
  {
    (r: nat) => Pow(x, r) * Eval(Lane(a, r, rows, cols), Pow(x, rows))
  }

  /** A polynomial is the sum over r of x^r times its lane r evaluated at x^rows. */
  lemma EvalLanes(a: seq<int>, x: int, rows: nat, cols: nat)
    requires |a| == rows * cols
    ensures Eval(a, x) == Sum(LaneTerm(a, x, rows, cols), rows)
  {
    SumRows(Term(a, x), rows, cols);
    forall r: nat | r < rows
      ensures RowSum(Term(a, x), rows, cols)(r) == LaneTerm(a, x, rows, cols)(r)
    {
      EvalLane(a, x, r, rows, cols);
    }
    SumExt(RowSum(Term(a, x), rows, cols), LaneTerm(a, x, rows, cols), rows);
  }

  lemma EvalLane(a: seq<int>, x: int, r: nat, rows: nat, cols: nat)
    ensures Sum(Stride(Term(a, x), r, rows), cols) == Pow(x, r) * Eval(Lane(a, r, rows, cols), Pow(x, rows))
  {
    var lane := Lane(a, r, rows, cols);
    var f := Term(lane, Pow(x, rows));
    forall c: nat | c < cols
      ensures Stride(Term(a, x), r, rows)(c) == Pow(x, r) * f(c)
    {
      PowAdd(x, r, rows * c);
      PowMul(x, rows, c);
      assert At(lane, c) == At(a, r + rows * c);
      Rearrange(At(lane, c), Pow(x, r), Pow(x, rows * c));
    }
    SumExt(Stride(Term(a, x), r, rows), Times(Pow(x, r), f), cols);
    SumScale(Pow(x, r), f, cols);
  }

  lemma Rearrange(a: int, b: int, c: int)
    ensures a * (b * c) == b * (a * c)
  {
  }

  // ----- orthogonality

  lemma PowMinusOne(x: int, d: nat, q: int)
    requires q > 0 && Cong(x, -1, q)
    ensures Cong(Pow(x, d), if d % 2 == 0 then 1 else -1, q)
  {
    PowCong(x, -1, d, q);
    SignPower(d);
  }

  lemma {:induction false} SignPower(d: nat)
    ensures Pow(-1, d) == if d % 2 == 0 then 1 else -1
  {
    if d == 0 {
    } else {
      SignPower(d - 1);
    }
  }

  function Powers(z: int): nat -> int
  {
    (k: nat) => Pow(z, k)
  }

  function Pow2(n: nat): nat
    ensures Pow2(n) > 0
  {
    if n == 0 then 1 else 2 * Pow2(n - 1)
  }

  lemma ShiftedPowers(z: int, m: nat, n: nat)
    ensures Sum(Shift(Powers(z), m), n) == Pow(z, m) * Sum(Powers(z), n)
  {
    forall k: nat | k < n
      ensures Shift(Powers(z), m)(k) == Times(Pow(z, m), Powers(z))(k)
    {
      PowAdd(z, m, k);
    }
    SumExt(Shift(Powers(z), m), Times(Pow(z, m), Powers(z)), n);
    SumScale(Pow(z, m), Powers(z), n);
  }

  /** 1 + z + ... + z^(2m - 1) == (1 + z^m) * (1 + z + ... + z^(m - 1)) */
  lemma GeometricHalf(z: int, m: nat)
    ensures Sum(Powers(z), m + m) == (1 + Pow(z, m)) * Sum(Powers(z), m)
  {
    SumSplit(Powers(z), m, m);
    ShiftedPowers(z, m, m);
    OnePlus(Pow(z, m), Sum(Powers(z), m));
  }

  lemma OnePlus(a: int, b: int)
    ensures (1 + a) * b == b + a * b
  {
  }

  /** When w^(2^(n-1)) is -1, the powers of w^d cancel in pairs unless 2^n divides d. */
  lemma {:induction false} GeometricCancels(w: int, d: nat, n: nat, q: int)
    requires q > 0 && n >= 1 && Cong(Pow(w, Pow2(n - 1)), -1, q) && d % Pow2(n) != 0
    ensures Cong(Sum(Powers(Pow(w, d)), Pow2(n)), 0, q)
    decreases n
  {
    var m := Pow2(n - 1);
    var z := Pow(w, d);
    var half := Sum(Powers(z), m);
    GeometricHalf(z, m);
    if d % 2 == 1 {
      OddPower(w, d, m, q);
      CongAdd(1, 1, Pow(z, m), -1, q);
      CongMul(1 + Pow(z, m), 0, half, half, q);
    } else {
      HalveExponent(d, n);
      PowMul(w, 2, Pow2(n - 2));
      PowMul(w, 2, d / 2);
      GeometricCancels(Pow(w, 2), d / 2, n - 1, q);
      CongMul(1 + Pow(z, m), 1 + Pow(z, m), half, 0, q);
    }
  }

  lemma OddPower(w: int, d: nat, m: nat, q: int)
    requires q > 0 && Cong(Pow(w, m), -1, q) && d % 2 == 1
    ensures Cong(Pow(Pow(w, d), m), -1, q)
  {
    PowMul(w, d, m);
    PowMul(w, m, d);
    assert d * m == m * d;
    PowMinusOne(Pow(w, m), d, q);
  }

  lemma HalveExponent(d: nat, n: nat)
    requires n >= 1 && d % 2 == 0 && d % Pow2(n) != 0
    ensures n >= 2 && d == 2 * (d / 2) && (d / 2) % Pow2(n - 1) != 0
  {
    var m := Pow2(n - 1);
    var e := d / 2;
    assert Pow2(0) == 1;
    if e % m == 0 {
      var k := e / m;
      assert e == m * k;
      assert d == (2 * m) * k + 0;
      CongFrom(d, 0, k, 2 * m);
    }
  }

  function CrossPowers(w: int, v: int, i: nat, j: nat): nat -> int
  {
    (k: nat) => Pow(Pow(w, k), i) * Pow(Pow(v, k), j)
  }

  /** Row i of the transform against column j of its inverse. */
  lemma Orthogonality(w: int, v: int, i: nat, j: nat, n: nat, q: int)
    requires q > 0 && n >= 1 && Cong(Pow(w, Pow2(n - 1)), -1, q) && Cong(w * v, 1, q)
    requires i < Pow2(n) && j < Pow2(n)
    ensures Cong(Sum(CrossPowers(w, v, i, j), Pow2(n)), if i == j then Pow2(n) else 0, q)
  {
    var size := Pow2(n);
    var f := CrossPowers(w, v, i, j);
    var d: nat := if i >= j then i - j else size + i - j;
    forall k: nat | k < size
      ensures Cong(f(k), Powers(Pow(w, d))(k), q)
    {
      CrossTerm(w, v, i, j, d, k, n, q);
    }
    SumCong(f, Powers(Pow(w, d)), size, q);
    if i == j {
      forall k: nat | k < size
        ensures Powers(Pow(w, d))(k) == 1
      {
        PowOne(k);
      }
      SumExt(Powers(Pow(w, d)), (k: nat) => 1, size);
      SumConst(1, size);
    } else {
      SmallMod(d, size);
      GeometricCancels(w, d, n, q);
    }
  }

  lemma {:induction false} SumConst(c: int, n: nat)
    ensures Sum((k: nat) => c, n) == c * n
  {
    if n == 0 {
    } else {
      SumConst(c, n - 1);
      assert c * n == c * (n - 1) + c;
    }
  }

  /** (w^k)^i * (v^k)^j is (w^d)^k for d congruent to i - j. */
  lemma CrossTerm(w: int, v: int, i: nat, j: nat, d: nat, k: nat, n: nat, q: int)
    requires q > 0 && n >= 1 && Cong(Pow(w, Pow2(n - 1)), -1, q) && Cong(w * v, 1, q)
    requires d + j == i || d + j == Pow2(n) + i
    ensures Cong(Pow(Pow(w, k), i) * Pow(Pow(v, k), j), Pow(Pow(w, d), k), q)
  {
    SwapPowers(w, k, i);
    SwapPowers(v, k, j);
    PowBase(Pow(w, i), Pow(v, j), k);
    ShiftExponent(w, v, i, j, d, n, q);
    PowCong(Pow(w, i) * Pow(v, j), Pow(w, d), k, q);
  }

  lemma SwapPowers(w: int, k: nat, i: nat)
    ensures Pow(Pow(w, k), i) == Pow(Pow(w, i), k)
  {
    PowMul(w, k, i);
    PowMul(w, i, k);
    assert k * i == i * k;
  }

  lemma ShiftExponent(w: int, v: int, i: nat, j: nat, d: nat, n: nat, q: int)
    requires q > 0 && n >= 1 && Cong(Pow(w, Pow2(n - 1)), -1, q) && Cong(w * v, 1, q)
    requires d + j == i || d + j == Pow2(n) + i
    ensures Cong(Pow(w, i) * Pow(v, j), Pow(w, d), q)
  {
    if d + j == Pow2(n) + i {
      FullPeriod(w, n, q);
      PowAdd(w, Pow2(n), i);
      CongMul(Pow(w, Pow2(n)), 1, Pow(w, i), Pow(w, i), q);
    }
    CongMul(Pow(w, d + j), Pow(w, i), Pow(v, j), Pow(v, j), q);
    PowAdd(w, d, j);
    InversePower(w, v, j, q);
    CongMul(Pow(w, d), Pow(w, d), Pow(w, j) * Pow(v, j), 1, q);
    Associate(Pow(w, d), Pow(w, j), Pow(v, j));
  }

  lemma InversePower(w: int, v: int, j: nat, q: int)
    requires q > 0 && Cong(w * v, 1, q)
    ensures Cong(Pow(w, j) * Pow(v, j), 1, q)
  {
    PowBase(w, v, j);
    PowCong(w * v, 1, j, q);
    PowOne(j);
  }

  lemma FullPeriod(w: int, n: nat, q: int)
    requires q > 0 && n >= 1 && Cong(Pow(w, Pow2(n - 1)), -1, q)
    ensures Cong(Pow(w, Pow2(n)), 1, q)
  {
    var m := Pow2(n - 1);
    PowAdd(w, m, m);
    CongMul(Pow(w, m), -1, Pow(w, m), -1, q);
  }
}
