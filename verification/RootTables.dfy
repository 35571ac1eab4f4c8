/** The generator of the transform's root table: extended Euclid, the modular inverse and the checks an entry
    passes before it is emitted. */
module RootTables {
  import opened Congruence
  import opened WordArithmetic
  import opened NttKernel
  import opened NttTheorems

  datatype Option<T> = None | Some(value: T)

  /** (g, x, y) with a * x + b * y == g. */
  function ExtendedGcd(a: nat, b: nat): (r: (nat, int, int))
    ensures a * r.1 + b * r.2 == r.0
    decreases b
  {
    if b == 0 then (a, 1, 0)
    else
      DivideStep(a, b);
      var (g, x1, y1) := ExtendedGcd(b, a % b);
      BackSubstitute(a, b, x1, y1);
      (g, y1, x1 - (a / b) * y1)
  }

  lemma DivideStep(a: nat, b: nat)
    requires b > 0
    ensures 0 <= a % b < b && a == b * (a / b) + a % b
  {
  }

  lemma BackSubstitute(a: nat, b: nat, x: int, y: int)
    requires b > 0
    ensures a * y + b * (x - (a / b) * y) == b * x + (a % b) * y
  {
    var q := a / b;
    assert a == b * q + a % b;
    Associate(b, q, y);
    assert (b * q + a % b) * y == (b * q) * y + (a % b) * y;
    assert b * (x - q * y) == b * x - b * (q * y);
  }

  ghost predicate Divides(d: int, a: int)
  {
    exists k :: a == k * d
  }

  /** The first component divides both arguments, so it is 1 exactly when a has an inverse modulo b. */
  lemma {:induction false} GcdDivides(a: nat, b: nat)
    ensures Divides(ExtendedGcd(a, b).0, a) && Divides(ExtendedGcd(a, b).0, b)
    decreases b
  {
    var g := ExtendedGcd(a, b).0;
    if b == 0 {
      assert a == 1 * a && b == 0 * a;
    } else {
      GcdDivides(b, a % b);
      var k :| b == k * g;
      var l :| a % b == l * g;
      var q := a / b;
      assert a == b * q + a % b;
      assert (k * g) * q == (k * q) * g;
      assert a == (k * q + l) * g;
    }
  }

  function ModInverse(a: nat, m: nat): int
    requires m > 0
  {
    var (g, x, y) := ExtendedGcd(a % m, m);
    if g != 1 then 0 else x % m
  }

  /** The inverse of the generator is the inverse, and 0 exactly when there is none. */
  lemma ModInverseCorrect(a: nat, m: nat)
    requires m > 1
    ensures (exists x :: IsInverse(a, x, m)) <==> ModInverse(a, m) != 0
    ensures ModInverse(a, m) != 0 ==> 0 < ModInverse(a, m) < m && IsInverse(a, ModInverse(a, m), m)
  {
    var (g, x, y) := ExtendedGcd(a % m, m);
    GcdDivides(a % m, m);
    if g == 1 {
      CongMod(x, m);
      assert y * m + x * (a % m) == 1 by {
        Commute(x, a % m);
        Commute(y, m);
      }
      BezoutInverse(a, m, y, x, x % m);
    } else {
      var alpha :| a % m == alpha * g;
      var mu :| m == mu * g;
      assert g == 0 ==> m == 0;
      NoInverse(a, m, g, alpha, mu);
    }
  }

  /** The checks on one modulus, span and candidate root; None when the entry is skipped. */
  function BuildEntry(m: Word, span: nat, psi: Word): Option<NegacyclicRoots>
    requires m > 1 && span > 0
  {
    if (m - 1) % (2 * span) != 0 || Pow(psi, span) % m != m - 1 then None
    else
      SmallerThan(psi * psi, m);
      var omega := (psi * psi) % m;
      var psiInv, omegaInv := ModInverse(psi, m), ModInverse(omega, m);
      ModInverseCorrect(psi, m);
      ModInverseCorrect(omega, m);
      if psiInv == 0 || omegaInv == 0 then None
      else Some(NegacyclicRoots(psi, psiInv, omega, omegaInv))
  }

  lemma SmallerThan(a: int, m: int)
    requires m > 0
    ensures 0 <= a % m < m
  {
  }

  /** Emitted entries meet the hypothesis of the transform theorems, and no root of order 2 * span of a
      suitable modulus is skipped. */
  lemma EntryMeetsHypothesis(m: Word, span: nat, psi: Word)
    requires m > 1 && span > 0
    ensures BuildEntry(m, span, psi).Some? ==> RootsFor(BuildEntry(m, span, psi).value, span, m)
    ensures BuildEntry(m, span, psi).Some? <==> (m - 1) % (2 * span) == 0 && Pow(psi, span) % m == m - 1
  {
    if (m - 1) % (2 * span) == 0 && Pow(psi, span) % m == m - 1 {
      SmallerThan(psi * psi, m);
      var omega := (psi * psi) % m;
      ModInverseCorrect(psi, m);
      ModInverseCorrect(omega, m);
      RootHasInverse(psi, span, m);
      CongMod(psi * psi, m);
      var p := Pow(psi, span - 1);
      SquareInverse(psi, omega, -p, m);
    }
  }

  lemma RootHasInverse(psi: int, span: nat, m: int)
    requires m > 1 && span > 0 && Pow(psi, span) % m == m - 1
    ensures IsInverse(psi, -Pow(psi, span - 1), m)
  {
    var p := Pow(psi, span - 1);
    assert Pow(psi, span) == psi * p;
    assert psi * -p == -(psi * p);
    SmallMod(m - 1, m);
    CongSub(0, 0, psi * p, m - 1, m);
    CongFrom(1, 1 - m, 1, m);
    SmallMod(1, m);
  }

  lemma SquareInverse(psi: int, omega: int, x: int, m: int)
    requires m > 1 && IsInverse(psi, x, m) && Cong(omega, psi * psi, m)
    ensures IsInverse(omega, x * x, m)
  {
    SmallMod(1, m);
    CongMul(psi * x, 1, psi * x, 1, m);
    PairFactors(psi, x, psi, x);
    CongMul(omega, psi * psi, x * x, x * x, m);
  }
}
