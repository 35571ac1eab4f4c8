/** Residue number systems: the base with its punctured products, resolving residues to the words of the integer
    they stand for, and reducing those words modulo another prime. */
module Rns {
  import opened Congruence
  import opened WordArithmetic

  const LIMB := 0x1_0000_0000

  /** An element of a limb: 32 bits. */
  type Element = x: int | 0 <= x < LIMB

  // ----- the base

  function BaseProduct(primes: seq<nat>): nat
  {
    if |primes| == 0 then 1 else BaseProduct(primes[..|primes| - 1]) * primes[|primes| - 1]
  }

  /** Moduli with the inverses of their punctured products. */
  datatype RnsBase = RnsBase(primes: seq<nat>, inverses: seq<nat>) {
    function Size(): nat {
      |primes|
    }

    function Total(): nat {
      BaseProduct(primes)
    }

    /** Product of all moduli but one. */
    function Punctured(k: nat): nat
      requires k < |primes|
    {
      BaseProduct(primes[..k]) * BaseProduct(primes[k + 1..])
    }

    /** What the construction of a base establishes, and what it fails without. */
    ghost predicate Valid() {
      && |inverses| == |primes| >= 1
      && (forall k: nat :: k < |primes| ==> primes[k] > 1)
      && (forall k: nat :: k < |primes| ==> inverses[k] < primes[k] && IsInverse(Punctured(k), inverses[k], primes[k]))
    }
  }

  lemma {:induction false} BaseProductAppend(s: seq<nat>, t: seq<nat>)
    ensures BaseProduct(s + t) == BaseProduct(s) * BaseProduct(t)
  {
    if |t| == 0 {
      assert s + t == s;
    } else {
      var n := |t| - 1;
      assert (s + t)[..|s| + n] == s + t[..n];
      BaseProductAppend(s, t[..n]);
      Associate(BaseProduct(s), BaseProduct(t[..n]), t[n]);
    }
  }

  lemma {:induction false} BaseProductPositive(s: seq<nat>)
    requires forall k: nat :: k < |s| ==> s[k] > 1
    ensures BaseProduct(s) >= 1
    ensures |s| >= 1 ==> BaseProduct(s) > 1
  {
    if |s| > 0 {
      BaseProductPositive(s[..|s| - 1]);
      MulAtLeast(s[|s| - 1], BaseProduct(s[..|s| - 1]));
    }
  }

  /** The punctured product completes its modulus to the whole product. */
  lemma PuncturedCompletes(b: RnsBase, k: nat)
    requires k < b.Size()
    ensures b.Total() == b.Punctured(k) * b.primes[k]
  {
    var q, left, right := b.primes[k], b.primes[..k], b.primes[k + 1..];
    assert b.primes == (left + [q]) + right;
    BaseProductAppend(left + [q], right);
    assert (left + [q])[..k] == left;
    Reorder(BaseProduct(left), q, BaseProduct(right));
  }

  lemma Reorder(a: int, b: int, c: int)
    ensures (a * b) * c == (a * c) * b
  {
  }

  /** Every other modulus divides a punctured product. */
  lemma PuncturedDivides(b: RnsBase, j: nat, k: nat)
    requires b.Valid() && j < b.Size() && k < b.Size() && j != k
    ensures Cong(b.Punctured(j), 0, b.primes[k])
  {
    var left, right := b.primes[..j], b.primes[j + 1..];
    var m: int;
    if k < j {
      m := FactorOut(left, k);
      Reorder(m, b.primes[k], BaseProduct(right));
      m := m * BaseProduct(right);
    } else {
      m := FactorOut(right, k - j - 1);
      Associate(BaseProduct(left), m, b.primes[k]);
      m := BaseProduct(left) * m;
    }
    CongFrom(b.Punctured(j), 0, m, b.primes[k]);
  }

  lemma FactorOut(s: seq<nat>, k: nat) returns (m: int)
    requires k < |s|
    ensures BaseProduct(s) == m * s[k]
  {
    var base := RnsBase(s, s);
    PuncturedCompletes(base, k);
    m := base.Punctured(k);
  }

  // ----- the Chinese remainder theorem for a base

  /** An integer with the given residues. */
  ghost predicate Represents(x: int, residues: seq<int>, b: RnsBase)
    requires b.Valid()
  {
    |residues| == b.Size() && forall k: nat :: k < b.Size() ==> Cong(x, residues[k], b.primes[k])
  }

  /** Two integers with the same residues agree modulo the product of the base. */
  lemma ResiduesDetermine(x: int, y: int, residues: seq<int>, b: RnsBase)
    requires b.Valid() && Represents(x, residues, b) && Represents(y, residues, b)
    ensures b.Total() > 0 && Cong(x, y, b.Total())
  {
    BaseProductPositive(b.primes);
    forall k: nat | k < b.Size()
      ensures Cong(x - y, 0, b.primes[k])
    {
      CongSub(x, residues[k], y, residues[k], b.primes[k]);
    }
    var t := DividedByPrefix(x - y, b, b.Size());
    assert b.primes[..b.Size()] == b.primes;
    CongFrom(x, y, t, b.Total());
  }

  lemma {:induction false} DividedByPrefix(d: int, b: RnsBase, m: nat) returns (t: int)
    requires b.Valid() && m <= b.Size()
    requires forall k: nat :: k < b.Size() ==> Cong(d, 0, b.primes[k])
    ensures d == t * BaseProduct(b.primes[..m])
  {
    if m == 0 {
      t := d;
    } else {
      hide BaseProduct, Cong, IsInverse;
      var s := DividedByPrefix(d, b, m - 1);
      assert b.primes[..m][..m - 1] == b.primes[..m - 1];
      LastFactor(b.primes[..m]);
      t := PrefixStep(d, s, BaseProduct(b.primes[..m - 1]), BaseProduct(b.primes[m..]), b.inverses[m - 1], b.primes[m - 1]);
    }
  }

  lemma LastFactor(s: seq<nat>)
    requires |s| > 0
    ensures BaseProduct(s) == BaseProduct(s[..|s| - 1]) * s[|s| - 1]
  {
  }

  lemma PrefixStep(d: int, s: int, left: nat, right: nat, inv: int, q: nat) returns (t: int)
    requires q > 1 && d == s * left && Cong(d, 0, q) && IsInverse(left * right, inv, q)
    ensures d == t * (left * q)
  {
    Associate(left, right, inv);
    t := CancelCoprime(d, s, left, right * inv, q);
    Reorder(t, q, left);
    Associate(t, left, q);
  }

  /** A modulus that divides s * a, where a is invertible, divides s. */
  lemma CancelCoprime(d: int, s: int, a: int, inverse: int, q: nat) returns (t: int)
    requires q > 1 && d == s * a && Cong(d, 0, q) && IsInverse(a, inverse, q)
    ensures d == (t * q) * a && s == t * q
  {
    SmallMod(1, q);
    CongMul(s, s, a * inverse, 1, q);
    CongMul(d, 0, inverse, inverse, q);
    Associate(s, a, inverse);
    t := CongQuotient(s, 0, q);
  }

  // ----- resolving

  /** What one base contributes: its residue times the inverse, reduced, times the punctured product. */
  function Contribution(b: RnsBase, k: nat, x: int): (c: int)
    requires b.Valid() && k < b.Size()
  {
    b.Punctured(k) * ((x * b.inverses[k]) % b.primes[k])
  }

  lemma ContributionRight(b: RnsBase, j: nat, x: int, k: nat)
    requires b.Valid() && j < b.Size() && k < b.Size()
    ensures Cong(Contribution(b, j, x), if j == k then x else 0, b.primes[k])
  {
    hide RnsBase.Punctured, Cong, IsInverse;
    var q, p, inv := b.primes[k], b.Punctured(j), b.inverses[j];
    if j == k {
      OwnContribution(p, inv, x, q);
    } else {
      PuncturedDivides(b, j, k);
      OtherContribution(p, (x * inv) % b.primes[j], q);
    }
  }

  lemma OwnContribution(p: int, inv: int, x: int, q: int)
    requires q > 1 && IsInverse(p, inv, q)
    ensures Cong(p * ((x * inv) % q), x, q)
  {
    CongMod(x * inv, q);
    CongMul(p, p, (x * inv) % q, x * inv, q);
    SmallMod(1, q);
    CongMul(x, x, p * inv, 1, q);
    Rotate(p, x, inv);
  }

  lemma OtherContribution(p: int, w: int, q: int)
    requires q > 0 && Cong(p, 0, q)
    ensures Cong(p * w, 0, q)
  {
    CongMul(p, 0, w, w, q);
  }

  lemma Rotate(a: int, b: int, c: int)
    ensures a * (b * c) == b * (a * c)
  {
  }

  lemma ContributionBelow(b: RnsBase, k: nat, x: int)
    requires b.Valid() && k < b.Size()
    ensures 0 <= Contribution(b, k, x) < b.Total()
  {
    PuncturedCompletes(b, k);
    BaseProductPositive(b.primes);
    PartBelow(b.Punctured(k), b.primes[k], (x * b.inverses[k]) % b.primes[k], b.Total());
  }

  lemma PartBelow(p: nat, q: nat, w: nat, total: nat)
    requires w < q && total == p * q && total >= 1
    ensures 0 <= p * w < total
  {
    MulNonNegative(p, w);
    MulNonNegative(p, q - 1 - w);
    assert p * (q - 1 - w) == p * q - p - p * w;
  }

  /** Adding with one conditional subtraction. */
  function AddBelow(x: int, y: int, m: int): int
  {
    if x + y >= m then x + y - m else x + y
  }

  /** The value accumulated by writing the residues at the positions of `order`, from zeroed words. */
  function Accumulated(b: RnsBase, order: seq<nat>, residues: seq<int>): int
    requires b.Valid() && |residues| == b.Size() && forall t: nat :: t < |order| ==> order[t] < b.Size()
  {
    if |order| == 0 then 0
    else
      var n := |order| - 1;
      AddBelow(Accumulated(b, order[..n], residues), Contribution(b, order[n], residues[order[n]]), b.Total())
  }

  lemma AddBelowRight(x: int, y: int, m: int)
    requires 0 <= x < m && 0 <= y < m
    ensures 0 <= AddBelow(x, y, m) < m && Cong(AddBelow(x, y, m), x + y, m)
  {
    if x + y >= m {
      CongFrom(x + y - m, x + y, -1, m);
    }
  }

  /** After some writes the value has the residues written, and zero elsewhere. */
  lemma {:induction false} AccumulatedResidue(b: RnsBase, order: seq<nat>, residues: seq<int>, k: nat)
    requires b.Valid() && |residues| == b.Size() && k < b.Size()
    requires forall t: nat :: t < |order| ==> order[t] < b.Size()
    requires forall s: nat, t: nat :: s < t < |order| ==> order[s] != order[t]
    ensures 0 <= Accumulated(b, order, residues) < b.Total()
    ensures Cong(Accumulated(b, order, residues), if k in order then residues[k] else 0, b.primes[k])
  {
    BaseProductPositive(b.primes);
    if |order| > 0 {
      var n := |order| - 1;
      AccumulatedResidue(b, order[..n], residues, k);
      assert order == order[..n] + [order[n]];
      AccumulateOne(b, Accumulated(b, order[..n], residues), order[n], residues[order[n]],
                    if k in order[..n] then residues[k] else 0, k);
    }
  }

  lemma AccumulatedBelow(b: RnsBase, order: seq<nat>, residues: seq<int>)
    requires b.Valid() && |residues| == b.Size()
    requires forall t: nat :: t < |order| ==> order[t] < b.Size()
    requires forall s: nat, t: nat :: s < t < |order| ==> order[s] != order[t]
    ensures 0 <= Accumulated(b, order, residues) < b.Total()
  {
    AccumulatedResidue(b, order, residues, 0);
  }

  lemma NextAccumulated(b: RnsBase, order: seq<nat>, t: nat, residues: seq<int>)
    requires b.Valid() && |residues| == b.Size() && t < |order|
    requires forall t: nat :: t < |order| ==> order[t] < b.Size()
    ensures Accumulated(b, order[..t + 1], residues)
         == AddBelow(Accumulated(b, order[..t], residues), Contribution(b, order[t], residues[order[t]]), b.Total())
  {
    assert order[..t + 1][..t] == order[..t];
  }

  lemma AccumulateOne(b: RnsBase, before: int, j: nat, x: int, r: int, k: nat)
    requires b.Valid() && j < b.Size() && k < b.Size() && 0 <= before < b.Total() && Cong(before, r, b.primes[k])
    ensures 0 <= AddBelow(before, Contribution(b, j, x), b.Total()) < b.Total()
    ensures Cong(AddBelow(before, Contribution(b, j, x), b.Total()), r + if j == k then x else 0, b.primes[k])
  {
    hide Contribution, AddBelow, Cong;
    ContributionBelow(b, j, x);
    ContributionRight(b, j, x, k);
    AddBelowRight(before, Contribution(b, j, x), b.Total());
    CombineResidues(b, before, Contribution(b, j, x), r, if j == k then x else 0, k);
  }

  lemma CombineResidues(b: RnsBase, before: int, c: int, r: int, s: int, k: nat)
    requires b.Valid() && k < b.Size() && 0 <= before < b.Total() && 0 <= c < b.Total()
    requires Cong(before, r, b.primes[k]) && Cong(c, s, b.primes[k])
    ensures Cong(AddBelow(before, c, b.Total()), r + s, b.primes[k])
  {
    PuncturedCompletes(b, k);
    ReduceWithin(before, c, r, s, b.Total(), b.Punctured(k), b.primes[k]);
  }

  lemma ReduceWithin(x: int, y: int, r: int, s: int, total: int, p: int, q: int)
    requires q > 0 && total == p * q && Cong(x, r, q) && Cong(y, s, q)
    ensures Cong(AddBelow(x, y, total), r + s, q)
  {
    CongAdd(x, r, y, s, q);
    if x + y >= total {
      assert (-p) * q == -total;
      CongFrom(x + y - total, x + y, -p, q);
    }
  }

  /** The one integer below the product with these residues. */
  ghost predicate Resolved(v: int, residues: seq<int>, b: RnsBase)
    requires b.Valid()
  {
    && 0 <= v < b.Total() && Represents(v, residues, b)
    && forall x :: 0 <= x < b.Total() && Represents(x, residues, b) ==> x == v
  }

  /** One write per base, in any order, resolves to the one integer below the product with those residues. */
  lemma ResolveAnyOrder(b: RnsBase, order: seq<nat>, residues: seq<int>)
    requires b.Valid() && |residues| == b.Size()
    requires forall t: nat :: t < |order| ==> order[t] < b.Size()
    requires forall s: nat, t: nat :: s < t < |order| ==> order[s] != order[t]
    requires forall k: nat :: k < b.Size() ==> k in order
    ensures Resolved(Accumulated(b, order, residues), residues, b)
  {
    var r := Accumulated(b, order, residues);
    AccumulatedResidue(b, order, residues, 0);
    forall k: nat | k < b.Size()
      ensures Cong(r, residues[k], b.primes[k])
    {
      AccumulatedResidue(b, order, residues, k);
    }
    forall x | 0 <= x < b.Total() && Represents(x, residues, b)
      ensures x == r
    {
      ResiduesDetermine(x, r, residues, b);
      SmallMod(x, b.Total());
      SmallMod(r, b.Total());
    }
  }
}
