/** Resolving limbs into the 32-bit words of the integer they represent, and reducing those words again. */
module Resolve {
  import opened Congruence
  import opened WordArithmetic
  import opened Barrett
  import opened Rns

  // ----- words

  function Digits(v: nat, n: nat): (d: seq<Element>)
    ensures |d| == n
    decreases n
  {
    if n == 0 then [] else [v % LIMB] + Digits(v / LIMB, n - 1)
  }

  lemma {:induction false} DigitsValue(v: nat, n: nat)
    requires v < Pow(LIMB, n)
    ensures ValueOf(Digits(v, n), LIMB) == v
    decreases n
  {
    if n == 0 {
    } else {
      assert v / LIMB < Pow(LIMB, n - 1);
      DigitsValue(v / LIMB, n - 1);
      assert Digits(v, n)[1..] == Digits(v / LIMB, n - 1);
    }
  }

  lemma {:induction false} BaseProductBelow(primes: seq<nat>)
    requires forall k: nat :: k < |primes| ==> 1 < primes[k] <= LIMB
    ensures BaseProduct(primes) <= Pow(LIMB, |primes|)
  {
    if |primes| > 0 {
      var n := |primes| - 1;
      BaseProductBelow(primes[..n]);
      MulNonNegative(Pow(LIMB, n) - BaseProduct(primes[..n]), primes[n]);
      PowPositive(LIMB, n);
      MulNonNegative(Pow(LIMB, n), LIMB - primes[n]);
    }
  }

  /** The words of coefficient i over all destination limbs. */
  function Column(dests: array2<Element>, i: nat): (c: seq<Element>)
    requires i < dests.Length1
    reads dests
    ensures |c| == dests.Length0 && forall j: nat :: j < |c| ==> c[j] == dests[j, i]
  {
    seq(dests.Length0, j requires 0 <= j < dests.Length0 reads dests => dests[j, i])
  }

  function ColumnValue(dests: array2<Element>, i: nat): int
    requires i < dests.Length1
    reads dests
  {
    ValueOf(Column(dests, i), LIMB)
  }

  method WriteColumn(dests: array2<Element>, i: nat, v: nat)
    requires i < dests.Length1
    modifies dests
    ensures Column(dests, i) == Digits(v, dests.Length0)
    ensures forall k: nat, j: nat :: k < dests.Length1 && k != i && j < dests.Length0 ==> dests[j, k] == old(dests[j, k])
  {
    var rest := v;
    var j := 0;
    while j < dests.Length0
      invariant 0 <= j <= dests.Length0 && rest >= 0
      invariant Digits(v, dests.Length0) == Column(dests, i)[..j] + Digits(rest, dests.Length0 - j)
      invariant forall k: nat, l: nat :: k < dests.Length1 && k != i && l < dests.Length0 ==> dests[l, k] == old(dests[l, k])
    {
      ghost var was := Column(dests, i);
      dests[j, i] := rest % LIMB;
      assert Column(dests, i)[..j + 1] == was[..j] + [rest % LIMB];
      rest := rest / LIMB;
      j := j + 1;
    }
    assert Column(dests, i)[..j] == Column(dests, i);
  }

  ghost predicate SmallModuli(b: RnsBase)
  {
    forall k: nat :: k < b.Size() ==> b.primes[k] <= LIMB
  }

  /** Adds the contribution of one base to every coefficient, modulo the product of all bases. */
  method ResolveWrite(dests: array2<Element>, operand: seq<Element>, b: RnsBase, pos: nat)
    requires b.Valid() && SmallModuli(b) && pos < b.Size()
    requires dests.Length0 == b.Size() && dests.Length1 == |operand|
    requires forall i: nat :: i < |operand| ==> ColumnValue(dests, i) < b.Total()
    modifies dests
    ensures forall i: nat :: i < |operand| ==>
      ColumnValue(dests, i) == AddBelow(old(ColumnValue(dests, i)), Contribution(b, pos, operand[i]), b.Total())
  {
    BaseProductBelow(b.primes);
    hide AddBelow, BaseProduct, ValueOf;
    var i: nat := 0;
    while i < |operand|
      invariant i <= |operand|
      invariant forall k: nat :: i <= k < |operand| ==> Column(dests, k) == old(Column(dests, k))
      invariant forall k: nat :: k < i ==>
        ColumnValue(dests, k) == AddBelow(old(ColumnValue(dests, k)), Contribution(b, pos, operand[k]), b.Total())
    {
      assert Column(dests, i) == old(Column(dests, i));
      assert ColumnValue(dests, i) == old(ColumnValue(dests, i)) < b.Total();
      var scaled := (operand[i] * b.inverses[pos]) % b.primes[pos];
      var sum := AddBelow(ColumnValue(dests, i), b.Punctured(pos) * scaled, b.Total());
      ContributionBelow(b, pos, operand[i]);
      ValueNonNegative(Column(dests, i), LIMB);
      AddBelowRight(ColumnValue(dests, i), Contribution(b, pos, operand[i]), b.Total());
      label Before:
      WriteColumn(dests, i, sum);
      DigitsValue(sum, b.Size());
      forall k: nat | k < |operand| && k != i
        ensures Column(dests, k) == old@Before(Column(dests, k))
      {
      }
      i := i + 1;
    }
  }

  lemma {:induction false} ValueNonNegative(digits: seq<Element>, b: nat)
    ensures ValueOf(digits, b) >= 0
  {
    if |digits| > 0 {
      ValueNonNegative(digits[1..], b);
      MulNonNegative(b, ValueOf(digits[1..], b));
    }
  }

  lemma {:induction false} ZeroValue(digits: seq<Element>, b: nat)
    requires forall j: nat :: j < |digits| ==> digits[j] == 0
    ensures ValueOf(digits, b) == 0
  {
    if |digits| > 0 {
      ZeroValue(digits[1..], b);
    }
  }

  /** The residues of coefficient i. */
  function Residues(operands: seq<seq<Element>>, i: nat): seq<int>
    requires forall k: nat :: k < |operands| ==> i < |operands[k]|
  {
    seq(|operands|, k requires 0 <= k < |operands| => operands[k][i])
  }

  /** Each base written once, in the order the instruction stream has them. */
  method ResolveRun(dests: array2<Element>, operands: seq<seq<Element>>, b: RnsBase, order: seq<nat>)
    requires b.Valid() && SmallModuli(b) && |operands| == b.Size()
    requires dests.Length0 == b.Size() && forall k: nat :: k < b.Size() ==> |operands[k]| == dests.Length1
    requires forall j: nat, i: nat :: j < dests.Length0 && i < dests.Length1 ==> dests[j, i] == 0
    requires forall t: nat :: t < |order| ==> order[t] < b.Size()
    requires forall s: nat, t: nat :: s < t < |order| ==> order[s] != order[t]
    requires forall k: nat :: k < b.Size() ==> k in order
    modifies dests
    ensures forall i: nat :: i < dests.Length1 ==> Resolved(ColumnValue(dests, i), Residues(operands, i), b)
  {
    forall i: nat | i < dests.Length1
      ensures ColumnValue(dests, i) == 0
    {
      ZeroValue(Column(dests, i), LIMB);
    }
    forall i: nat | i < dests.Length1
      ensures Accumulated(b, order[..0], Residues(operands, i)) == 0
    {
    }
    hide ColumnValue, Contribution, AddBelow, Resolved, Accumulated, RnsBase.Total, RnsBase.Valid;
    var t: nat := 0;
    while t < |order|
      invariant t <= |order|
      invariant forall i: nat :: i < dests.Length1 ==> ColumnValue(dests, i) == Accumulated(b, order[..t], Residues(operands, i))
    {
      forall i: nat | i < dests.Length1
        ensures 0 <= ColumnValue(dests, i) < b.Total()
      {
        AccumulatedBelow(b, order[..t], Residues(operands, i));
      }
      ResolveWrite(dests, operands[order[t]], b, order[t]);
      forall i: nat | i < dests.Length1
        ensures ColumnValue(dests, i) == Accumulated(b, order[..t + 1], Residues(operands, i))
      {
        NextAccumulated(b, order, t, Residues(operands, i));
      }
      t := t + 1;
    }
    assert order[..t] == order;
    forall i: nat | i < dests.Length1
      ensures Resolved(ColumnValue(dests, i), Residues(operands, i), b)
    {
      ResolveAnyOrder(b, order, Residues(operands, i));
    }
  }

  // ----- reducing the words modulo another prime

  /** 32-bit words stored consecutively into as many 64-bit words: the upper half of the space stays zero. */
  function Packed(words: seq<Element>, n: nat): (p: seq<Word>)
    requires |words| <= 2 * n
    ensures |p| == n
    decreases n
  {
    if n == 0 then []
    else
      var low := if |words| >= 1 then words[0] else 0;
      var high := if |words| >= 2 then words[1] else 0;
      [low + LIMB * high] + Packed(if |words| >= 2 then words[2..] else [], n - 1)
  }

  lemma {:induction false} PackedValue(words: seq<Element>, n: nat)
    requires |words| <= 2 * n
    ensures ValueOf(Packed(words, n), WORD) == ValueOf(words, LIMB)
    decreases n
  {
    if n > 0 {
      var rest := if |words| >= 2 then words[2..] else [];
      PackedValue(rest, n - 1);
      assert Packed(words, n)[1..] == Packed(rest, n - 1);
      if |words| >= 2 {
        assert words[1..][1..] == rest;
        assert ValueOf(words, LIMB) == words[0] + LIMB * (words[1] + LIMB * ValueOf(rest, LIMB));
      }
    }
  }

  datatype Outcome = Done(limb: seq<Element>) | InvalidArgument

  /** Reduces every coefficient of the resolved limbs. With one limb nothing is reduced. */
  method EvaluatorMod(inputs: array2<Element>, p: Word, ratio0: Word, ratio1: Word) returns (result: Outcome)
    requires 2 <= p < LIMB && RatioOf(ratio0, ratio1, p)
    ensures inputs.Length0 == 0 <==> result == InvalidArgument
    ensures inputs.Length0 > 0 ==> result.Done? && |result.limb| == inputs.Length1
    ensures inputs.Length0 > 0 ==> forall i: nat :: i < inputs.Length1 ==>
      (result.limb[i] == ColumnValue(inputs, i) % p <==> inputs.Length0 >= 2 || inputs[0, i] < p)
  {
    if inputs.Length0 == 0 {
      return InvalidArgument;
    }
    var limb: seq<Element> := [];
    var i: nat := 0;
    while i < inputs.Length1
      invariant i <= inputs.Length1 && |limb| == i
      invariant forall k: nat :: k < i ==>
        (limb[k] == ColumnValue(inputs, k) % p <==> inputs.Length0 >= 2 || inputs[0, k] < p)
    {
      var words := Column(inputs, i);
      var temp := Packed(words, inputs.Length0);
      PackedValue(words, inputs.Length0);
      var r := ModuloUint(temp, p, ratio0, ratio1);
      if inputs.Length0 == 1 {
        assert temp[0] == words[0];
      }
      limb := limb + [r];
      i := i + 1;
    }
    return Done(limb);
  }
}
