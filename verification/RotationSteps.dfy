/** What the Galois elements of rotation steps do to the encoded slots: a step to the left or right is a cyclic shift by
    that many places in each half, for the emulator's elements always, for the accelerator's elements except some large
    right steps. */
module RotationSteps {
  import opened Congruence
  import opened Bits
  import opened Galois
  import opened Rotation

  // ----- the elements

  /** A left step's element is that power of 5, a right step's its inverse, and step 0 has the element -1. */
  lemma ElementIsPower(n: nat, step: int)
    requires IsPowerOfTwo(n) && n >= 4
    ensures ElementOfStep(n, step) == StepTooLarge <==> step <= -(n / 2) || step >= n / 2
    ensures var e := ElementOfStep(n, step);
      e.Element? ==>
        && 0 <= e.value < 2 * n
        && (step == 0 ==> e.value + 1 == 2 * n)
        && (step > 0 ==> Cong(e.value, Pow(5, step), 2 * n))
        && (step < 0 ==> Cong(e.value * Pow(5, -step), 1, 2 * n))
  {
    hide Pow, IsPowerOfTwo;
    if step > 0 {
      CongMod(Pow(5, step), 2 * n);
    } else if -(n / 2) < step < 0 {
      RightStep(n, n / 2 + step, -step);
    }
  }

  lemma RightStep(n: nat, c: nat, d: nat)
    requires IsPowerOfTwo(n) && n >= 4 && c + d == n / 2
    ensures Cong(Position(n, c) * Pow(5, d), 1, 2 * n)
  {
    hide Pow, IsPowerOfTwo;
    OppositeElements(n, c, d);
    CongMod(Pow(5, d), 2 * n);
    CongMul(Position(n, c), Position(n, c), Position(n, d), Pow(5, d), 2 * n);
    SmallMod(1, 2 * n);
  }

  // ----- shifts

  /** Slot j lies in the half of slot i, step places further on, cyclically. */
  ghost predicate StepsTo(n: nat, i: nat, step: int, j: nat)
    requires n >= 2
  {
    i < n && j < n && (i < n / 2 <==> j < n / 2) && j % (n / 2) == (i % (n / 2) + step) % (n / 2)
  }

  /** Powers of 5 depend on the exponent modulo n / 2 only. */
  lemma {:induction false} PositionCycles(n: nat, c: nat, d: nat)
    requires IsPowerOfTwo(n) && n >= 4 && d < n / 2 && c % (n / 2) == d
    ensures Position(n, c) == Position(n, d)
    decreases c
  {
    var h := n / 2;
    if c < h {
      SmallMod(c, h);
    } else {
      CongFrom(c, c - h, 1, h);
      PositionCycles(n, c - h, d);
      PositionPeriod(n, c - h);
    }
  }

  lemma ShiftMeets(n: nat, i: nat, c: nat, step: int, j: nat)
    requires n >= 4 && n % 2 == 0 && StepsTo(n, i, step, j) && c < n / 2 && Cong(c, step, n / 2)
    ensures ShiftedSlot(n, i, c) == j
  {
    var h := n / 2;
    assert n == 2 * h;
    var x := if i < h then i else i - h;
    var y := if j < h then j else j - h;
    CongFrom(i, x, if i < h then 0 else 1, h);
    CongFrom(j, y, if j < h then 0 else 1, h);
    SmallMod(x, h);
    SmallMod(y, h);
    CongAdd(x, x, c, step, h);
    var z := if x + c < h then x + c else x + c - h;
    CongFrom(x + c, z, if x + c < h then 0 else 1, h);
    SmallMod(z, h);
  }

  /** The element 5^c shifts by any step that is c modulo n / 2. */
  lemma PowerShifts(a: seq<int>, table: seq<nat>, c: nat, step: int, i: nat, j: nat)
    requires IsPowerOfTwo(|a|) && |a| >= 4 && IsIndexMap(table, |a|) && StepsTo(|a|, i, step, j) && Cong(c, step, |a| / 2)
    ensures GaloisPermuted(a, Position(|a|, c))[table[i]] == a[table[j]]
  {
    hide IsPowerOfTwo, IsIndexMap, StepsTo, GaloisPermuted;
    var n, h := |a|, |a| / 2;
    var d := c % h;
    EvenDegree(n);
    CongMod(c, h);
    StepsWithin(n, i, step, j);
    PositionCycles(n, c, d);
    ShiftMeets(n, i, d, step, j);
    MapLength(table, n);
    RotationShifts(a, table, d, i);
  }

  lemma StepsWithin(n: nat, i: nat, step: int, j: nat)
    requires n >= 2 && StepsTo(n, i, step, j)
    ensures i < n && j < n
  {
  }

  lemma MapLength(table: seq<nat>, n: nat)
    requires n > 0 && IsIndexMap(table, n)
    ensures |table| == n && forall i: nat :: i < n ==> table[i] < n
  {
    forall i: nat | i < n
      ensures table[i] < n
    {
      assert EntryRight(table[i], n, i);
    }
  }

  /** The emulator's element of a step shifts the slots to the left by that step, to the right if it is negative. */
  lemma StepShifts(a: seq<int>, table: seq<nat>, step: int, i: nat, j: nat)
    requires IsPowerOfTwo(|a|) && |a| >= 4 && IsIndexMap(table, |a|)
    requires step != 0 && -(|a| / 2) < step < |a| / 2 && StepsTo(|a|, i, step, j)
    ensures ElementOfStep(|a|, step).Element?
    ensures GaloisPermuted(a, ElementOfStep(|a|, step).value)[table[i]] == a[table[j]]
  {
    var c := StepPower(|a|, step);
    CongFrom(c, step, if step < 0 then 1 else 0, |a| / 2);
    PowerShifts(a, table, c, step, i, j);
  }

  // ----- the accelerator's elements

  /** Left steps of any size, and right steps that are at most n / 2 modulo 2n. */
  predicate KernelTurns(n: nat, step: int)
    requires n > 0
  {
    step > 0 || (step < 0 && (-step) % (2 * n) <= n / 2)
  }

  /** For those the accelerator's element shifts the slots by the step. */
  lemma KernelShifts(a: seq<int>, table: seq<nat>, step: int, i: nat, j: nat)
    requires IsPowerOfTwo(|a|) && |a| >= 4 && IsIndexMap(table, |a|) && KernelTurns(|a|, step) && StepsTo(|a|, i, step, j)
    ensures GaloisPermuted(a, KernelElement(|a|, step))[table[i]] == a[table[j]]
  {
    hide IsIndexMap, StepsTo, GaloisPermuted;
    var c := KernelPower(|a|, step);
    PowerShifts(a, table, c, step, i, j);
  }

  lemma KernelPower(n: nat, step: int) returns (c: nat)
    requires IsPowerOfTwo(n) && n >= 4 && KernelTurns(n, step)
    ensures Cong(c, step, n / 2) && KernelElement(n, step) == Position(n, c)
  {
    EvenDegree(n);
    var size: nat := if step < 0 then -step else step;
    var reduced := if size >= n / 2 then Wrap(size, n) else size;
    SizeReduced(n, size, reduced);
    if step > 0 {
      c := reduced;
    } else {
      c := n / 2 - reduced;
      CongSub(0, 0, reduced, size, n / 2);
      CongFrom(c, 0 - reduced, 1, n / 2);
    }
    FirstPosition(n);
  }

  lemma SizeReduced(n: nat, size: nat, reduced: nat)
    requires n >= 4 && n % 2 == 0 && reduced == if size >= n / 2 then Wrap(size, n) else size
    ensures Cong(reduced, size, n / 2) && (size < n / 2 ==> size % (2 * n) == size)
  {
    if size >= n / 2 {
      CongMod(size, 2 * n);
      var k := CongQuotient(reduced, size, 2 * n);
      FourHalves(n, k);
      CongFrom(reduced, size, 4 * k, n / 2);
    } else {
      SmallMod(size, 2 * n);
    }
  }

  lemma FourHalves(n: nat, k: int)
    requires n % 2 == 0
    ensures k * (2 * n) == (4 * k) * (n / 2)
  {
    var h := n / 2;
    assert n == 2 * h;
  }

  lemma FirstPosition(n: nat)
    requires n > 0
    ensures Position(n, 0) == 1
  {
    SmallMod(1, 2 * n);
  }

  /** A larger right step gets the element 1, which moves nothing. */
  lemma KernelStays(a: seq<int>, step: int)
    requires IsPowerOfTwo(|a|) && |a| >= 4 && step < 0 && !KernelTurns(|a|, step)
    ensures KernelElement(|a|, step) == 1 && GaloisPermuted(a, 1) == a
  {
    hide IsPowerOfTwo, Slot, SourceIndex;
    StaysElement(|a|, step);
    forall k: nat | k < |a|
      ensures GaloisPermuted(a, 1)[k] == a[k]
    {
      OneStays(|a|, k);
    }
  }

  lemma StaysElement(n: nat, step: int)
    requires IsPowerOfTwo(n) && n >= 4 && step < 0 && !KernelTurns(n, step)
    ensures KernelElement(n, step) == 1
  {
    EvenDegree(n);
    hide IsPowerOfTwo;
    if -step < n / 2 {
      SmallMod(-step, 2 * n);
    }
  }

  lemma OneStays(n: nat, k: nat)
    requires IsPowerOfTwo(n) && k < n
    ensures SourceIndex(n, 1, k) == k
  {
    hide IsPowerOfTwo, SourceIndex;
    SlotBelow(n, k);
    SmallMod(Slot(n, k), 2 * n);
    SourceAt(n, 1, k, k);
  }

  lemma SlotBelow(n: nat, k: nat)
    requires IsPowerOfTwo(n) && k < n
    ensures Slot(n, k) < 2 * n
  {
  }

  /** Read through the index map, the element shifts every sequence by the step. */
  ghost predicate ShiftsBy(n: nat, table: seq<nat>, g: nat, step: int)
    requires n >= 2 && |table| == n && forall i: nat :: i < n ==> table[i] < n
  {
    forall a: seq<int>, i: nat, j: nat :: |a| == n && StepsTo(n, i, step, j) ==> GaloisPermuted(a, g)[table[i]] == a[table[j]]
  }

  /** So the accelerator rotates by a step exactly if it goes left, is at most n / 2 to the right modulo 2n, or is a
      multiple of n / 2; other steps it takes for no rotation at all. */
  lemma KernelShiftsExactly(n: nat, table: seq<nat>, step: int)
    requires IsPowerOfTwo(n) && n >= 4 && IsIndexMap(table, n) && step != 0
    ensures |table| == n && forall i: nat :: i < n ==> table[i] < n
    ensures ShiftsBy(n, table, KernelElement(n, step), step) <==> KernelTurns(n, step) || step % (n / 2) == 0
  {
    hide IsPowerOfTwo, IsIndexMap, ShiftsBy, KernelElement, KernelTurns;
    MapLength(table, n);
    if KernelTurns(n, step) {
      TurnsShift(n, table, step);
    } else {
      RightOnly(n, step);
      if step % (n / 2) == 0 {
        WholeTurnsShift(n, table, step);
      } else {
        NotShifted(n, table, step);
      }
    }
  }

  lemma TurnsShift(n: nat, table: seq<nat>, step: int)
    requires IsPowerOfTwo(n) && n >= 4 && IsIndexMap(table, n) && KernelTurns(n, step)
    requires |table| == n && forall i: nat :: i < n ==> table[i] < n
    ensures ShiftsBy(n, table, KernelElement(n, step), step)
  {
    hide IsPowerOfTwo, IsIndexMap, KernelElement, KernelTurns, SourceIndex;
    var g := KernelElement(n, step);
    forall a: seq<int>, i: nat, j: nat | |a| == n && StepsTo(n, i, step, j)
      ensures GaloisPermuted(a, g)[table[i]] == a[table[j]]
    {
      KernelShifts(a, table, step, i, j);
    }
  }

  lemma WholeTurnsShift(n: nat, table: seq<nat>, step: int)
    requires IsPowerOfTwo(n) && n >= 4 && step < 0 && !KernelTurns(n, step) && step % (n / 2) == 0
    requires |table| == n && forall i: nat :: i < n ==> table[i] < n
    ensures ShiftsBy(n, table, KernelElement(n, step), step)
  {
    hide IsPowerOfTwo, KernelElement, KernelTurns, SourceIndex;
    var g := KernelElement(n, step);
    forall a: seq<int>, i: nat, j: nat | |a| == n && StepsTo(n, i, step, j)
      ensures GaloisPermuted(a, g)[table[i]] == a[table[j]]
    {
      KernelStays(a, step);
      WholeTurn(n, i, step, j);
    }
  }

  lemma RightOnly(n: nat, step: int)
    requires n > 0 && step != 0 && !KernelTurns(n, step)
    ensures step < 0
  {
  }

  lemma WholeTurn(n: nat, i: nat, step: int, j: nat)
    requires IsPowerOfTwo(n) && n >= 4 && StepsTo(n, i, step, j) && step % (n / 2) == 0
    ensures i == j
  {
    EvenDegree(n);
    var h := n / 2;
    SmallMod(0, h);
    ShiftMeets(n, i, 0, step, j);
  }

  lemma NotShifted(n: nat, table: seq<nat>, step: int)
    requires IsPowerOfTwo(n) && n >= 4 && IsIndexMap(table, n) && step < 0 && !KernelTurns(n, step) && step % (n / 2) != 0
    requires |table| == n && forall i: nat :: i < n ==> table[i] < n
    ensures !ShiftsBy(n, table, KernelElement(n, step), step)
  {
    hide IsPowerOfTwo, IsIndexMap, GaloisPermuted, KernelElement, KernelTurns;
    var a: seq<int> := seq(n, k => k);
    var j: nat := step % (n / 2);
    SmallMod(j, n / 2);
    SmallMod(0, n / 2);
    assert StepsTo(n, 0, step, j);
    KernelStays(a, step);
    if table[0] == table[j] {
      IndexMapInjective(table, n, 0, j);
    }
    assert a[table[0]] != a[table[j]];
  }
}
