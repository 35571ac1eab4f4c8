/** Rotations of encoded slots: the Galois element of a step, the encoder's index map built from the powers
    of 5, and the cyclic shift that a Galois permutation performs through that map. */
module Rotation {
  import opened Congruence
  import opened Polynomials
  import opened Bits
  import opened Counting
  import opened WordArithmetic
  import opened FourStepStages
  import opened NttTheorems
  import opened Galois

  const GENERATOR := 5

  // ----- the order of 5 modulo a power of two

  /** 5^(2^k) is 1 plus an odd multiple of 2^(k+2). */
  lemma {:induction false} FivePower(k: nat) returns (u: int)
    ensures u % 2 == 1 && Pow(GENERATOR, Pow2(k)) == 1 + Pow2(k + 2) * u
  {
    if k == 0 {
      assert Pow(GENERATOR, 1) == GENERATOR * Pow(GENERATOR, 0);
      assert Pow2(2) == 2 * Pow2(1) == 4;
      u := 1;
    } else {
      var v := FivePower(k - 1);
      PowAdd(GENERATOR, Pow2(k - 1), Pow2(k - 1));
      SquareStep(Pow2(k + 1), v);
      EvenOffset(Pow2(k - 1), v);
      u := v + Pow2(k) * (v * v);
    }
  }

  lemma SquareStep(h: int, v: int)
    requires h % 2 == 0
    ensures (1 + h * v) * (1 + h * v) == 1 + (2 * h) * (v + (h / 2) * (v * v))
  {
    var g := h / 2;
    assert h == 2 * g;
    var w := h * v;
    assert (1 + w) * (1 + w) == 1 + 2 * w + w * w;
    assert w * w == (h * h) * (v * v) by {
      PairFactors(h, v, h, v);
    }
    assert (2 * h) * (g * (v * v)) == (h * h) * (v * v) by {
      Associate(2 * h, g, v * v);
      assert (2 * h) * g == h * h;
    }
    assert (2 * h) * (v + g * (v * v)) == (2 * h) * v + (2 * h) * (g * (v * v));
    assert (2 * h) * v == 2 * w;
  }

  lemma EvenOffset(g: int, v: int)
    requires v % 2 == 1
    ensures (v + (2 * g) * (v * v)) % 2 == 1
  {
    Associate(2, g, v * v);
    var t := g * (v * v);
    assert v + 2 * t == v + t + t;
  }

  /** 5^d is 1 modulo 2^(k+2) exactly for the multiples d of 2^k. */
  lemma {:induction false} OrderOfFive(d: nat, k: nat)
    ensures Cong(Pow(GENERATOR, d), 1, Pow2(k + 2)) <==> d % Pow2(k) == 0
  {
    if k == 0 {
      FiveModFour(d);
    } else {
      OrderOfFive(d, k - 1);
      if Cong(Pow(GENERATOR, d), 1, Pow2(k + 2)) {
        Coarsen(Pow(GENERATOR, d), 1, Pow2(k + 1));
        HalfOrder(d, k);
      } else if d % Pow2(k) == 0 {
        FullOrder(d, k);
      }
    }
  }

  lemma FiveModFour(d: nat)
    ensures Cong(Pow(GENERATOR, d), 1, Pow2(2))
  {
    assert Pow2(2) == 2 * Pow2(1) == 4;
    PowCong(GENERATOR, 1, d, 4);
    PowOne(d);
  }

  lemma Coarsen(a: int, b: int, m: int)
    requires m > 0 && Cong(a, b, 2 * m)
    ensures Cong(a, b, m)
  {
    var k := CongQuotient(a, b, 2 * m);
    assert k * (2 * m) == (2 * k) * m;
    CongFrom(a, b, 2 * k, m);
  }

  lemma FullOrder(d: nat, k: nat)
    requires d % Pow2(k) == 0
    ensures Cong(Pow(GENERATOR, d), 1, Pow2(k + 2))
  {
    var m := Pow2(k);
    DivisionParts(d, m);
    var u := FivePower(k);
    CongFrom(Pow(GENERATOR, m), 1, u, Pow2(k + 2));
    DropPeriods(GENERATOR, 0, m, d / m, Pow2(k + 2));
  }

  lemma HalfOrder(d: nat, k: nat)
    requires k >= 1 && Cong(Pow(GENERATOR, d), 1, Pow2(k + 2)) && d % Pow2(k - 1) == 0
    ensures d % Pow2(k) == 0
  {
    var h := Pow2(k - 1);
    var f := SplitMultiple(d, h);
    if d == (2 * h) * f {
      CongFrom(d, 0, f, 2 * h);
      SmallMod(0, 2 * h);
    } else {
      OddPeriod(k, f);
    }
  }

  lemma SplitMultiple(d: nat, h: nat) returns (f: nat)
    requires h > 0 && d % h == 0
    ensures (2 * h) * f >= 0 && (d == (2 * h) * f || d == h + (2 * h) * f)
  {
    DivisionParts(d, h);
    var e := d / h;
    f := e / 2;
    assert (2 * h) * f == h * (2 * f);
    assert h * (2 * f + 1) == h * (2 * f) + h;
  }

  /** An odd multiple of 2^(k-1) is not a period modulo 2^(k+2). */
  lemma OddPeriod(k: nat, f: nat)
    requires k >= 1
    ensures Pow2(k) * f >= 0 && !Cong(Pow(GENERATOR, Pow2(k - 1) + Pow2(k) * f), 1, Pow2(k + 2))
  {
    FullOrder(Pow2(k), k) by {
      SelfMultiple(Pow2(k));
    }
    DropPeriods(GENERATOR, Pow2(k - 1), Pow2(k), f, Pow2(k + 2));
    var u := FivePower(k - 1);
    OddMultiple(Pow2(k + 1), u);
  }

  lemma SelfMultiple(m: nat)
    requires m > 0
    ensures m % m == 0
  {
    CongFrom(m, 0, 1, m);
    SmallMod(0, m);
  }

  lemma OddMultiple(h: int, u: int)
    requires h > 0 && u % 2 == 1
    ensures !Cong(1 + h * u, 1, 2 * h)
  {
    if Cong(1 + h * u, 1, 2 * h) {
      var k := CongQuotient(1 + h * u, 1, 2 * h);
      assert h * u == h * (2 * k) by {
        Associate(k, 2, h);
        Commute(h, 2 * k);
      }
      EqualFactors(u, 2 * k, h);
    }
  }

  // ----- the encoder's index map

  /** Exponent of slot i in the first half: 5^i modulo 2n. */
  function Position(n: nat, i: nat): (p: nat)
    requires n > 0
    ensures p < 2 * n
  {
    Wrap(Pow(GENERATOR, i), n)
  }

  /** Exponent behind entry i of the index map: a power of 5 in the first half, its negative in the second. */
  function SlotExponent(n: nat, i: nat): int
    requires n > 0
  {
    if i < n / 2 then Position(n, i) else 2 * n - Position(n, i - n / 2)
  }

  predicate EntryRight(entry: nat, n: nat, i: nat)
    requires n > 0
  {
    entry < n && Slot(n, entry) == SlotExponent(n, i)
  }

  ghost predicate IsIndexMap(table: seq<nat>, n: nat)
    requires n > 0
  {
    |table| == n && forall i: nat :: i < n ==> EntryRight(table[i], n, i)
  }

  /** The loop of the encoder's initialisation over the ring degree n; its precondition is the class's m >= 8. */
  method InitializeIndexMap(n: nat) returns (table: array<nat>)
    requires IsPowerOfTwo(n) && n >= 4
    ensures IsIndexMap(table[..], n)
  {
    var logn := Log2(n);
    PowerOfTwoHalves(n);
    var slots, m: nat := n / 2, 2 * n;
    table := new nat[n];
    var pos: nat := 1;
    SmallMod(1, m);
    for i := 0 to slots
      invariant pos == Position(n, i)
      invariant forall j: nat :: j < i || slots <= j < slots + i ==> EntryRight(table[j], n, j)
    {
      PositionIsOdd(n, i);
      ReversedEntry(n, pos, i);
      ReversedEntry(n, m - pos, slots + i);
      table[i] := ReverseBits((pos - 1) / 2, logn);
      table[slots + i] := ReverseBits((m - pos - 1) / 2, logn);
      NextPosition(n, i);
      pos := Wrap(pos * GENERATOR, n);
    }
  }

  lemma PositionIsOdd(n: nat, i: nat)
    requires IsPowerOfTwo(n) && n >= 4
    ensures Position(n, i) % 2 == 1 && 0 < Position(n, i)
    ensures (2 * n - Position(n, i)) % 2 == 1
  {
    PowerOfTwoHalves(n);
    PositionOdd(n, i);
    OddFromFour(Position(n, i), n);
  }

  lemma OddFromFour(p: nat, n: nat)
    requires p % 4 == 1
    ensures p % 2 == 1 && p > 0 && (2 * n - p) % 2 == 1
  {
    var k := p / 4;
    assert p == 4 * k + 1;
    OddForm(p, 2 * k);
    OddForm(2 * n - p, n - 2 * k - 1);
  }

  lemma ReversedEntry(n: nat, e: nat, i: nat)
    requires IsPowerOfTwo(n) && e % 2 == 1 && e < 2 * n && SlotExponent(n, i) == e
    ensures EntryRight(Rev((e - 1) / 2, TrailingZeros(n)), n, i)
  {
    var h := e / 2;
    assert e == 2 * h + 1;
    HalfForm(e, h);
    SlotOfReversed(n, h);
  }

  lemma PowerOfTwoHalves(n: nat)
    requires IsPowerOfTwo(n) && n >= 4
    ensures n % 4 == 0 && TrailingZeros(n) >= 2 && Pow2(TrailingZeros(n) - 1) == n / 2
  {
    assert Pow2(0) == 1 && Pow2(1) == 2;
    var t := TrailingZeros(n);
    FourFold(t - 2);
    FourForm(n, Pow2(t - 2));
  }

  lemma FourFold(x: nat)
    ensures Pow2(x + 2) == 4 * Pow2(x) && Pow2(x + 1) == 2 * Pow2(x)
  {
  }

  lemma FourForm(n: int, m: int)
    requires n == 4 * m
    ensures n % 4 == 0 && n / 2 == 2 * m
  {
  }

  lemma EvenDegree(n: nat)
    requires IsPowerOfTwo(n) && n >= 4
    ensures n % 2 == 0
  {
    PowerOfTwoHalves(n);
  }

  lemma NextPosition(n: nat, i: nat)
    requires n > 0
    ensures Wrap(Position(n, i) * GENERATOR, n) == Position(n, i + 1)
  {
    CongMod(Pow(GENERATOR, i), 2 * n);
    CongMul(Position(n, i), Pow(GENERATOR, i), GENERATOR, GENERATOR, 2 * n);
  }

  /** Powers of 5 are 1 modulo 4. */
  lemma PositionOdd(n: nat, i: nat)
    requires n > 0 && n % 4 == 0
    ensures Position(n, i) % 4 == 1
  {
    FiveModFour(i);
    assert Pow2(2) == 2 * Pow2(1) == 4;
    DivisionPartsInt(Pow(GENERATOR, i), 2 * n);
    var k := Pow(GENERATOR, i) / (2 * n);
    assert (2 * n) * k == (2 * (n / 4) * k) * 4 by {
      assert n == 4 * (n / 4);
      Associate(2 * (n / 4), 4, k);
      Commute(4, k);
      Associate(2 * (n / 4), k, 4);
    }
    CongFrom(Pow(GENERATOR, i), Position(n, i), 2 * (n / 4) * k, 4);
  }

  lemma DivisionPartsInt(e: int, s: nat)
    requires s > 0
    ensures e == e % s + s * (e / s)
  {
  }

  /** Two powers of 5 below the slot count differ modulo 2n. */
  lemma PositionsDistinct(n: nat, i: nat, j: nat)
    requires IsPowerOfTwo(n) && n >= 4 && i < n / 2 && j < n / 2 && Position(n, i) == Position(n, j)
    ensures i == j
  {
    if i < j {
      LaterPositionDiffers(n, j, i);
    } else if j < i {
      LaterPositionDiffers(n, i, j);
    }
  }

  lemma LaterPositionDiffers(n: nat, i: nat, j: nat)
    requires IsPowerOfTwo(n) && n >= 4 && j < i < n / 2
    ensures Position(n, i) != Position(n, j)
  {
    PowerOfTwoHalves(n);
    var k: nat := TrailingZeros(n) - 1;
    assert 2 * n == Pow2(k + 2);
    SmallMod(i - j, n / 2);
    OrderOfFive(i - j, k);
    if Position(n, i) == Position(n, j) {
      CancelFive(i, j, k);
    }
  }

  lemma CancelFive(i: nat, j: nat, k: nat)
    requires j < i && Cong(Pow(GENERATOR, i), Pow(GENERATOR, j), Pow2(k + 2))
    ensures Cong(Pow(GENERATOR, i - j), 1, Pow2(k + 2))
  {
    var q := Pow2(k + 2);
    var c := ComplementExponent(j, k);
    PowAdd(GENERATOR, j, c);
    PowAdd(GENERATOR, i, c);
    CongMul(Pow(GENERATOR, i), Pow(GENERATOR, j), Pow(GENERATOR, c), Pow(GENERATOR, c), q);
    PowAdd(GENERATOR, i - j, j + c);
    CongMul(Pow(GENERATOR, i - j), Pow(GENERATOR, i - j), Pow(GENERATOR, j + c), 1, q);
  }

  lemma ComplementExponent(j: nat, k: nat) returns (c: nat)
    ensures Cong(Pow(GENERATOR, j + c), 1, Pow2(k + 2))
  {
    var h := Pow2(k);
    MulAtLeast(j, h);
    c := h * j - j;
    CongFrom(h * j, 0, j, h);
    SmallMod(0, h);
    FullOrder(h * j, k);
  }

  /** Powers of 5 and negated powers of 5 fall into different classes modulo 4. */
  lemma ExponentClass(n: nat, i: nat)
    requires IsPowerOfTwo(n) && n >= 4 && i < n
    ensures SlotExponent(n, i) % 4 == if i < n / 2 then 1 else 3
  {
    PowerOfTwoHalves(n);
    var p := Position(n, if i < n / 2 then i else i - n / 2);
    PositionOdd(n, if i < n / 2 then i else i - n / 2);
    NegatedClass(p, n);
  }

  lemma NegatedClass(p: nat, n: nat)
    requires p % 4 == 1 && n % 4 == 0
    ensures (2 * n - p) % 4 == 3
  {
    var k, m := p / 4, n / 4;
    assert p == 4 * k + 1 && n == 4 * m;
    ThreeForm(2 * n - p, 2 * m - k - 1);
  }

  lemma ThreeForm(x: int, h: int)
    requires x == 4 * h + 3
    ensures x % 4 == 3
  {
  }

  /** No two entries of the index map agree. */
  lemma IndexMapInjective(table: seq<nat>, n: nat, i: nat, j: nat)
    requires IsPowerOfTwo(n) && n >= 4 && IsIndexMap(table, n) && i < n && j < n && table[i] == table[j]
    ensures i == j
  {
    assert EntryRight(table[i], n, i) && EntryRight(table[j], n, j);
    ExponentClass(n, i);
    ExponentClass(n, j);
    if i < n / 2 {
      PositionsDistinct(n, i, j);
    } else {
      PositionsDistinct(n, i - n / 2, j - n / 2);
    }
  }

  /** Every slot is hit: the powers of 5 and their negatives are all the odd residues modulo 2n. */
  lemma IndexMapSurjective(table: seq<nat>, n: nat, s: nat)
    requires IsPowerOfTwo(n) && n >= 4 && IsIndexMap(table, n) && s < n
    ensures s in table
  {
    forall i: nat, j: nat | i < j < n
      ensures table[i] != table[j]
    {
      if table[i] == table[j] {
        IndexMapInjective(table, n, i, j);
      }
    }
    Pigeonhole(table, n, s);
  }

  // ----- rotation steps

  datatype GaloisElement = Element(value: nat) | StepTooLarge

  /** Power of 5 for a step: the step itself to the left, its complement in the slot count to the right. */
  function StepPower(n: nat, step: int): int
  {
    if step < 0 then n / 2 + step else step
  }

  function ElementOfStep(n: nat, step: int): GaloisElement
    requires n > 0
  {
    if step == 0 then Element(2 * n - 1)
    else if -(n / 2) < step < n / 2 then Element(Position(n, StepPower(n, step)))
    else StepTooLarge
  }

  /** The emulator's element of a rotation step; the step count must stay below half the ring degree. */
  method GetEltFromStep(n: nat, step: int) returns (elt: GaloisElement)
    requires n > 0
    ensures elt == ElementOfStep(n, step)
    ensures 0 < step < n / 2 ==> elt.Element? && Cong(elt.value, Pow(GENERATOR, step), 2 * n)
    ensures -(n / 2) < step < 0 ==> elt.Element? && Cong(elt.value, Pow(GENERATOR, n / 2 + step), 2 * n)
  {
    if step == 0 {
      return Element(2 * n - 1);
    }
    var posStep := if step < 0 then -step else step;
    if posStep >= n / 2 {
      return StepTooLarge;
    }
    SmallMod(posStep, 2 * n);
    posStep := posStep % (2 * n);
    var count: nat := if step < 0 then n / 2 - posStep else posStep;
    CongMod(Pow(GENERATOR, count), 2 * n);
    var value := PowerOfFive(n, count);
    return Element(value);
  }

  method PowerOfFive(n: nat, count: nat) returns (value: nat)
    requires n > 0
    ensures count > 0 ==> value == Position(n, count)
    ensures count == 0 ==> value == 1
  {
    value := 1;
    var left := count;
    CongMod(1, 2 * n);
    while left > 0
      invariant 0 <= left <= count && Cong(value, Pow(GENERATOR, count - left), 2 * n)
      invariant left < count ==> value < 2 * n
      invariant left == count ==> value == 1
    {
      CongMul(value, Pow(GENERATOR, count - left), GENERATOR, GENERATOR, 2 * n);
      CongMod(value * GENERATOR, 2 * n);
      value := Wrap(value * GENERATOR, n);
      left := left - 1;
    }
    if count > 0 {
      CongCanonical(value, Pow(GENERATOR, count), 2 * n);
    }
  }

  /** What the accelerator computes for any step. */
  function KernelElement(n: nat, step: int): nat
  {
    if !IsPowerOfTwo(n) || n < 2 then 0
    else if step == 0 then 2 * n - 1
    else
      var size: nat := if step < 0 then -step else step;
      var reduced := if size >= n / 2 then Wrap(size, n) else size;
      var count := if step < 0 then n / 2 - reduced else reduced;
      if count > 0 then Position(n, count) else 1
  }

  /** The element is odd and fits below 2n. */
  lemma KernelElementOdd(n: nat, step: int)
    requires IsPowerOfTwo(n) && n >= 2
    ensures KernelElement(n, step) % 2 == 1 && KernelElement(n, step) < 2 * n
  {
    var size: nat := if step < 0 then -step else step;
    var reduced := if size >= n / 2 then Wrap(size, n) else size;
    var count := if step < 0 then n / 2 - reduced else reduced;
    if step == 0 {
      OddForm(2 * n - 1, n - 1);
    } else if count > 0 {
      AnyPositionOdd(n, count);
    }
  }

  lemma AnyPositionOdd(n: nat, i: nat)
    requires n > 0
    ensures Position(n, i) % 2 == 1
  {
    PowOdd(i);
    var p := Pow(GENERATOR, i);
    CongMod(p, 2 * n);
    var k := CongQuotient(Wrap(p, n), p, 2 * n);
    var h := p / 2;
    Associate(k, 2, n);
    OddForm(Wrap(p, n), h + k * n);
  }

  lemma {:induction false} PowOdd(i: nat)
    ensures Pow(GENERATOR, i) % 2 == 1
  {
    if i > 0 {
      PowOdd(i - 1);
      OddForm(Pow(GENERATOR, i), 5 * (Pow(GENERATOR, i - 1) / 2) + 2);
    }
  }

  /** The accelerator's version: no exception; a right step of half the degree or more gives the identity
      unless it wraps. It agrees with the emulator on every step the emulator accepts. */
  method GaloisEltFromStep(n: nat, step: int) returns (elt: nat)
    ensures elt == KernelElement(n, step)
    ensures !(IsPowerOfTwo(n) && n >= 2) ==> elt == 0
    ensures IsPowerOfTwo(n) && n >= 2 && ElementOfStep(n, step).Element? ==> elt == ElementOfStep(n, step).value
    ensures IsPowerOfTwo(n) && 0 < step < n / 2 ==> Cong(elt, Pow(GENERATOR, step), 2 * n)
    ensures IsPowerOfTwo(n) && -(n / 2) < step < 0 ==> Cong(elt, Pow(GENERATOR, n / 2 + step), 2 * n)
  {
    if !IsPowerOfTwo(n) || n < 2 {
      return 0;
    }
    if step == 0 {
      return 2 * n - 1;
    }
    var posStep: nat := if step < 0 then -step else step;
    if posStep >= n / 2 {
      posStep := Wrap(posStep, n);
    }
    var adjusted := if step < 0 then n / 2 - posStep else posStep;
    CongMod(Pow(GENERATOR, if adjusted > 0 then adjusted else 0), 2 * n);
    elt := PowerOfFive(n, if adjusted > 0 then adjusted else 0);
  }

  // ----- rotations are cyclic shifts of the slots

  /** Powers of 5 repeat after n / 2. */
  lemma PositionPeriod(n: nat, i: nat)
    requires IsPowerOfTwo(n) && n >= 4
    ensures Position(n, i + n / 2) == Position(n, i)
  {
    hide *;
    PowerOfTwoHalves(n);
    var k: nat := TrailingZeros(n) - 1;
    SelfMultiple(n / 2);
    FullOrder(n / 2, k);
    TwiceSpan(n, k);
    PowAdd(GENERATOR, i, n / 2);
    PositionRepeats(n, i, n / 2);
  }

  lemma TwiceSpan(n: nat, k: nat)
    requires n % 4 == 0 && Pow2(k) == n / 2
    ensures Pow2(k + 2) == 2 * n
  {
    assert Pow2(k + 2) == 2 * Pow2(k + 1) && Pow2(k + 1) == 2 * Pow2(k);
  }

  lemma PositionRepeats(n: nat, i: nat, d: nat)
    requires n > 0 && Cong(Pow(GENERATOR, d), 1, 2 * n) && Pow(GENERATOR, i + d) == Pow(GENERATOR, i) * Pow(GENERATOR, d)
    ensures Position(n, i + d) == Position(n, i)
  {
    hide Pow;
    CongMul(Pow(GENERATOR, i), Pow(GENERATOR, i), Pow(GENERATOR, d), 1, 2 * n);
  }

  /** Multiplying exponents by 5^c moves slot i to slot i + c, cyclically within its half. */
  function ShiftedSlot(n: nat, i: nat, c: nat): nat
    requires n >= 2
  {
    if i < n / 2 then (if i + c < n / 2 then i + c else i + c - n / 2)
    else (if i + c < n then i + c else i + c - n / 2)
  }

  lemma ShiftedExponent(n: nat, i: nat, c: nat)
    requires IsPowerOfTwo(n) && n >= 4 && n % 2 == 0 && i < n && c < n / 2
    ensures ShiftedSlot(n, i, c) < n
    ensures Carries(n, Position(n, c), i, ShiftedSlot(n, i, c))
  {
    var a := if i < n / 2 then i else i - n / 2;
    ShiftedPosition(n, a, c);
    if i >= n / 2 {
      var b := if a + c < n / 2 then a + c else a + c - n / 2;
      PositionIsOdd(n, b);
      NegatedProduct(Position(n, c), Position(n, a), Position(n, b), n);
    }
  }

  lemma ShiftedPosition(n: nat, a: nat, c: nat)
    requires IsPowerOfTwo(n) && n >= 4 && a < n / 2 && c < n / 2
    ensures Wrap(Position(n, c) * Position(n, a), n) == Position(n, if a + c < n / 2 then a + c else a + c - n / 2)
  {
    ProductPosition(n, c, a);
    if a + c >= n / 2 {
      PositionPeriod(n, a + c - n / 2);
    }
  }

  lemma ProductPosition(n: nat, a: nat, b: nat)
    requires n > 0
    ensures Wrap(Position(n, a) * Position(n, b), n) == Position(n, a + b)
  {
    CongMod(Pow(GENERATOR, a), 2 * n);
    CongMod(Pow(GENERATOR, b), 2 * n);
    CongMul(Position(n, a), Pow(GENERATOR, a), Position(n, b), Pow(GENERATOR, b), 2 * n);
    PowAdd(GENERATOR, a, b);
    Commute(a, b);
  }

  lemma NegatedProduct(g: nat, p: nat, r: nat, n: nat)
    requires n > 0 && Wrap(g * p, n) == r && r > 0
    ensures Wrap(g * (2 * n - p), n) == 2 * n - r
  {
    var s: int := 2 * n;
    CongMod(g * p, s);
    var k := CongQuotient(g * p, r, s);
    assert g * (s - p) == g * s - g * p;
    assert g * s - k * s - s == (g - k - 1) * s;
    CongFrom(g * (s - p), s - r, g - k - 1, s);
    SmallMod(s - r, s);
  }

  /** The source of slot k is the slot whose exponent is g times as large. */
  lemma SourceAt(n: nat, g: nat, k: nat, t: nat)
    requires IsPowerOfTwo(n) && g % 2 == 1 && k < n && t < n && Wrap(g * Slot(n, k), n) == Slot(n, t)
    ensures SourceIndex(n, g, k) == t
  {
    SourceExponent(n, g, k);
    RevInjective(SourceIndex(n, g, k), t, TrailingZeros(n));
  }

  /** An automorphism by 5^c, read through the index map, is a cyclic shift by c on both halves of the slots. */
  lemma RotationShifts(a: seq<int>, table: seq<nat>, c: nat, i: nat)
    requires IsPowerOfTwo(|a|) && |a| >= 4 && IsIndexMap(table, |a|) && c < |a| / 2 && i < |a|
    ensures ShiftedSlot(|a|, i, c) < |a|
    ensures GaloisPermuted(a, Position(|a|, c))[table[i]] == a[table[ShiftedSlot(|a|, i, c)]]
  {
    var n := |a|;
    EvenDegree(n);
    ShiftedExponent(n, i, c);
    var t := ShiftedSlot(n, i, c);
    assert EntryRight(table[i], n, i) && EntryRight(table[t], n, t);
    PositionIsOdd(n, c);
    EntrySource(n, Position(n, c), i, t, table[i], table[t]);
  }

  /** Step 0 is conjugation: it exchanges the halves of the slots. */
  lemma ConjugationSwaps(a: seq<int>, table: seq<nat>, i: nat)
    requires IsPowerOfTwo(|a|) && |a| >= 4 && IsIndexMap(table, |a|) && i < |a|
    ensures GaloisPermuted(a, 2 * |a| - 1)[table[i]] == a[table[if i < |a| / 2 then i + |a| / 2 else i - |a| / 2]]
  {
    EvenDegree(|a|);
    var t := if i < |a| / 2 then i + |a| / 2 else i - |a| / 2;
    assert EntryRight(table[i], |a|, i) && EntryRight(table[t], |a|, t);
    ConjugateSource(|a|, 2 * |a| - 1, i, t, table[i], table[t]);
  }

  lemma ConjugateSource(n: nat, g: nat, i: nat, t: nat, u: nat, v: nat)
    requires IsPowerOfTwo(n) && n >= 4 && n % 2 == 0 && g == 2 * n - 1
    requires i < n && t == (if i < n / 2 then i + n / 2 else i - n / 2)
    requires EntryRight(u, n, i) && EntryRight(v, n, t)
    ensures SourceIndex(n, g, u) == v
  {
    OtherHalf(n, g, i, t);
    EntrySource(n, g, i, t, u, v);
  }

  /** g carries the exponent of entry i to the exponent of entry t. */
  ghost predicate Carries(n: nat, g: nat, i: nat, t: nat)
    requires n > 0
  {
    Wrap(g * SlotExponent(n, i), n) == SlotExponent(n, t)
  }

  /** Then the slot of entry i is read from the slot of entry t. */
  lemma EntrySource(n: nat, g: nat, i: nat, t: nat, u: nat, v: nat)
    requires IsPowerOfTwo(n) && g % 2 == 1 && EntryRight(u, n, i) && EntryRight(v, n, t)
    requires Carries(n, g, i, t)
    ensures SourceIndex(n, g, u) == v
  {
    SourceAt(n, g, u, v);
  }

  lemma OtherHalf(n: nat, g: nat, i: nat, t: nat)
    requires IsPowerOfTwo(n) && n >= 4 && n % 2 == 0 && g == 2 * n - 1
    requires i < n && t == (if i < n / 2 then i + n / 2 else i - n / 2)
    ensures g % 2 == 1 && Carries(n, g, i, t)
  {
    PositionIsOdd(n, if i < n / 2 then i else i - n / 2);
    NegatedExponent(SlotExponent(n, i), g, n);
  }

  lemma NegatedExponent(e: nat, g: nat, n: nat)
    requires 0 < e < 2 * n && g == 2 * n - 1
    ensures Wrap(g * e, n) == 2 * n - e
  {
    var s := 2 * n;
    assert g * e == (s - e) + (e - 1) * s;
    CongFrom(g * e, s - e, e - 1, s);
    SmallMod(s - e, s);
  }

  /** The permutation of step -r undoes the permutation of step r. */
  lemma OppositeStepsCancel(a: seq<int>, step: int)
    requires IsPowerOfTwo(|a|) && |a| >= 4 && step != 0 && -(|a| / 2) < step < |a| / 2
    ensures ElementOfStep(|a|, step).Element? && ElementOfStep(|a|, -step).Element?
    ensures GaloisPermuted(GaloisPermuted(a, ElementOfStep(|a|, step).value), ElementOfStep(|a|, -step).value) == a
  {
    var n := |a|;
    var g, h := Position(n, StepPower(n, step)), Position(n, StepPower(n, -step));
    PositionIsOdd(n, StepPower(n, step));
    PositionIsOdd(n, StepPower(n, -step));
    OppositeElements(n, StepPower(n, step), StepPower(n, -step));
    forall k: nat | k < n
      ensures GaloisPermuted(GaloisPermuted(a, g), h)[k] == a[k]
    {
      InverseSource(n, g, h, k);
    }
  }

  lemma OppositeElements(n: nat, c: nat, d: nat)
    requires IsPowerOfTwo(n) && n >= 4 && c + d == n / 2
    ensures Wrap(Position(n, c) * Position(n, d), n) == 1
  {
    ProductPosition(n, c, d);
    PositionPeriod(n, 0);
    SmallMod(1, 2 * n);
  }

  lemma InverseSource(n: nat, g: nat, h: nat, k: nat)
    requires IsPowerOfTwo(n) && g % 2 == 1 && h % 2 == 1 && k < n && Wrap(g * h, n) == 1
    ensures SourceIndex(n, h, k) < n && SourceIndex(n, g, SourceIndex(n, h, k)) == k
  {
    SourceExponent(n, h, k);
    CancelElements(g, h, Slot(n, k), n);
    SourceAt(n, g, SourceIndex(n, h, k), k);
  }

  lemma CancelElements(g: nat, h: nat, e: nat, n: nat)
    requires n > 0 && e < 2 * n && Wrap(g * h, n) == 1
    ensures Wrap(g * Wrap(h * e, n), n) == e
  {
    var s := 2 * n;
    CongMod(h * e, s);
    CongMul(g, g, Wrap(h * e, n), h * e, s);
    SmallMod(1, s);
    CongMul(g * h, 1, e, e, s);
    Associate(g, h, e);
    SmallMod(e, s);
  }
}
