/** Powers of two and bit reversal. Shifts and masks of the source are written as division, remainder and
    multiplication by powers of two. */
module Bits {
  import opened Polynomials

  /** Count of trailing zero bits. */
  function TrailingZeros(v: nat): nat
    decreases v
  {
    if v == 0 || v % 2 == 1 then 0 else 1 + TrailingZeros(v / 2)
  }

  predicate IsPowerOfTwo(v: nat)
  {
    v > 0 && Pow2(TrailingZeros(v)) == v
  }

  lemma {:induction false} TrailingZerosPow2(n: nat)
    ensures TrailingZeros(Pow2(n)) == n && IsPowerOfTwo(Pow2(n))
  {
    if n == 0 {
    } else {
      TrailingZerosPow2(n - 1);
      assert Pow2(n) % 2 == 0 && Pow2(n) / 2 == Pow2(n - 1);
    }
  }

  lemma {:induction false} Pow2Add(a: nat, b: nat)
    ensures Pow2(a + b) == Pow2(a) * Pow2(b)
  {
    if a == 0 {
    } else {
      Pow2Add(a - 1, b);
      assert 2 * (Pow2(a - 1) * Pow2(b)) == (2 * Pow2(a - 1)) * Pow2(b);
    }
  }

  lemma {:induction false} Pow2Increasing(a: nat, b: nat)
    requires a <= b
    ensures Pow2(a) <= Pow2(b)
    decreases b
  {
    if a < b {
      Pow2Increasing(a, b - 1);
    }
  }

  /** The low `bits` bits of x in reverse order. */
  function Rev(x: nat, bits: nat): nat
    ensures Rev(x, bits) < Pow2(bits)
  {
    if bits == 0 then 0 else (x % 2) * Pow2(bits - 1) + Rev(x / 2, bits - 1)
  }

  /** Bit i of the reversed number is bit bits - 1 - i of the number. */
  lemma {:induction false} RevBit(x: nat, bits: nat, i: nat)
    requires i < bits
    ensures x / Pow2(bits - 1 - i) >= 0 && (Rev(x, bits) / Pow2(i)) % 2 == (x / Pow2(bits - 1 - i)) % 2
  {
    hide *;
    var top, rest := Pow2(bits - 1), Rev(x / 2, bits - 1);
    RevFirst(x, bits);
    if i == bits - 1 {
      HighPart(x % 2, rest, top);
      LastBit(x);
    } else {
      RevBit(x / 2, bits - 1, i);
      var h := Pow2(bits - 2 - i);
      Pow2Split(bits, i);
      HalveAgain(x, h);
      LowerBit(x % 2, rest, h, Pow2(i));
    }
  }

  lemma RevFirst(x: nat, bits: nat)
    requires bits > 0
    ensures Rev(x, bits) == (x % 2) * Pow2(bits - 1) + Rev(x / 2, bits - 1)
  {
  }

  lemma LastBit(x: nat)
    ensures x / Pow2(0) == x && (x % 2) % 2 == x % 2
  {
  }

  lemma Pow2Split(bits: nat, i: nat)
    requires i + 1 < bits
    ensures Pow2(bits - 1) == 2 * (Pow2(bits - 2 - i) * Pow2(i)) && Pow2(bits - 1 - i) == 2 * Pow2(bits - 2 - i)
  {
    Pow2Add(bits - 2 - i, i);
  }

  lemma HighPart(b: nat, r: nat, m: nat)
    requires b < 2 && r < m
    ensures (b * m + r) / m == b
  {
    if b == 0 {
      SmallQuotient(r, m, 0, r);
    } else {
      SmallQuotient(m + r, m, 1, r);
    }
  }

  lemma SmallQuotient(a: nat, m: nat, q: int, r: nat)
    requires r < m && a == m * q + r
    ensures a / m == q
  {
    var d := a / m - q;
    assert a == m * (a / m) + a % m;
    assert m * d == m * (a / m) - m * q;
    FarMultiple(m, d);
  }

  lemma FarMultiple(m: int, d: int)
    requires m > 0
    ensures d >= 1 ==> m * d >= m
    ensures d <= -1 ==> m * d <= -m
  {
  }

  lemma HalveAgain(x: nat, m: nat)
    requires m > 0
    ensures x / (2 * m) == (x / 2) / m
  {
    var q, r := (x / 2) / m, (x / 2) % m;
    assert x / 2 == m * q + r;
    assert x == (2 * m) * q + (2 * r + x % 2);
    SmallQuotient(x, 2 * m, q, 2 * r + x % 2);
  }

  /** A multiple of 2hm does not reach the bit at m. */
  lemma LowerBit(b: nat, r: nat, h: nat, m: nat)
    requires b < 2 && m > 0
    ensures (b * (2 * (h * m)) + r) / m >= 0 && ((b * (2 * (h * m)) + r) / m) % 2 == (r / m) % 2
  {
    var q, s := r / m, r % m;
    assert r == m * q + s;
    assert b * (2 * (h * m)) == m * (2 * (b * h));
    assert m * (2 * (b * h)) + m * q == m * (2 * (b * h) + q);
    SmallQuotient(b * (2 * (h * m)) + r, m, 2 * (b * h) + q, s);
    EvenMore(b * h, q);
  }

  lemma EvenMore(t: int, q: int)
    ensures (2 * t + q) % 2 == q % 2
  {
  }

  lemma {:induction false} RevHighBit(h: nat, y: nat, bits: nat)
    requires h < 2 && y < Pow2(bits)
    ensures Rev(h * Pow2(bits) + y, bits + 1) == 2 * Rev(y, bits) + h
  {
    var x := h * Pow2(bits) + y;
    if bits == 0 {
      assert x == h;
      assert Rev(x / 2, 0) == 0;
    } else {
      var half := h * Pow2(bits - 1);
      DoubleProduct(h, Pow2(bits - 1));
      DoubleProduct(y % 2, Pow2(bits - 1));
      assert x == 2 * half + y;
      RevHighBit(h, y / 2, bits - 1);
    }
  }

  lemma RevTopBit(y: nat, p: nat, bits: nat)
    requires y < p == Pow2(bits)
    ensures Rev(p + y, bits + 1) == 2 * Rev(y, bits) + 1
  {
    hide Rev, Pow2;
    RevHighBit(1, y, bits);
  }

  lemma OddForm(x: int, h: int)
    requires x == 2 * h + 1
    ensures x % 2 == 1
  {
  }

  lemma HalfForm(e: nat, h: nat)
    requires e == 2 * h + 1
    ensures (e - 1) / 2 == h
  {
  }

  lemma DoubleProduct(a: int, b: int)
    ensures a * (2 * b) == 2 * (a * b)
  {
  }

  lemma {:induction false} RevInvolution(x: nat, bits: nat)
    requires x < Pow2(bits)
    ensures Rev(Rev(x, bits), bits) == x
  {
    if bits == 0 {
    } else {
      RevInvolution(x / 2, bits - 1);
      RevHighBit(x % 2, Rev(x / 2, bits - 1), bits - 1);
    }
  }

  lemma RevInjective(x: nat, y: nat, bits: nat)
    requires x < Pow2(bits) && y < Pow2(bits) && Rev(x, bits) == Rev(y, bits)
    ensures x == y
  {
    RevInvolution(x, bits);
    RevInvolution(y, bits);
  }

  /** Exponent of the least power of two that reaches `value`. */
  method Log2(value: nat) returns (log: nat)
    ensures value <= Pow2(log) && (log == 0 || Pow2(log - 1) < value)
    ensures IsPowerOfTwo(value) ==> log == TrailingZeros(value)
  {
    log := 0;
    var power := 1;
    while power < value
      invariant power == Pow2(log)
      invariant log == 0 || Pow2(log - 1) < value
      decreases value - power
    {
      log := log + 1;
      power := 2 * power;
    }
    if IsPowerOfTwo(value) {
      var n := TrailingZeros(value);
      if n < log {
        Pow2Increasing(n, log - 1);
      } else if log < n {
        Pow2Increasing(log, n - 1);
      }
    }
  }

  lemma PushBit(r: nat, bit: nat, p: nat)
    ensures (2 * r + bit) * p == r * (2 * p) + bit * p
  {
  }

  /** The shift-and-or loop. */
  method ReverseBits(value: nat, bits: nat) returns (reversed: nat)
    ensures reversed == Rev(value, bits)
  {
    reversed := 0;
    var x: nat := value;
    for b := 0 to bits
      invariant Rev(value, bits) == reversed * Pow2(bits - b) + Rev(x, bits - b)
    {
      PushBit(reversed, x % 2, Pow2(bits - b - 1));
      reversed := 2 * reversed + x % 2;
      x := x / 2;
    }
    assert reversed * Pow2(0) == reversed;
  }
}
