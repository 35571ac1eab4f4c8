/** The permutation network of the accelerator: 2 * levels layers of two-way switches driven by a control
    word. Every word permutes, the word with its layers reversed undoes it, and every permutation has a word. */
module Benes {
  import opened Polynomials

  /** Switch settings by layer and switch. */
  type Control = (nat, nat) -> bool

  // ----- one layer

  /** Log of the block side of a layer: halving towards the middle, doubling after it. */
  function BlockBits(levels: nat, level: nat): (b: nat)
    requires level < 2 * levels
    ensures 1 <= b <= levels
  {
    if level < levels then levels - level else 1 + level - levels
  }

  /** A layer over the whole sequence: switch k exchanges positions k and k + half. */
  function Exchange<T>(a: seq<T>, half: nat, switches: nat -> bool): (r: seq<T>)
    requires |a| == 2 * half
    ensures |r| == |a|
    ensures forall k: nat :: k < half ==> r[k] == if switches(k) then a[k + half] else a[k]
    ensures forall k: nat :: k < half ==> r[k + half] == if switches(k) then a[k] else a[k + half]
  {
    seq(|a|, j requires 0 <= j < |a| =>
      if j < half then (if switches(j) then a[j + half] else a[j])
      else (if switches(j - half) then a[j - half] else a[j]))
  }

  function Offset(switches: nat -> bool, n: nat): nat -> bool
  {
    (k: nat) => switches(k + n)
  }

  /** A layer over blocks of side 2^b: the switches of the lower half come first. */
  function ApplyLayer<T>(a: seq<T>, levels: nat, b: nat, switches: nat -> bool): (r: seq<T>)
    requires |a| == Pow2(levels) && 1 <= b <= levels
    ensures |r| == |a|
    decreases levels
  {
    var half := Pow2(levels - 1);
    if b == levels then Exchange(a, half, switches)
    else
      ApplyLayer(a[..half], levels - 1, b, switches)
      + ApplyLayer(a[half..], levels - 1, b, Offset(switches, Pow2(levels - 2)))
  }

  lemma {:induction false} LayerExt<T>(a: seq<T>, levels: nat, b: nat, f: nat -> bool, g: nat -> bool)
    requires |a| == Pow2(levels) && 1 <= b <= levels
    requires forall k: nat :: k < Pow2(levels - 1) ==> f(k) == g(k)
    ensures ApplyLayer(a, levels, b, f) == ApplyLayer(a, levels, b, g)
    decreases levels
  {
    var half := Pow2(levels - 1);
    if b == levels {
      assert Exchange(a, half, f) == Exchange(a, half, g) by {
        forall j | 0 <= j < |a|
          ensures Exchange(a, half, f)[j] == Exchange(a, half, g)[j]
        {
          if j >= half {
            var k := j - half;
            assert Exchange(a, half, f)[k + half] == Exchange(a, half, g)[k + half];
          }
        }
      }
    } else {
      var n := Pow2(levels - 2);
      LayerExt(a[..half], levels - 1, b, f, g);
      LayerExt(a[half..], levels - 1, b, Offset(f, n), Offset(g, n));
    }
  }

  /** A layer is its own inverse. */
  lemma {:induction false} LayerInvolution<T>(a: seq<T>, levels: nat, b: nat, switches: nat -> bool)
    requires |a| == Pow2(levels) && 1 <= b <= levels
    ensures ApplyLayer(ApplyLayer(a, levels, b, switches), levels, b, switches) == a
    decreases levels
  {
    var half := Pow2(levels - 1);
    if b == levels {
      ExchangeInvolution(a, half, switches);
    } else {
      var upper := Offset(switches, Pow2(levels - 2));
      LayerInvolution(a[..half], levels - 1, b, switches);
      LayerInvolution(a[half..], levels - 1, b, upper);
      var r := ApplyLayer(a, levels, b, switches);
      assert r[..half] == ApplyLayer(a[..half], levels - 1, b, switches);
      assert r[half..] == ApplyLayer(a[half..], levels - 1, b, upper);
      assert a == a[..half] + a[half..];
    }
  }

  lemma ExchangeInvolution<T>(a: seq<T>, half: nat, switches: nat -> bool)
    requires |a| == 2 * half
    ensures Exchange(Exchange(a, half, switches), half, switches) == a
  {
    var r := Exchange(a, half, switches);
    forall j | 0 <= j < |a|
      ensures Exchange(r, half, switches)[j] == a[j]
    {
      var k := if j < half then j else j - half;
      assert r[k] == if switches(k) then a[k + half] else a[k];
      assert r[k + half] == if switches(k) then a[k] else a[k + half];
    }
  }

  // ----- the network, layer after layer

  function Row(c: Control, level: nat): nat -> bool
  {
    (k: nat) => c(level, k)
  }

  /** Layers `start` up to `end`. */
  function Layers<T>(a: seq<T>, levels: nat, c: Control, start: nat, end: nat): (r: seq<T>)
    requires |a| == Pow2(levels) && start <= end <= 2 * levels
    ensures |r| == |a|
    decreases end
  {
    if start == end then a
    else ApplyLayer(Layers(a, levels, c, start, end - 1), levels, BlockBits(levels, end - 1), Row(c, end - 1))
  }

  function Network<T>(a: seq<T>, levels: nat, c: Control): (r: seq<T>)
    requires |a| == Pow2(levels)
    ensures |r| == |a|
  {
    Layers(a, levels, c, 0, 2 * levels)
  }

  lemma {:induction false} LayersSplit<T>(a: seq<T>, levels: nat, c: Control, start: nat, mid: nat, end: nat)
    requires |a| == Pow2(levels) && start <= mid <= end <= 2 * levels
    ensures Layers(a, levels, c, start, end) == Layers(Layers(a, levels, c, start, mid), levels, c, mid, end)
    decreases end
  {
    if mid != end {
      LayersSplit(a, levels, c, start, mid, end - 1);
    }
  }

  // ----- reversal

  /** The control with its layers in reverse order. */
  function Reversed(c: Control, levels: nat): Control
  {
    (level: nat, k: nat) => if level < 2 * levels then c(2 * levels - 1 - level, k) else false
  }

  /** The reversed control undoes the network. */
  lemma NetworkReverses<T>(a: seq<T>, levels: nat, c: Control)
    requires |a| == Pow2(levels)
    ensures Network(Network(a, levels, c), levels, Reversed(c, levels)) == a
  {
    PrefixReverses(a, levels, c, 2 * levels);
  }

  lemma {:induction false} PrefixReverses<T>(a: seq<T>, levels: nat, c: Control, n: nat)
    requires |a| == Pow2(levels) && n <= 2 * levels
    ensures Layers(Layers(a, levels, c, 0, n), levels, Reversed(c, levels), 2 * levels - n, 2 * levels) == a
  {
    if n > 0 {
      var top, mirror: nat := n - 1, 2 * levels - n;
      var b := Layers(a, levels, c, 0, top);
      var bits := BlockBits(levels, top);
      var r := Reversed(c, levels);
      var d := Layers(a, levels, c, 0, n);
      LayersSplit(d, levels, r, mirror, mirror + 1, 2 * levels);
      assert Layers(d, levels, r, mirror, mirror) == d;
      assert Layers(d, levels, r, mirror, mirror + 1) == ApplyLayer(d, levels, bits, Row(r, mirror));
      LayerExt(d, levels, bits, Row(r, mirror), Row(c, top));
      LayerInvolution(b, levels, bits, Row(c, top));
      PrefixReverses(a, levels, c, top);
    }
  }

  // ----- the same permutation for all values

  function Gather<T>(a: seq<T>, s: seq<nat>): seq<T>
    requires forall j: nat :: j < |s| ==> s[j] < |a|
  {
    seq(|s|, j requires 0 <= j < |s| => a[s[j]])
  }

  ghost predicate Sources(s: seq<nat>, n: nat)
  {
    forall j: nat :: j < |s| ==> s[j] < n
  }

  lemma {:induction false} LayerGathers<T>(a: seq<T>, s: seq<nat>, levels: nat, b: nat, switches: nat -> bool)
    requires |s| == Pow2(levels) && 1 <= b <= levels && Sources(s, |a|)
    ensures Sources(ApplyLayer(s, levels, b, switches), |a|)
    ensures ApplyLayer(Gather(a, s), levels, b, switches) == Gather(a, ApplyLayer(s, levels, b, switches))
    decreases levels
  {
    var half := Pow2(levels - 1);
    if b == levels {
      ExchangeGathers(a, s, half, switches);
    } else {
      var upper := Offset(switches, Pow2(levels - 2));
      LayerGathers(a, s[..half], levels - 1, b, switches);
      LayerGathers(a, s[half..], levels - 1, b, upper);
      GatherHalves(a, s, half);
      GatherConcat(a, ApplyLayer(s[..half], levels - 1, b, switches), ApplyLayer(s[half..], levels - 1, b, upper));
      hide Gather, Sources, Pow2;
    }
  }

  lemma GatherHalves<T>(a: seq<T>, s: seq<nat>, half: nat)
    requires half <= |s| && Sources(s, |a|)
    ensures Gather(a, s)[..half] == Gather(a, s[..half])
    ensures Gather(a, s)[half..] == Gather(a, s[half..])
  {
  }

  lemma GatherConcat<T>(a: seq<T>, s: seq<nat>, t: seq<nat>)
    requires Sources(s, |a|) && Sources(t, |a|)
    ensures Sources(s + t, |a|)
    ensures Gather(a, s + t) == Gather(a, s) + Gather(a, t)
  {
  }

  lemma ExchangeGathers<T>(a: seq<T>, s: seq<nat>, half: nat, switches: nat -> bool)
    requires |s| == 2 * half && Sources(s, |a|)
    ensures Sources(Exchange(s, half, switches), |a|)
    ensures Exchange(Gather(a, s), half, switches) == Gather(a, Exchange(s, half, switches))
  {
    var t := Exchange(s, half, switches);
    forall j: nat | j < |s|
      ensures t[j] < |a| && Exchange(Gather(a, s), half, switches)[j] == a[t[j]]
    {
      var k := if j < half then j else j - half;
      assert t[k] == if switches(k) then s[k + half] else s[k];
      assert t[k + half] == if switches(k) then s[k] else s[k + half];
      assert Exchange(Gather(a, s), half, switches)[k + half] == if switches(k) then Gather(a, s)[k] else Gather(a, s)[k + half];
    }
  }

  lemma {:induction false} LayersGather<T>(a: seq<T>, s: seq<nat>, levels: nat, c: Control, end: nat)
    requires |s| == Pow2(levels) && end <= 2 * levels && Sources(s, |a|)
    ensures Sources(Layers(s, levels, c, 0, end), |a|)
    ensures Layers(Gather(a, s), levels, c, 0, end) == Gather(a, Layers(s, levels, c, 0, end))
  {
    if end > 0 {
      LayersGather(a, s, levels, c, end - 1);
      LayerGathers(a, Layers(s, levels, c, 0, end - 1), levels, BlockBits(levels, end - 1), Row(c, end - 1));
    }
  }

  function Iota(n: nat): (s: seq<nat>)
    ensures |s| == n && forall j: nat :: j < n ==> s[j] == j
  {
    seq(n, j => j)
  }

  /** Where each output of the network comes from. */
  function Routing(levels: nat, c: Control): (s: seq<nat>)
    ensures |s| == Pow2(levels)
  {
    Network(Iota(Pow2(levels)), levels, c)
  }

  ghost predicate IsPermutation(s: seq<nat>)
  {
    Sources(s, |s|) && forall i: nat, j: nat :: i < |s| && j < |s| && s[i] == s[j] ==> i == j
  }

  /** For a fixed control the network applies one permutation, whatever the values. */
  lemma NetworkPermutes<T>(a: seq<T>, levels: nat, c: Control)
    requires |a| == Pow2(levels)
    ensures IsPermutation(Routing(levels, c))
    ensures Network(a, levels, c) == Gather(a, Routing(levels, c))
  {
    var iota := Iota(|a|);
    var s := Routing(levels, c);
    assert Gather(a, iota) == a;
    LayersGather(a, iota, levels, c, 2 * levels);
    // injective, because gathering by it brings the reversed routing back to 0, 1, 2, ...
    var back := Routing(levels, Reversed(c, levels));
    NetworkReverses(iota, levels, Reversed(c, levels));
    ControlExt(back, levels, Reversed(Reversed(c, levels), levels), c, 2 * levels);
    LayersGather(iota, iota, levels, Reversed(c, levels), 2 * levels);
    LayersGather(iota, iota, levels, c, 2 * levels);
    assert Gather(iota, iota) == iota;
    LayersGather(back, iota, levels, c, 2 * levels);
    assert Gather(back, iota) == back;
    assert Gather(back, s) == iota;
    LeftInverse(s, back);
  }

  lemma LeftInverse(s: seq<nat>, back: seq<nat>)
    requires |s| == |back| && Sources(s, |s|) && Gather(back, s) == Iota(|s|)
    ensures IsPermutation(s)
  {
    forall i: nat, j: nat | i < |s| && j < |s| && s[i] == s[j]
      ensures i == j
    {
      assert Gather(back, s)[i] == i && Gather(back, s)[j] == j;
    }
  }

  /** Only the switches of the network matter. */
  lemma {:induction false} ControlExt<T>(a: seq<T>, levels: nat, c: Control, d: Control, end: nat)
    requires |a| == Pow2(levels) && end <= 2 * levels
    requires forall level: nat, k: nat :: level < end && k < Pow2(levels - 1) ==> c(level, k) == d(level, k)
    ensures Layers(a, levels, c, 0, end) == Layers(a, levels, d, 0, end)
  {
    if end > 0 {
      ControlExt(a, levels, c, d, end - 1);
      LayerExt(Layers(a, levels, c, 0, end - 1), levels, BlockBits(levels, end - 1), Row(c, end - 1), Row(d, end - 1));
    }
  }
}
