/** Every permutation is realised by the network: two-colouring the outputs splits a permutation into two
    half-size ones, each routed by an inner network. */
module BenesRouting {
  import opened Polynomials
  import opened Benes
  import opened Counting

  // ----- two-colouring the union of two perfect matchings

  ghost predicate Matching(a: map<nat, nat>, s: set<nat>)
  {
    a.Keys == s && forall x: nat :: x in s ==> a[x] in s && a[x] != x && a[a[x]] == x
  }

  ghost predicate Colours(col: map<nat, bool>, a: map<nat, nat>, s: set<nat>)
  {
    && a.Keys == s && col.Keys == s
    && forall x: nat :: x in s ==> a[x] in s && col[x] != col[a[x]]
  }

  /** Matched without x and y, whose old mates u and v are matched with each other. */
  function Contract(b: map<nat, nat>, x: nat, y: nat): map<nat, nat>
    requires x in b && y in b
  {
    map z | z in b && z != x && z != y :: if z == b[x] then b[y] else if z == b[y] then b[x] else b[z]
  }

  lemma ContractMatches(b: map<nat, nat>, s: set<nat>, x: nat, y: nat)
    requires Matching(b, s) && x in s && y in s && x != y
    ensures Matching(Contract(b, x, y), s - {x, y})
  {
    var c, t := Contract(b, x, y), s - {x, y};
    assert c.Keys == t;
    forall z: nat | z in t
      ensures c[z] in t && c[z] != z && c[c[z]] == z
    {
      assert b[b[z]] == z;
      assert b[b[x]] == x && b[b[y]] == y;
    }
  }

  /** Two perfect matchings on the same set have a common proper two-colouring. */
  lemma {:induction false} TwoColour(s: set<nat>, a: map<nat, nat>, b: map<nat, nat>) returns (col: map<nat, bool>)
    requires Matching(a, s) && Matching(b, s)
    ensures Colours(col, a, s) && Colours(col, b, s)
    decreases s
  {
    if s == {} {
      return map[];
    }
    var x :| x in s;
    var y := a[x];
    ContractMatches(a, s, x, y);
    ContractMatches(b, s, x, y);
    var rest := TwoColour(s - {x, y}, Contract(a, x, y), Contract(b, x, y));
    col := Recolour(s, b, x, y, rest);
    ExtendColours(s, a, x, y, rest, col);
  }

  /** Gives x and y back, coloured against their mates. */
  lemma Recolour(s: set<nat>, b: map<nat, nat>, x: nat, y: nat, rest: map<nat, bool>) returns (col: map<nat, bool>)
    requires Matching(b, s) && x in s && y in s && x != y
    requires Colours(rest, Contract(b, x, y), s - {x, y})
    ensures col.Keys == s && Colours(col, b, s) && col[x] != col[y]
    ensures forall z: nat :: z in s - {x, y} ==> col[z] == rest[z]
  {
    hide Contract;
    if b[x] == y {
      col := Restored(s, x, y, rest, true, false);
      ExtendColours(s, b, x, y, rest, col);
    } else {
      MatesApart(b, s, x, y);
      col := Restored(s, x, y, rest, !rest[b[x]], !rest[b[y]]);
      ExtendAcross(s, b, x, y, rest, col);
    }
  }

  function Restored(s: set<nat>, x: nat, y: nat, rest: map<nat, bool>, f: bool, g: bool): (col: map<nat, bool>)
    requires x in s && y in s && x != y && rest.Keys == s - {x, y}
    ensures col.Keys == s && col[x] == f && col[y] == g
    ensures forall z: nat :: z in s - {x, y} ==> col[z] == rest[z]
  {
    rest[x := f][y := g]
  }

  lemma MatesApart(b: map<nat, nat>, s: set<nat>, x: nat, y: nat)
    requires Matching(b, s) && x in s && y in s && x != y && b[x] != y
    ensures b[x] in s - {x, y} && b[y] in s - {x, y} && Contract(b, x, y)[b[x]] == b[y]
  {
    assert b[b[x]] == x && b[b[y]] == y;
  }

  lemma ExtendAcross(s: set<nat>, b: map<nat, nat>, x: nat, y: nat, rest: map<nat, bool>, col: map<nat, bool>)
    requires Matching(b, s) && x in s && y in s && x != y && b[x] != y
    requires Colours(rest, Contract(b, x, y), s - {x, y})
    requires col.Keys == s && b[x] in rest && b[y] in rest && col[x] == !rest[b[x]] && col[y] == !rest[b[y]]
    requires forall z: nat :: z in s - {x, y} ==> col[z] == rest[z]
    ensures Colours(col, b, s) && col[x] != col[y]
  {
    MatesApart(b, s, x, y);
    forall z: nat | z in s
      ensures b[z] in s && col[z] != col[b[z]]
    {
      assert b[b[z]] == z;
      if z != x && z != y && z != b[x] && z != b[y] {
        assert Contract(b, x, y)[z] == b[z];
      }
    }
  }

  lemma ExtendColours(s: set<nat>, a: map<nat, nat>, x: nat, y: nat, rest: map<nat, bool>, col: map<nat, bool>)
    requires Matching(a, s) && x in s && y == a[x]
    requires Colours(rest, Contract(a, x, y), s - {x, y})
    requires col.Keys == s && x in col && y in col && col[x] != col[y]
    requires forall z: nat :: z in s - {x, y} ==> col[z] == rest[z]
    ensures Colours(col, a, s)
  {
    forall z: nat | z in s
      ensures a[z] in s && col[z] != col[a[z]]
    {
      assert a[a[z]] == z;
      if z != x && z != y {
        assert Contract(a, x, y)[z] == a[z];
      }
    }
  }

  // ----- the network as two outer layers around two inner networks

  /** Switches per layer of an inner network. */
  function InnerWidth(levels: nat): nat
  {
    if levels >= 2 then Pow2(levels - 2) else 0
  }

  /** First switch of the inner network on one half. */
  function InnerBase(levels: nat, side: bool): nat
  {
    if side then InnerWidth(levels) else 0
  }

  /** Control of the inner network on one half. */
  function Inner(c: Control, levels: nat, side: bool): Control
  {
    (level: nat, k: nat) => c(level + 1, k + InnerBase(levels, side))
  }

  lemma InnerAt(c: Control, levels: nat, side: bool, level: nat, k: nat)
    ensures Inner(c, levels, side)(level, k) == c(level + 1, if side then k + InnerWidth(levels) else k)
  {
    assert k + InnerBase(levels, side) == if side then k + InnerWidth(levels) else k;
  }

  lemma {:induction false} InnerLayers<T>(lower: seq<T>, upper: seq<T>, levels: nat, c: Control, end: nat)
    requires levels >= 1 && |lower| == |upper| == Pow2(levels - 1) && 1 <= end <= 2 * levels - 1
    ensures Layers(lower + upper, levels, c, 1, end)
         == Layers(lower, levels - 1, Inner(c, levels, false), 0, end - 1)
          + Layers(upper, levels - 1, Inner(c, levels, true), 0, end - 1)
    decreases end
  {
    if end > 1 {
      hide ApplyLayer, Pow2, Row, Inner, BlockBits, Layers;
      LayersNext(lower + upper, levels, c, 1, end);
      LayersNext(lower, levels - 1, Inner(c, levels, false), 0, end - 1);
      LayersNext(upper, levels - 1, Inner(c, levels, true), 0, end - 1);
      InnerBits(levels, end - 1);
      InnerLayers(lower, upper, levels, c, end - 1);
      InnerStep(Layers(lower, levels - 1, Inner(c, levels, false), 0, end - 2),
                Layers(upper, levels - 1, Inner(c, levels, true), 0, end - 2), levels, BlockBits(levels, end - 1), c, end - 1);
    }
  }

  /** A layer on blocks no larger than half works on the halves separately. */
  lemma InnerStep<T>(lower: seq<T>, upper: seq<T>, levels: nat, b: nat, c: Control, level: nat)
    requires levels >= 2 && level >= 1 && 1 <= b < levels && |lower| == |upper| == Pow2(levels - 1)
    ensures ApplyLayer(lower + upper, levels, b, Row(c, level))
         == ApplyLayer(lower, levels - 1, b, Row(Inner(c, levels, false), level - 1))
          + ApplyLayer(upper, levels - 1, b, Row(Inner(c, levels, true), level - 1))
  {
    var both, half := lower + upper, Pow2(levels - 1);
    assert both[..half] == lower && both[half..] == upper;
    forall k: nat | k < Pow2(levels - 2)
      ensures Row(c, level)(k) == Row(Inner(c, levels, false), level - 1)(k)
    {
      InnerAt(c, levels, false, level - 1, k);
    }
    LayerExt(lower, levels - 1, b, Row(c, level), Row(Inner(c, levels, false), level - 1));
    var shifted := Offset(Row(c, level), Pow2(levels - 2));
    var inner := Row(Inner(c, levels, true), level - 1);
    assert InnerBase(levels, true) == Pow2(levels - 2);
    forall k: nat | k < Pow2(levels - 2)
      ensures shifted(k) == inner(k)
    {
      InnerAt(c, levels, true, level - 1, k);
    }
    LayerExt(upper, levels - 1, b, shifted, Row(Inner(c, levels, true), level - 1));
  }

  /** The outer layers exchange the halves, the inner networks work within them. */
  lemma NetworkSplits<T>(a: seq<T>, levels: nat, c: Control)
    requires levels >= 1 && |a| == Pow2(levels)
    ensures var half := Pow2(levels - 1);
      var first := Exchange(a, half, Row(c, 0));
      Network(a, levels, c) == Exchange(Network(first[..half], levels - 1, Inner(c, levels, false))
                                        + Network(first[half..], levels - 1, Inner(c, levels, true)), half, Row(c, 2 * levels - 1))
  {
    hide ApplyLayer, Exchange, Row, Inner, BlockBits;
    var half := Pow2(levels - 1);
    var first := Exchange(a, half, Row(c, 0));
    LayersSplit(a, levels, c, 0, 1, 2 * levels - 1);
    assert Layers(a, levels, c, 0, 0) == a;
    FullLayer(a, levels, c, 0);
    assert Layers(a, levels, c, 0, 1) == first;
    FullLayer(Layers(a, levels, c, 0, 2 * levels - 1), levels, c, 2 * levels - 1);
    assert first == first[..half] + first[half..];
    InnerLayers(first[..half], first[half..], levels, c, 2 * levels - 1);
    NetworkIs(first[..half], levels - 1, Inner(c, levels, false));
    NetworkIs(first[half..], levels - 1, Inner(c, levels, true));
    hide Layers;
  }

  lemma LayersNext<T>(a: seq<T>, levels: nat, c: Control, start: nat, end: nat)
    requires |a| == Pow2(levels) && start < end <= 2 * levels
    ensures Layers(a, levels, c, start, end) == ApplyLayer(Layers(a, levels, c, start, end - 1), levels, BlockBits(levels, end - 1), Row(c, end - 1))
  {
    hide ApplyLayer, Pow2, Row, BlockBits;
  }

  /** An inner layer has the blocks of the layer around it. */
  lemma InnerBits(levels: nat, level: nat)
    requires 1 <= level <= 2 * levels - 2
    ensures levels >= 2 && BlockBits(levels, level) < levels && BlockBits(levels - 1, level - 1) == BlockBits(levels, level)
  {
  }

  lemma NetworkIs<T>(a: seq<T>, levels: nat, c: Control)
    requires |a| == Pow2(levels)
    ensures Network(a, levels, c) == Layers(a, levels, c, 0, 2 * levels)
  {
  }

  /** The first and the last layer exchange the halves. */
  lemma FullLayer<T>(a: seq<T>, levels: nat, c: Control, level: nat)
    requires levels >= 1 && |a| == Pow2(levels) && (level == 0 || level == 2 * levels - 1)
    ensures ApplyLayer(a, levels, BlockBits(levels, level), Row(c, level)) == Exchange(a, Pow2(levels - 1), Row(c, level))
  {
    hide Exchange;
  }

  // ----- routing a permutation

  ghost predicate Inverts(inv: seq<nat>, pi: seq<nat>)
  {
    && |inv| == |pi| && Sources(inv, |pi|) && Sources(pi, |pi|)
    && (forall j: nat :: j < |pi| ==> inv[pi[j]] == j)
    && (forall v: nat :: v < |pi| ==> pi[inv[v]] == v)
  }

  lemma InversePermutation(pi: seq<nat>) returns (inv: seq<nat>)
    requires IsPermutation(pi)
    ensures Inverts(inv, pi)
  {
    forall v: nat | v < |pi|
      ensures v in pi && pi[IndexOf(pi, v)] == v
    {
      Pigeonhole(pi, |pi|, v);
    }
    inv := seq(|pi|, v requires 0 <= v < |pi| => IndexOf(pi, v));
  }

  ghost function IndexOf(s: seq<nat>, v: nat): (j: nat)
    ensures v in s ==> j < |s| && s[j] == v
  {
    if v in s then
      var j: nat :| j < |s| && s[j] == v; j
    else 0
  }

  function Mate(x: nat, half: nat): nat
  {
    if x < half then x + half else x - half
  }

  /** Outputs coloured so that mates differ, and so do the outputs fed by mated inputs. */
  ghost predicate Coloured(col: seq<bool>, pi: seq<nat>, inv: seq<nat>, half: nat)
  {
    && Inverts(inv, pi) && |col| == |pi| == 2 * half
    && (forall j: nat :: j < 2 * half ==> MatesDiffer(col, half, j))
    && (forall x: nat :: x < 2 * half ==> FeedsDiffer(col, inv, half, x))
  }

  predicate MatesDiffer(col: seq<bool>, half: nat, j: nat)
  {
    j < |col| && Mate(j, half) < |col| && col[j] != col[Mate(j, half)]
  }

  predicate FeedsDiffer(col: seq<bool>, inv: seq<nat>, half: nat, x: nat)
  {
    && x < |inv| && Mate(x, half) < |inv| && inv[x] < |col| && inv[Mate(x, half)] < |col|
    && col[inv[x]] != col[inv[Mate(x, half)]]
  }

  lemma ColourOutputs(pi: seq<nat>, inv: seq<nat>, half: nat) returns (col: seq<bool>)
    requires Inverts(inv, pi) && |pi| == 2 * half
    ensures Coloured(col, pi, inv, half)
  {
    var s := Below(2 * half);
    assert IsRange(s, 2 * half);
    MateMapMatches(s, half);
    FeedMapMatches(s, pi, inv, half);
    var m := TwoColour(s, MateMap(s, half), FeedMap(s, pi, inv, half));
    col := Listed(m, s, 2 * half);
    ListedColours(s, m, pi, inv, half);
  }

  ghost function Listed(m: map<nat, bool>, s: set<nat>, n: nat): (col: seq<bool>)
    requires m.Keys == s && IsRange(s, n)
    ensures |col| == n && forall j: nat :: j < n ==> col[j] == m[j]
  {
    seq(n, j requires 0 <= j < n => m[j])
  }

  lemma ListedColours(s: set<nat>, m: map<nat, bool>, pi: seq<nat>, inv: seq<nat>, half: nat)
    requires IsRange(s, 2 * half) && Inverts(inv, pi) && |pi| == 2 * half
    requires Colours(m, MateMap(s, half), s) && Colours(m, FeedMap(s, pi, inv, half), s)
    ensures Coloured(Listed(m, s, 2 * half), pi, inv, half)
  {
    AllMatesDiffer(s, m, half);
    AllFeedsDiffer(s, m, pi, inv, half);
  }

  lemma AllMatesDiffer(s: set<nat>, m: map<nat, bool>, half: nat)
    requires IsRange(s, 2 * half) && Colours(m, MateMap(s, half), s)
    ensures forall j: nat :: j < 2 * half ==> MatesDiffer(Listed(m, s, 2 * half), half, j)
  {
    forall j: nat | j < 2 * half
      ensures MatesDiffer(Listed(m, s, 2 * half), half, j)
    {
      assert MateMap(s, half)[j] == Mate(j, half);
    }
  }

  lemma AllFeedsDiffer(s: set<nat>, m: map<nat, bool>, pi: seq<nat>, inv: seq<nat>, half: nat)
    requires IsRange(s, 2 * half) && Inverts(inv, pi) && |pi| == 2 * half
    requires Colours(m, FeedMap(s, pi, inv, half), s)
    ensures forall x: nat :: x < 2 * half ==> FeedsDiffer(Listed(m, s, 2 * half), inv, half, x)
  {
    forall x: nat | x < 2 * half
      ensures FeedsDiffer(Listed(m, s, 2 * half), inv, half, x)
    {
      FeedColours(s, m, pi, inv, half, x);
    }
  }

  lemma FeedColours(s: set<nat>, m: map<nat, bool>, pi: seq<nat>, inv: seq<nat>, half: nat, x: nat)
    requires IsRange(s, 2 * half) && Inverts(inv, pi) && |pi| == 2 * half && x < |pi|
    requires Colours(m, FeedMap(s, pi, inv, half), s)
    ensures FeedsDiffer(Listed(m, s, 2 * half), inv, half, x)
  {
    assert pi[inv[x]] == x;
    assert FeedMap(s, pi, inv, half)[inv[x]] == inv[Mate(x, half)];
  }

  ghost predicate IsRange(s: set<nat>, n: nat)
  {
    forall v: nat :: v in s <==> v < n
  }

  function MateMap(s: set<nat>, half: nat): map<nat, nat>
  {
    map j | j in s :: Mate(j, half)
  }

  /** Outputs fed by mated inputs. */
  ghost function FeedMap(s: set<nat>, pi: seq<nat>, inv: seq<nat>, half: nat): map<nat, nat>
    requires IsRange(s, 2 * half) && Sources(inv, |pi|) && Sources(pi, |pi|) && |inv| == |pi| == 2 * half
  {
    map j | j in s :: inv[Mate(pi[j], half)]
  }

  lemma MateMapMatches(s: set<nat>, half: nat)
    requires IsRange(s, 2 * half)
    ensures Matching(MateMap(s, half), s)
  {
    var a := MateMap(s, half);
    forall x: nat | x in s
      ensures x in a && a[x] in s && a[x] != x && a[x] in a && a[a[x]] == x
    {
      MateTwice(x, half);
      hide Mate;
    }
  }

  lemma MateTwice(x: nat, half: nat)
    requires x < 2 * half
    ensures Mate(x, half) < 2 * half && Mate(x, half) != x && Mate(Mate(x, half), half) == x
  {
  }

  lemma FeedMapMatches(s: set<nat>, pi: seq<nat>, inv: seq<nat>, half: nat)
    requires IsRange(s, 2 * half) && Inverts(inv, pi) && |pi| == 2 * half
    ensures Matching(FeedMap(s, pi, inv, half), s)
  {
    var b := FeedMap(s, pi, inv, half);
    forall j: nat | j < 2 * half
      ensures b[j] < 2 * half && b[j] != j && b[b[j]] == j
    {
      assert pi[b[j]] == Mate(pi[j], half);
      assert inv[pi[j]] == j;
    }
  }

  /** The output of pair k that the inner network on `side` delivers. */
  function Delivered(col: seq<bool>, half: nat, side: bool, k: nat): (y: nat)
    requires |col| == 2 * half && k < half
    ensures y == k || y == k + half
  {
    if col[k] == side then k else k + half
  }

  /** What one inner network has to do. */
  function InnerTask(col: seq<bool>, pi: seq<nat>, half: nat, side: bool): (t: seq<nat>)
    requires |col| == |pi| == 2 * half && Sources(pi, |pi|)
    ensures |t| == half && Sources(t, half)
  {
    seq(half, k requires 0 <= k < half =>
      var x := pi[Delivered(col, half, side, k)]; if x < half then x else x - half)
  }

  /** Setting of the first layer: input pair k crosses when its lower input is coloured for the upper half. */
  function FirstRow(col: seq<bool>, inv: seq<nat>): nat -> bool
    requires Sources(inv, |col|)
  {
    (k: nat) => k < |inv| && col[inv[k]]
  }

  function LastRow(col: seq<bool>): nat -> bool
  {
    (k: nat) => k < |col| && col[k]
  }

  /** After the first layer, the half on `side` holds the inputs of that colour, each at its position modulo half. */
  lemma FirstLayerSorts(col: seq<bool>, pi: seq<nat>, inv: seq<nat>, half: nat, side: bool, k: nat)
    requires Coloured(col, pi, inv, half) && k < half
    ensures var x := pi[Delivered(col, half, side, k)];
      var first := Exchange(Iota(2 * half), half, FirstRow(col, inv));
      first[InnerTask(col, pi, half, side)[k] + (if side then half else 0)] == x
  {
    var y := Delivered(col, half, side, k);
    assert MatesDiffer(col, half, k);
    assert inv[pi[y]] == y;
    assert FeedsDiffer(col, inv, half, pi[y]);
    FirstLayerPlaces(col, inv, half, side, pi[y]);
  }

  lemma FirstLayerPlaces(col: seq<bool>, inv: seq<nat>, half: nat, side: bool, x: nat)
    requires |col| == |inv| == 2 * half && Sources(inv, |col|) && x < 2 * half
    requires col[inv[x]] == side && col[inv[Mate(x, half)]] != side
    ensures var first := Exchange(Iota(2 * half), half, FirstRow(col, inv));
      var i := if x < half then x else x - half;
      first[i + (if side then half else 0)] == x
  {
    var first := Exchange(Iota(2 * half), half, FirstRow(col, inv));
    var i: nat := if x < half then x else x - half;
    assert first[i] == if FirstRow(col, inv)(i) then i + half else i;
    assert first[i + half] == if FirstRow(col, inv)(i) then i else i + half;
  }

  lemma InnerTaskPermutes(col: seq<bool>, pi: seq<nat>, inv: seq<nat>, half: nat, side: bool)
    requires Coloured(col, pi, inv, half)
    ensures IsPermutation(InnerTask(col, pi, half, side))
  {
    var t := InnerTask(col, pi, half, side);
    forall i: nat, k: nat | i < half && k < half && t[i] == t[k]
      ensures i == k
    {
      FirstLayerSorts(col, pi, inv, half, side, i);
      FirstLayerSorts(col, pi, inv, half, side, k);
      assert inv[pi[Delivered(col, half, side, i)]] == inv[pi[Delivered(col, half, side, k)]];
    }
  }

  /** Outer rows around the controls of the two inner networks. */
  function Assemble(levels: nat, first: nat -> bool, last: nat -> bool, lower: Control, upper: Control): Control
  {
    (level: nat, k: nat) =>
      if level == 0 then first(k)
      else if level + 1 >= 2 * levels then last(k)
      else if k < InnerBase(levels, true) then lower(level - 1, k)
      else upper(level - 1, k - InnerBase(levels, true))
  }

  /** Every permutation is the routing of some control. */
  lemma {:induction false} EveryPermutationRouted(pi: seq<nat>, levels: nat) returns (c: Control)
    requires |pi| == Pow2(levels) && IsPermutation(pi)
    ensures Routing(levels, c) == pi
    decreases levels
  {
    if levels == 0 {
      c := (level: nat, k: nat) => false;
      assert pi[0] == 0;
    } else {
      var half := Pow2(levels - 1);
      var inv := InversePermutation(pi);
      var col := ColourOutputs(pi, inv, half);
      InnerTaskPermutes(col, pi, inv, half, false);
      InnerTaskPermutes(col, pi, inv, half, true);
      var lower := EveryPermutationRouted(InnerTask(col, pi, half, false), levels - 1);
      var upper := EveryPermutationRouted(InnerTask(col, pi, half, true), levels - 1);
      c := Assemble(levels, FirstRow(col, inv), LastRow(col), lower, upper);
      InnerRoutes(levels, FirstRow(col, inv), LastRow(col), lower, upper);
      AssembledRoutes(pi, inv, col, levels, c);
    }
  }

  /** The inner networks of an assembled control route as the controls they were built from. */
  lemma InnerRoutes(levels: nat, first: nat -> bool, last: nat -> bool, lower: Control, upper: Control)
    requires levels >= 1
    ensures var c := Assemble(levels, first, last, lower, upper);
      && Routing(levels - 1, Inner(c, levels, false)) == Routing(levels - 1, lower)
      && Routing(levels - 1, Inner(c, levels, true)) == Routing(levels - 1, upper)
  {
    var c := Assemble(levels, first, last, lower, upper);
    var iota := Iota(Pow2(levels - 1));
    forall level: nat, k: nat | level < 2 * (levels - 1) && k < InnerWidth(levels)
      ensures Inner(c, levels, false)(level, k) == lower(level, k)
      ensures Inner(c, levels, true)(level, k) == upper(level, k)
    {
      InnerAt(c, levels, false, level, k);
      InnerAt(c, levels, true, level, k);
    }
    ControlExt(iota, levels - 1, Inner(c, levels, false), lower, 2 * (levels - 1));
    ControlExt(iota, levels - 1, Inner(c, levels, true), upper, 2 * (levels - 1));
  }

  lemma AssembledRoutes(pi: seq<nat>, inv: seq<nat>, col: seq<bool>, levels: nat, c: Control)
    requires levels >= 1 && |pi| == Pow2(levels)
    requires Coloured(col, pi, inv, Pow2(levels - 1))
    requires forall k: nat :: k < Pow2(levels - 1) ==> Row(c, 0)(k) == FirstRow(col, inv)(k)
    requires forall k: nat :: k < Pow2(levels - 1) ==> Row(c, 2 * levels - 1)(k) == LastRow(col)(k)
    requires Routing(levels - 1, Inner(c, levels, false)) == InnerTask(col, pi, Pow2(levels - 1), false)
    requires Routing(levels - 1, Inner(c, levels, true)) == InnerTask(col, pi, Pow2(levels - 1), true)
    ensures Routing(levels, c) == pi
  {
    var half := Pow2(levels - 1);
    var iota := Iota(Pow2(levels));
    var first := Exchange(iota, half, FirstRow(col, inv));
    assert BlockBits(levels, 0) == levels;
    LayerExt(iota, levels, levels, Row(c, 0), FirstRow(col, inv));
    NetworkSplits(iota, levels, c);
    NetworkPermutes(first[..half], levels - 1, Inner(c, levels, false));
    NetworkPermutes(first[half..], levels - 1, Inner(c, levels, true));
    var lower := Gather(first[..half], InnerTask(col, pi, half, false));
    var upper := Gather(first[half..], InnerTask(col, pi, half, true));
    forall k: nat | k < half
      ensures lower[k] == pi[Delivered(col, half, false, k)] && upper[k] == pi[Delivered(col, half, true, k)]
    {
      FirstLayerSorts(col, pi, inv, half, false, k);
      FirstLayerSorts(col, pi, inv, half, true, k);
    }
    LastLayerDelivers(pi, col, half, lower, upper, Row(c, 2 * levels - 1));
  }

  ghost predicate PairDelivered(r: seq<nat>, pi: seq<nat>, half: nat, k: nat)
  {
    |r| == |pi| && k + half < |pi| && r[k] == pi[k] && r[k + half] == pi[k + half]
  }

  lemma LastSwitch(lower: seq<nat>, upper: seq<nat>, half: nat, row: nat -> bool, k: nat)
    requires |lower| == |upper| == half && k < half
    ensures Exchange(lower + upper, half, row)[k] == if row(k) then upper[k] else lower[k]
    ensures Exchange(lower + upper, half, row)[k + half] == if row(k) then lower[k] else upper[k]
  {
    assert (lower + upper)[k] == lower[k] && (lower + upper)[k + half] == upper[k];
  }

  lemma LastLayerDelivers(pi: seq<nat>, col: seq<bool>, half: nat, lower: seq<nat>, upper: seq<nat>, row: nat -> bool)
    requires |pi| == |col| == 2 * half && |lower| == |upper| == half
    requires forall j: nat :: j < 2 * half ==> MatesDiffer(col, half, j)
    requires forall k: nat :: k < half ==> row(k) == LastRow(col)(k)
    requires forall k: nat :: k < half ==>
      lower[k] == pi[Delivered(col, half, false, k)] && upper[k] == pi[Delivered(col, half, true, k)]
    ensures Exchange(lower + upper, half, row) == pi
  {
    hide *;
    var r := Exchange(lower + upper, half, row);
    forall k: nat | k < half
      ensures PairDelivered(r, pi, half, k)
    {
      DeliverPair(pi, col, half, lower, upper, row, k);
    }
    AllDelivered(r, pi, half);
  }

  lemma DeliverPair(pi: seq<nat>, col: seq<bool>, half: nat, lower: seq<nat>, upper: seq<nat>, row: nat -> bool, k: nat)
    requires |pi| == |col| == 2 * half && |lower| == |upper| == half && k < half
    requires MatesDiffer(col, half, k) && row(k) == LastRow(col)(k)
    requires lower[k] == pi[Delivered(col, half, false, k)] && upper[k] == pi[Delivered(col, half, true, k)]
    ensures PairDelivered(Exchange(lower + upper, half, row), pi, half, k)
  {
    LastSwitch(lower, upper, half, row, k);
    hide Exchange;
  }

  lemma AllDelivered(r: seq<nat>, pi: seq<nat>, half: nat)
    requires |r| == |pi| == 2 * half && forall k: nat :: k < half ==> PairDelivered(r, pi, half, k)
    ensures r == pi
  {
    hide PairDelivered;
    forall j: nat | j < |pi|
      ensures r[j] == pi[j]
    {
      PairAt(r, pi, half, if j < half then j else j - half);
    }
  }

  lemma PairAt(r: seq<nat>, pi: seq<nat>, half: nat, k: nat)
    requires PairDelivered(r, pi, half, k)
    ensures |r| == |pi| && k + half < |pi| && r[k] == pi[k] && r[k + half] == pi[k + half]
  {
  }
}
