/** The compiler's side of the sync protocol: ids are numbered through the program, every broadcast and join is split
    over the chips of its group, and limbs are expanded from the highest down. The streams that come out have matching
    meetings in stages, so they never get stuck. */
module SyncIds {
  import opened Congruence
  import opened SyncProtocol
  import opened SyncSafety
  import opened SyncProgress

  /** Chips from first on, size many. */
  datatype Group = Group(first: nat, size: nat)

  /** Polynomial instructions: local work, a broadcast of limbs by their owners, a sum of limbs at their owners, and a
      receive that hands each limb from its owner in one group to its owner in another. Limbs live in registers named by
      the functions. */
  datatype Poly =
    | Plain(run: (nat, nat) -> seq<Registers -> Registers>)
    | Share(sync: nat, limbs: set<nat>, src: nat -> nat, dest: nat -> nat, dead: (nat, nat) -> bool)
    | Sum(sync: nat, limbs: set<nat>, src: nat -> nat, dest: nat -> nat, dead: (nat, nat) -> bool)
    | Receive(sync: nat, limbs: set<nat>, from: Group, to: Group, src: nat -> nat, dest: nat -> nat, dead: (nat, nat) -> bool,
              copy: nat -> (Registers -> Registers))

  /** Instructions for one group of chips, size many from first on. */
  datatype Node = Node(first: nat, size: nat, instrs: seq<Poly>)

  const LIMB_SPAN := 0x10000

  predicate Communicates(i: Poly)
  {
    i.Share? || i.Sum? || i.Receive?
  }

  // ----- numbering

  function SyncCount(instrs: seq<Poly>): nat
  {
    if |instrs| == 0 then 0 else SyncCount(instrs[..|instrs| - 1]) + if Communicates(instrs[|instrs| - 1]) then 1 else 0
  }

  ghost predicate NodeNumbered(instrs: seq<Poly>, next: nat)
  {
    forall i: nat :: i < |instrs| && Communicates(instrs[i]) ==> instrs[i].sync == next + SyncCount(instrs[..i])
  }

  function NextSync(nodes: seq<Node>, next: nat): nat
  {
    if |nodes| == 0 then next else NextSync(nodes[..|nodes| - 1], next) + SyncCount(nodes[|nodes| - 1].instrs)
  }

  ghost predicate Numbered(nodes: seq<Node>)
  {
    forall k: nat :: k < |nodes| ==> NodeNumbered(nodes[k].instrs, NextSync(nodes[..k], 1))
  }

  function WithSync(i: Poly, sync: nat): (r: Poly)
    ensures Communicates(r) == Communicates(i) && (Communicates(i) ==> r.sync == sync)
  {
    match i
    case Plain(_) => i
    case Share(_, limbs, src, dest, dead) => Share(sync, limbs, src, dest, dead)
    case Sum(_, limbs, src, dest, dead) => Sum(sync, limbs, src, dest, dead)
    case Receive(_, limbs, from, to, src, dest, dead, copy) => Receive(sync, limbs, from, to, src, dest, dead, copy)
  }

  /** The instruction but for its number. */
  ghost predicate SameBody(a: Poly, b: Poly)
  {
    && (a.Plain? <==> b.Plain?) && (a.Share? <==> b.Share?) && (a.Sum? <==> b.Sum?) && (a.Receive? <==> b.Receive?)
    && (a.Plain? ==> b == a)
    && (!a.Plain? ==> b.limbs == a.limbs && b.src == a.src && b.dest == a.dest && b.dead == a.dead)
    && (a.Receive? ==> b.from == a.from && b.to == a.to && b.copy == a.copy)
  }

  ghost predicate SameInstrs(a: seq<Poly>, b: seq<Poly>)
  {
    |a| == |b| && forall i: nat :: i < |a| ==> SameBody(a[i], b[i])
  }

  lemma {:induction false} SameCount(a: seq<Poly>, b: seq<Poly>)
    requires SameInstrs(a, b)
    ensures SyncCount(a) == SyncCount(b)
  {
    if |a| > 0 {
      assert SameBody(a[|a| - 1], b[|a| - 1]);
      SameCount(a[..|a| - 1], b[..|a| - 1]);
    }
  }

  /** Numbers the instructions of one node. */
  method NumberNode(instrs: seq<Poly>, first: nat) returns (numbered: seq<Poly>, next: nat)
    ensures SameInstrs(instrs, numbered) && NodeNumbered(numbered, first) && next == first + SyncCount(numbered)
  {
    hide *;
    numbered, next := [], first;
    NothingNumbered(instrs, first);
    for i := 0 to |instrs|
      invariant SameInstrs(instrs[..i], numbered) && NodeNumbered(numbered, first) && next == first + SyncCount(numbered)
    {
      var instr := if Communicates(instrs[i]) then WithSync(instrs[i], next) else instrs[i];
      OneNumbered(instrs, i, numbered, instr, first, next);
      numbered := numbered + [instr];
      next := if Communicates(instrs[i]) then next + 1 else next;
    }
    assert instrs[..|instrs|] == instrs;
  }

  lemma NothingNumbered(instrs: seq<Poly>, first: nat)
    ensures SameInstrs(instrs[..0], []) && NodeNumbered([], first) && SyncCount([]) == 0
  {
  }

  /** One more instruction, with the next number if it communicates. */
  lemma OneNumbered(instrs: seq<Poly>, i: nat, numbered: seq<Poly>, instr: Poly, first: nat, next: nat)
    requires i < |instrs| && SameInstrs(instrs[..i], numbered) && NodeNumbered(numbered, first) && next == first + SyncCount(numbered)
    requires instr == if Communicates(instrs[i]) then WithSync(instrs[i], next) else instrs[i]
    ensures SameInstrs(instrs[..i + 1], numbered + [instr]) && NodeNumbered(numbered + [instr], first)
    ensures SyncCount(numbered + [instr]) == SyncCount(numbered) + if Communicates(instrs[i]) then 1 else 0
  {
    var all := numbered + [instr];
    assert all[..i] == numbered && instrs[..i + 1] == instrs[..i] + [instrs[i]];
    NumberedBody(instrs[i], next);
    hide SameBody, WithSync;
    forall k: nat | k < |all| && Communicates(all[k])
      ensures all[k].sync == first + SyncCount(all[..k])
    {
      if k < i {
        assert all[..k] == numbered[..k];
      }
    }
  }

  lemma NumberedBody(i: Poly, next: nat)
    ensures SameBody(i, WithSync(i, next)) && SameBody(i, i)
  {
  }

  /** Numbers all communication of the program, in order, from 1. */
  method SetSyncIds(nodes: array<Node>, partitions: nat)
    modifies nodes
    ensures partitions <= 1 ==> nodes[..] == old(nodes[..])
    ensures partitions > 1 ==> Numbered(nodes[..])
    ensures forall k: nat :: k < nodes.Length ==>
      nodes[k].first == old(nodes[k].first) && nodes[k].size == old(nodes[k].size) && SameInstrs(old(nodes[k].instrs), nodes[k].instrs)
  {
    if partitions <= 1 {
      return;
    }
    var sync: nat := 1;
    ghost var was := nodes[..];
    for k := 0 to nodes.Length
      invariant Numbered(nodes[..k]) && sync == NextSync(nodes[..k], 1)
      invariant forall j: nat :: k <= j < nodes.Length ==> nodes[j] == was[j]
      invariant forall j: nat :: j < k ==>
        nodes[j].first == was[j].first && nodes[j].size == was[j].size && SameInstrs(was[j].instrs, nodes[j].instrs)
    {
      ghost var before := nodes[..k];
      var instrs, next := NumberNode(nodes[k].instrs, sync);
      nodes[k] := Node(nodes[k].first, nodes[k].size, instrs);
      assert nodes[..k + 1] == before + [nodes[k]] && nodes[..k + 1][..k] == before;
      NumberedSnoc(before, nodes[k]);
      sync := next;
    }
    assert nodes[..nodes.Length] == nodes[..];
  }

  lemma NumberedSnoc(nodes: seq<Node>, node: Node)
    requires Numbered(nodes) && NodeNumbered(node.instrs, NextSync(nodes, 1))
    ensures Numbered(nodes + [node]) && NextSync(nodes + [node], 1) == NextSync(nodes, 1) + SyncCount(node.instrs)
  {
    var all := nodes + [node];
    assert all[..|nodes|] == nodes;
    forall k: nat | k < |all|
      ensures NodeNumbered(all[k].instrs, NextSync(all[..k], 1))
    {
      if k < |nodes| {
        assert all[..k] == nodes[..k] && NodeNumbered(nodes[k].instrs, NextSync(nodes[..k], 1));
      }
    }
  }

  // ----- limbs

  /** One instruction at one limb. */
  datatype Event = Event(node: Node, instr: Poly, limb: nat)

  function LimbEvents(node: Node, limb: nat): (e: seq<Event>)
    ensures |e| == |node.instrs| && forall i: nat :: i < |e| ==> e[i] == Event(node, node.instrs[i], limb)
  {
    seq(|node.instrs|, i requires 0 <= i < |node.instrs| => Event(node, node.instrs[i], limb))
  }

  /** All limbs below top, the highest first; at each limb the instructions in order. */
  function NodeEvents(node: Node, top: nat): seq<Event>
  {
    if top == 0 then [] else LimbEvents(node, top - 1) + NodeEvents(node, top - 1)
  }

  function Events(nodes: seq<Node>, top: nat): seq<Event>
  {
    if |nodes| == 0 then [] else Events(nodes[..|nodes| - 1], top) + NodeEvents(nodes[|nodes| - 1], top)
  }

  predicate InGroup(node: Node, c: nat)
  {
    node.first <= c < node.first + node.size
  }

  /** Chip c of the group holds the shares with its remainder modulo the size of the group. */
  predicate Holds(g: Group, c: nat, limb: nat)
  {
    g.first <= c < g.first + g.size && limb % g.size == c % g.size
  }

  /** The chip that holds a limb in an aligned group. */
  function HolderOf(g: Group, limb: nat): nat
  {
    if g.size == 0 then g.first else g.first + limb % g.size
  }

  function GroupOf(node: Node): Group
  {
    Group(node.first, node.size)
  }

  /** The event is an exchange between chips. */
  predicate Exchanges(e: Event)
  {
    match e.instr
    case Plain(_) => false
    case Share(_, limbs, _, _, _) => e.limb in limbs && e.node.size > 1
    case Sum(_, limbs, _, _, _) => e.limb in limbs && e.node.size > 0
    case Receive(_, limbs, from, to, _, _, _, _) => e.limb in limbs && HolderOf(from, e.limb) != HolderOf(to, e.limb)
  }

  /** Chip c takes part in the exchange. */
  predicate Takes(e: Event, c: nat)
  {
    if e.instr.Receive? then c == HolderOf(e.instr.from, e.limb) || c == HolderOf(e.instr.to, e.limb) else InGroup(e.node, c)
  }

  function SizeOf(e: Event): nat
  {
    if e.instr.Receive? then 2 else e.node.size
  }

  function SyncOf(i: Poly): nat
  {
    if Communicates(i) then i.sync else 0
  }

  /** Number of the instruction in the upper bits, limb in the lower 16. */
  function IdOf(e: Event): nat
  {
    SyncOf(e.instr) * LIMB_SPAN + e.limb
  }

  /** What the event is on chip c. A receive is a broadcast to one chip, or a copy where both groups keep the limb. */
  function Render(e: Event, c: nat, primes: nat -> nat): (r: seq<Instr>)
  {
    var id, size, own := e.limb, e.node.size, Holds(GroupOf(e.node), c, e.limb);
    if !InGroup(e.node, c) then []
    else
      match e.instr
      case Plain(run) => var ops := run(c, e.limb); seq(|ops|, i requires 0 <= i < |ops| => Local(ops[i]))
      case Share(_, limbs, src, dest, dead) =>
        if !Exchanges(e) then []
        else if own then [Dis(IdOf(e), size, src(e.limb), dead(c, e.limb))]
        else [Rcv(IdOf(e), size, dest(e.limb))]
      case Sum(_, limbs, src, dest, dead) =>
        if !Exchanges(e) then []
        else [Joi(IdOf(e), size, own, dest(e.limb), src(e.limb), dead(c, e.limb), primes(e.limb))]
      case Receive(_, limbs, from, to, src, dest, dead, copy) =>
        if e.limb !in limbs then []
        else if Holds(to, c, e.limb) then
          if Holds(from, c, e.limb) then [Local(copy(e.limb))] else [Rcv(IdOf(e), 2, dest(e.limb))]
        else if Holds(from, c, e.limb) then [Dis(IdOf(e), 2, src(e.limb), dead(c, e.limb))]
        else []
  }

  /** The stream of chip c. */
  function Stream(events: seq<Event>, c: nat, primes: nat -> nat): seq<Instr>
  {
    if |events| == 0 then [] else Stream(events[..|events| - 1], c, primes) + Render(events[|events| - 1], c, primes)
  }

  ghost predicate NodesFit(nodes: seq<Node>, chips: nat)
  {
    forall k: nat :: k < |nodes| ==> NodeFits(nodes[k], chips) && InstrsFit(nodes[k])
  }

  /** Groups are aligned to their size. */
  ghost predicate Aligned(g: Group)
  {
    exists k: nat :: g.first == k * g.size
  }

  ghost predicate NodeFits(node: Node, chips: nat)
  {
    node.first + node.size <= chips && Aligned(GroupOf(node))
  }

  /** A receive stands in a node whose group contains both of its groups. */
  ghost predicate InstrFits(node: Node, i: Poly)
  {
    i.Receive? ==> Within(i.from, node) && Within(i.to, node)
  }

  ghost predicate Within(g: Group, node: Node)
  {
    g.size > 0 && Aligned(g) && node.first <= g.first && g.first + g.size <= node.first + node.size
  }

  ghost predicate EventFits(e: Event, chips: nat)
  {
    NodeFits(e.node, chips) && InstrFits(e.node, e.instr)
  }

  // ----- ids are distinct

  ghost predicate Distinct(events: seq<Event>)
  {
    forall j: nat, k: nat :: j < k < |events| && Exchanges(events[j]) && Exchanges(events[k]) ==> IdOf(events[j]) != IdOf(events[k])
  }

  /** Numbers of the exchanges lie between lo and hi. */
  ghost predicate SyncsWithin(events: seq<Event>, lo: nat, hi: nat)
  {
    forall k: nat :: k < |events| && Exchanges(events[k]) ==> lo <= SyncOf(events[k].instr) < hi && events[k].limb < LIMB_SPAN
  }

  lemma IdsApart(sync: nat, limb: nat, other: nat, there: nat)
    requires limb < LIMB_SPAN && there < LIMB_SPAN && (sync != other || limb != there)
    ensures sync * LIMB_SPAN + limb != other * LIMB_SPAN + there
  {
  }

  lemma IdsDiffer(a: Event, b: Event)
    requires a.limb < LIMB_SPAN && b.limb < LIMB_SPAN
    requires SyncOf(a.instr) != SyncOf(b.instr) || a.limb != b.limb
    ensures IdOf(a) != IdOf(b)
  {
    IdsApart(SyncOf(a.instr), a.limb, SyncOf(b.instr), b.limb);
  }

  lemma {:induction false} CountMonotone(instrs: seq<Poly>, i: nat, j: nat)
    requires i <= j <= |instrs|
    ensures SyncCount(instrs[..i]) <= SyncCount(instrs[..j])
    ensures i < j && Communicates(instrs[i]) ==> SyncCount(instrs[..i]) < SyncCount(instrs[..j])
    decreases j - i
  {
    if i < j {
      CountMonotone(instrs, i, j - 1);
      assert instrs[..j][..j - 1] == instrs[..j - 1];
    }
  }

  lemma LimbDistinct(node: Node, next: nat, limb: nat)
    requires NodeNumbered(node.instrs, next) && limb < LIMB_SPAN
    ensures Distinct(LimbEvents(node, limb)) && SyncsWithin(LimbEvents(node, limb), next, next + SyncCount(node.instrs))
  {
    var events := LimbEvents(node, limb);
    assert node.instrs[..|node.instrs|] == node.instrs;
    forall k: nat | k < |events| && Exchanges(events[k])
      ensures next <= SyncOf(events[k].instr) < next + SyncCount(node.instrs)
    {
      CountMonotone(node.instrs, k, |node.instrs|);
    }
    forall j: nat, k: nat | j < k < |events| && Exchanges(events[j]) && Exchanges(events[k])
      ensures IdOf(events[j]) != IdOf(events[k])
    {
      CountMonotone(node.instrs, j, k);
      IdsDiffer(events[j], events[k]);
    }
  }

  /** Two lists of exchanges with no id in common. */
  lemma DistinctJoin(a: seq<Event>, b: seq<Event>)
    requires Distinct(a) && Distinct(b)
    requires forall j: nat, k: nat :: j < |a| && k < |b| && Exchanges(a[j]) && Exchanges(b[k]) ==> IdOf(a[j]) != IdOf(b[k])
    ensures Distinct(a + b)
  {
    forall j: nat, k: nat | j < k < |a + b| && Exchanges((a + b)[j]) && Exchanges((a + b)[k])
      ensures IdOf((a + b)[j]) != IdOf((a + b)[k])
    {
      if k < |a| {
        assert IdOf(a[j]) != IdOf(a[k]);
      } else if j < |a| {
        assert IdOf(a[j]) != IdOf(b[k - |a|]);
      } else {
        assert IdOf(b[j - |a|]) != IdOf(b[k - |a|]);
      }
    }
  }

  ghost predicate LimbsBelow(events: seq<Event>, top: nat)
  {
    forall k: nat :: k < |events| ==> events[k].limb < top
  }

  lemma {:induction false} NodeDistinct(node: Node, next: nat, top: nat)
    requires NodeNumbered(node.instrs, next) && top <= LIMB_SPAN
    ensures Distinct(NodeEvents(node, top)) && SyncsWithin(NodeEvents(node, top), next, next + SyncCount(node.instrs))
    ensures LimbsBelow(NodeEvents(node, top), top)
  {
    hide Exchanges, IdOf, NodeNumbered;
    if top > 0 {
      var here, below := LimbEvents(node, top - 1), NodeEvents(node, top - 1);
      LimbDistinct(node, next, top - 1);
      NodeDistinct(node, next, top - 1);
      forall j: nat, k: nat | j < |here| && k < |below| && Exchanges(here[j]) && Exchanges(below[k])
        ensures IdOf(here[j]) != IdOf(below[k])
      {
        IdsDiffer(here[j], below[k]);
      }
      DistinctJoin(here, below);
    }
  }

  lemma {:induction false} EventsDistinct(nodes: seq<Node>, top: nat)
    requires Numbered(nodes) && top <= LIMB_SPAN
    ensures Distinct(Events(nodes, top)) && SyncsWithin(Events(nodes, top), 1, NextSync(nodes, 1))
  {
    hide Exchanges, IdOf, NodeEvents, Numbered, NodeNumbered;
    if |nodes| > 0 {
      var last := |nodes| - 1;
      var before, here := Events(nodes[..last], top), NodeEvents(nodes[last], top);
      FrontNumbered(nodes);
      EventsDistinct(nodes[..last], top);
      NodeDistinct(nodes[last], NextSync(nodes[..last], 1), top);
      forall j: nat, k: nat | j < |before| && k < |here| && Exchanges(before[j]) && Exchanges(here[k])
        ensures IdOf(before[j]) != IdOf(here[k])
      {
        IdsDiffer(before[j], here[k]);
      }
      DistinctJoin(before, here);
      NextGrows(nodes[..last]);
    }
  }

  lemma FrontNumbered(nodes: seq<Node>)
    requires Numbered(nodes) && |nodes| > 0
    ensures Numbered(nodes[..|nodes| - 1]) && NodeNumbered(nodes[|nodes| - 1].instrs, NextSync(nodes[..|nodes| - 1], 1))
  {
    var front := nodes[..|nodes| - 1];
    forall k: nat | k < |front|
      ensures NodeNumbered(front[k].instrs, NextSync(front[..k], 1))
    {
      assert front[..k] == nodes[..k] && NodeNumbered(nodes[k].instrs, NextSync(nodes[..k], 1));
    }
  }

  lemma {:induction false} NextGrows(nodes: seq<Node>)
    ensures NextSync(nodes, 1) >= 1
  {
    if |nodes| > 0 {
      NextGrows(nodes[..|nodes| - 1]);
    }
  }

  // ----- where an exchange sits in a stream

  /** Place of event k in the stream of chip c. */
  function Place(events: seq<Event>, c: nat, primes: nat -> nat, k: nat): nat
    requires k <= |events|
  {
    |Stream(events[..k], c, primes)|
  }

  lemma {:induction false} PlaceMonotone(events: seq<Event>, c: nat, primes: nat -> nat, j: nat, k: nat)
    requires j <= k <= |events|
    ensures Place(events, c, primes, j) <= Place(events, c, primes, k)
    ensures j < k ==> Place(events, c, primes, j) + |Render(events[j], c, primes)| <= Place(events, c, primes, k)
    decreases k - j
  {
    hide Render;
    if j < k {
      PlaceMonotone(events, c, primes, j, k - 1);
      assert events[..k][..k - 1] == events[..k - 1];
    }
  }

  lemma {:induction false} RenderedAt(events: seq<Event>, chips: nat, c: nat, primes: nat -> nat, k: nat)
    requires k < |events| && Exchanges(events[k]) && Takes(events[k], c) && EventFits(events[k], chips)
    ensures Place(events, c, primes, k) < |Stream(events, c, primes)|
    ensures |Render(events[k], c, primes)| == 1 && Stream(events, c, primes)[Place(events, c, primes, k)] == Render(events[k], c, primes)[0]
  {
    hide Render, Exchanges, Takes, EventFits;
    var last := |events| - 1;
    RenderedOnce(events[k], chips, c, primes);
    if k < last {
      assert events[..last][..k] == events[..k];
      RenderedAt(events[..last], chips, c, primes, k);
    }
  }

  /** A chip that takes part has one instruction for the exchange, and no other chip has any. */
  lemma RenderedOnce(e: Event, chips: nat, c: nat, primes: nat -> nat)
    requires EventFits(e, chips)
    ensures Exchanges(e) && Takes(e, c) ==> |Render(e, c, primes)| == 1 && IsSync(Render(e, c, primes)[0]) && Render(e, c, primes)[0].id == IdOf(e)
    ensures !(Exchanges(e) && Takes(e, c)) ==> forall p: nat :: p < |Render(e, c, primes)| ==> Render(e, c, primes)[p].Local?
  {
    if e.instr.Receive? {
      OneHolder(e.instr.from, e.limb, c);
      OneHolder(e.instr.to, e.limb, c);
      OneHolder(e.instr.from, e.limb, HolderOf(e.instr.from, e.limb));
      OneHolder(e.instr.to, e.limb, HolderOf(e.instr.to, e.limb));
      hide Holds, HolderOf, Aligned;
    }
  }

  /** Every exchange in a stream comes from one event. */
  lemma {:induction false} EventAt(events: seq<Event>, chips: nat, c: nat, primes: nat -> nat, p: nat) returns (k: nat)
    requires p < |Stream(events, c, primes)| && IsSync(Stream(events, c, primes)[p]) && EventsFit(events, chips)
    ensures k < |events| && Exchanges(events[k]) && Takes(events[k], c) && Place(events, c, primes, k) == p && EventFits(events[k], chips)
    ensures |Render(events[k], c, primes)| == 1 && Stream(events, c, primes)[p] == Render(events[k], c, primes)[0]
  {
    hide Render, Exchanges, Takes, EventFits;
    var last := |events| - 1;
    var before := Stream(events[..last], c, primes);
    if p < |before| {
      k := EventAt(events[..last], chips, c, primes, p);
      assert events[..last][..k] == events[..k];
    } else {
      k := last;
      RenderedOnce(events[last], chips, c, primes);
      assert Render(events[last], c, primes)[p - |before|] == Stream(events, c, primes)[p];
    }
  }

  // ----- the plan

  ghost predicate Known(events: seq<Event>, id: nat, k: nat)
  {
    k < |events| && Exchanges(events[k]) && IdOf(events[k]) == id
  }

  /** Index of the event with an id, the number of events if there is none. */
  function IndexOf(events: seq<Event>, id: nat): (k: nat)
    ensures k <= |events| && (k < |events| ==> Known(events, id, k))
  {
    if |events| == 0 then 0
    else
      var last := |events| - 1;
      var k := IndexOf(events[..last], id);
      if k < last then k else if Exchanges(events[last]) && IdOf(events[last]) == id then last else |events|
  }

  lemma {:induction false} IndexFinds(events: seq<Event>, id: nat, k: nat)
    requires Known(events, id, k)
    ensures IndexOf(events, id) < |events|
  {
    var last := |events| - 1;
    if k < last {
      IndexFinds(events[..last], id, k);
    }
  }

  lemma IndexIs(events: seq<Event>, k: nat)
    requires Distinct(events) && k < |events| && Exchanges(events[k])
    ensures IndexOf(events, IdOf(events[k])) == k
  {
    var j := IndexOf(events, IdOf(events[k]));
    IndexFinds(events, IdOf(events[k]), k);
    assert j < |events| && Known(events, IdOf(events[k]), j);
  }

  /** The chips that take part. */
  function Chips(e: Event): (s: set<nat>)
    ensures e.instr.Receive? ==> s == {HolderOf(e.instr.from, e.limb), HolderOf(e.instr.to, e.limb)}
    ensures forall c: nat :: c in s <==> Takes(e, c)
  {
    if e.instr.Receive? then {HolderOf(e.instr.from, e.limb), HolderOf(e.instr.to, e.limb)} else Range(e.node.first, e.node.size)
  }

  function Range(first: nat, size: nat): (s: set<nat>)
    ensures |s| == size && forall c: nat :: c in s <==> first <= c < first + size
  {
    if size == 0 then {} else Range(first, size - 1) + {first + size - 1}
  }

  function Members(events: seq<Event>, primes: nat -> nat, k: nat): (m: map<nat, nat>)
    requires k < |events|
    ensures m.Keys == Chips(events[k])
    ensures forall c: nat :: c in m ==> m[c] == Place(events, c, primes, k)
  {
    map c: nat | c in Chips(events[k]) :: Place(events, c, primes, k)
  }

  /** The chip that gives a broadcast, or that a sum goes to. */
  function Lead(e: Event): nat
  {
    if e.instr.Receive? then HolderOf(e.instr.from, e.limb) else HolderOf(GroupOf(e.node), e.limb)
  }

  function MeetingOf(events: seq<Event>, primes: nat -> nat, k: nat): Meeting
    requires k < |events|
  {
    Meeting(Members(events, primes, k), Lead(events[k]), events[k].instr.Sum?, primes(events[k].limb))
  }

  function Plan(events: seq<Event>, primes: nat -> nat): (plan: map<nat, Meeting>)
    ensures forall id: nat :: id in plan <==> IndexOf(events, id) < |events|
    ensures forall id: nat :: id in plan ==> plan[id] == MeetingOf(events, primes, IndexOf(events, id))
  {
    PlanFinite(events);
    map id: nat | id in Ids(events) && IndexOf(events, id) < |events| :: MeetingOf(events, primes, IndexOf(events, id))
  }

  function Ids(events: seq<Event>): set<nat>
  {
    set k: nat | k < |events| && Exchanges(events[k]) :: IdOf(events[k])
  }

  lemma PlanFinite(events: seq<Event>)
    ensures forall id: nat :: IndexOf(events, id) < |events| ==> id in Ids(events)
  {
    forall id: nat | IndexOf(events, id) < |events|
      ensures id in Ids(events)
    {
      assert Known(events, id, IndexOf(events, id));
    }
  }

  /** The compiled program: a stream for every chip, the meetings its exchanges form, and the order of the exchanges. */
  ghost function Compiled(events: seq<Event>, chips: nat, primes: nat -> nat, initial: seq<Registers>): Setup
  {
    Setup(seq(chips, c requires c >= 0 => Stream(events, c, primes)), Plan(events, primes), initial, (id: nat) => IndexOf(events, id))
  }

  ghost predicate EventsFit(events: seq<Event>, chips: nat)
  {
    forall k: nat :: k < |events| ==> EventFits(events[k], chips)
  }

  ghost predicate InstrsFit(node: Node)
  {
    forall i: nat :: i < |node.instrs| ==> InstrFits(node, node.instrs[i])
  }

  lemma {:induction false} NodeEventsFit(node: Node, chips: nat, top: nat)
    requires NodeFits(node, chips) && InstrsFit(node)
    ensures EventsFit(NodeEvents(node, top), chips)
  {
    hide NodeFits, InstrFits;
    if top > 0 {
      NodeEventsFit(node, chips, top - 1);
    }
  }

  lemma {:induction false} EventsAllFit(nodes: seq<Node>, chips: nat, top: nat)
    requires NodesFit(nodes, chips)
    ensures EventsFit(Events(nodes, top), chips)
  {
    if |nodes| > 0 {
      hide NodeFits, InstrsFit, EventFits;
      EventsAllFit(nodes[..|nodes| - 1], chips, top);
      NodeEventsFit(nodes[|nodes| - 1], chips, top);
    }
  }

  /** In an aligned group exactly one chip holds a limb. */
  lemma OneHolder(g: Group, limb: nat, c: nat)
    requires Aligned(g) && g.size > 0
    ensures Holds(g, c, limb) <==> c == HolderOf(g, limb)
    ensures g.first <= HolderOf(g, limb) < g.first + g.size
  {
    var k: nat :| g.first == k * g.size;
    if g.first <= c < g.first + g.size {
      Remainder(k, g.size, c - g.first);
    }
    Remainder(k, g.size, limb % g.size);
    Remainder(0, g.size, limb % g.size);
  }

  lemma Remainder(g: nat, size: nat, r: nat)
    requires r < size
    ensures (g * size + r) % size == r
  {
    CongFrom(g * size + r, r, g, size);
    SmallMod(r, size);
  }

  lemma GroupSize(events: seq<Event>, primes: nat -> nat, k: nat)
    requires k < |events| && Exchanges(events[k])
    ensures |Members(events, primes, k)| == SizeOf(events[k])
  {
    assert |Members(events, primes, k).Keys| == |Chips(events[k])|;
  }

  /** Every exchange of a stream plays its part. */
  lemma CompiledPart(events: seq<Event>, chips: nat, primes: nat -> nat, initial: seq<Registers>, c: nat, p: nat)
    requires Distinct(events) && EventsFit(events, chips) && (forall l: nat :: primes(l) > 0) && c < chips
    requires forall k: nat :: k < |events| && Exchanges(events[k]) ==> SyncOf(events[k].instr) > 0
    requires p < |Stream(events, c, primes)| && IsSync(Stream(events, c, primes)[p])
    ensures Compiled(events, chips, primes, initial).PlaysPart(c, p)
  {
    hide Stream, IndexOf, Members, Place, Plan, Distinct, Render, EventFits, EventsFit, Exchanges, Takes, Chips, Lead, IdOf;
    var s := Compiled(events, chips, primes, initial);
    var k := EventAt(events, chips, c, primes, p);
    IndexIs(events, k);
    GroupSize(events, primes, k);
    RenderedPart(events[k], chips, c, primes);
    PositiveId(events[k]);
  }

  lemma PositiveId(e: Event)
    requires SyncOf(e.instr) > 0
    ensures IdOf(e) > 0
  {
  }

  /** What a chip does in an exchange, and which registers it reads and writes for it. */
  lemma RenderedPart(e: Event, chips: nat, c: nat, primes: nat -> nat)
    requires Exchanges(e) && Takes(e, c) && EventFits(e, chips)
    ensures |Render(e, c, primes)| == 1
    ensures var i := Render(e, c, primes)[0];
      && IsSync(i) && i.id == IdOf(e) && i.count == SizeOf(e)
      && match i
         case Dis(_, _, src, dead) => !e.instr.Sum? && c == Lead(e) && src == e.instr.src(e.limb) && dead == e.instr.dead(c, e.limb)
         case Rcv(_, _, dest) => !e.instr.Sum? && c != Lead(e) && dest == e.instr.dest(e.limb)
         case Joi(_, _, hasDest, dest, src, dead, q) =>
           && e.instr.Sum? && (hasDest <==> c == Lead(e)) && q == primes(e.limb)
           && src == e.instr.src(e.limb) && dead == e.instr.dead(c, e.limb) && dest == e.instr.dest(e.limb)
  {
    RenderedOnce(e, chips, c, primes);
    if e.instr.Receive? {
      OneHolder(e.instr.from, e.limb, c);
      OneHolder(e.instr.to, e.limb, c);
    } else {
      OneHolder(GroupOf(e.node), e.limb, c);
    }
    hide Holds, HolderOf, Aligned, IdOf;
  }

  lemma CompiledMeeting(events: seq<Event>, chips: nat, primes: nat -> nat, initial: seq<Registers>, id: nat)
    requires Distinct(events) && EventsFit(events, chips) && IndexOf(events, id) < |events|
    ensures id in Compiled(events, chips, primes, initial).plan && Compiled(events, chips, primes, initial).MeetingRight(id)
  {
    hide Stream, IndexOf, Members, Place, Plan, Distinct, Render, EventFits, Exchanges, Takes, Chips, Lead, IdOf;
    var s, k := Compiled(events, chips, primes, initial), IndexOf(events, id);
    assert Known(events, id, k) && EventFits(events[k], chips);
    LeadTakes(events[k], chips);
    var meeting := MeetingOf(events, primes, k);
    assert s.plan[id] == meeting && meeting.members == Members(events, primes, k) && meeting.lead == Lead(events[k]);
    hide MeetingOf, EventsFit;
    forall c: nat | c in meeting.members
      ensures c < chips && meeting.members[c] < |s.prog[c]| && IsSync(s.prog[c][meeting.members[c]]) && s.prog[c][meeting.members[c]].id == id
    {
      MemberPlaced(events, primes, k, c, chips);
    }
  }

  lemma MemberPlaced(events: seq<Event>, primes: nat -> nat, k: nat, c: nat, chips: nat)
    requires k < |events| && Exchanges(events[k]) && Takes(events[k], c) && EventFits(events[k], chips)
    ensures c in Members(events, primes, k)
    ensures var p := Members(events, primes, k)[c];
      c < chips && p < |Stream(events, c, primes)| && IsSync(Stream(events, c, primes)[p]) && Stream(events, c, primes)[p].id == IdOf(events[k])
  {
    RenderedAt(events, chips, c, primes, k);
    RenderedOnce(events[k], chips, c, primes);
    TakesBelow(events[k], chips, c);
    hide Stream, Render, Exchanges, Takes, EventFits;
  }

  /** All that take part are chips of the node's group. */
  lemma TakesBelow(e: Event, chips: nat, c: nat)
    requires EventFits(e, chips) && Takes(e, c)
    ensures InGroup(e.node, c) && c < chips
  {
    if e.instr.Receive? {
      OneHolder(e.instr.from, e.limb, c);
      OneHolder(e.instr.to, e.limb, c);
    }
    hide Holds, HolderOf, Aligned;
  }

  lemma LeadTakes(e: Event, chips: nat)
    requires Exchanges(e) && EventFits(e, chips)
    ensures Takes(e, Lead(e))
  {
    if !e.instr.Receive? {
      OneHolder(GroupOf(e.node), e.limb, e.node.first);
    }
    hide Holds, HolderOf, Aligned;
  }

  /** Exchanges keep the order of the events on every chip. */
  lemma CompiledOrder(events: seq<Event>, chips: nat, c: nat, primes: nat -> nat, p: nat, r: nat)
    requires Distinct(events) && EventsFit(events, chips) && p < r < |Stream(events, c, primes)|
    requires IsSync(Stream(events, c, primes)[p]) && IsSync(Stream(events, c, primes)[r])
    ensures IndexOf(events, Stream(events, c, primes)[p].id) < IndexOf(events, Stream(events, c, primes)[r].id)
  {
    hide Stream, Render, Distinct, IndexOf, EventFits, EventsFit, Exchanges, Takes, IdOf;
    var j := EventAt(events, chips, c, primes, p);
    var k := EventAt(events, chips, c, primes, r);
    RenderedOnce(events[j], chips, c, primes);
    RenderedOnce(events[k], chips, c, primes);
    IndexIs(events, j);
    IndexIs(events, k);
    if k < j {
      PlaceMonotone(events, c, primes, k, j);
    }
  }

  /** Compiled programs are well-formed: their meetings match, and their stages rise along every chip. */
  lemma CompiledWellFormed(nodes: seq<Node>, chips: nat, top: nat, primes: nat -> nat, initial: seq<Registers>)
    requires Numbered(nodes) && NodesFit(nodes, chips) && top <= LIMB_SPAN && |initial| == chips && forall l: nat :: primes(l) > 0
    ensures Compiled(Events(nodes, top), chips, primes, initial).WellFormed()
  {
    var events := Events(nodes, top);
    EventsDistinct(nodes, top);
    EventsAllFit(nodes, chips, top);
    var s := Compiled(events, chips, primes, initial);
    hide Events, Numbered, NodesFit, Distinct, EventsFit, Stream, IndexOf;
    forall c: nat | c < chips
      ensures s.PartsRight(c) && s.StagesRise(c)
    {
      forall p: nat | p < |s.prog[c]| && IsSync(s.prog[c][p])
        ensures s.PlaysPart(c, p)
      {
        CompiledPart(events, chips, primes, initial, c, p);
      }
      forall p: nat, r: nat | p < r < |s.prog[c]| && Waits(s.prog[c][p]) && Gives(s.prog[c][r])
        ensures s.stage(s.prog[c][p].id) < s.stage(s.prog[c][r].id)
      {
        CompiledOrder(events, chips, c, primes, p, r);
      }
    }
    forall id: nat | id in s.plan
      ensures s.MeetingRight(id)
    {
      CompiledMeeting(events, chips, primes, initial, id);
    }
  }

  /** So every fair run of a compiled program completes on all chips, with the registers of the reference and nothing
      left on offer. */
  lemma CompiledCompletes(nodes: seq<Node>, chips: nat, top: nat, primes: nat -> nat, initial: seq<Registers>, rounds: seq<seq<nat>>)
    requires Numbered(nodes) && NodesFit(nodes, chips) && top <= LIMB_SPAN && |initial| == chips && forall l: nat :: primes(l) > 0
    requires var s := Compiled(Events(nodes, top), chips, primes, initial);
      (forall k: nat :: k < |rounds| ==> IsRound(s, rounds[k])) && |rounds| > Bound(s.prog, |s.prog|)
    ensures var s := Compiled(Events(nodes, top), chips, primes, initial);
      && s.WellFormed() && Inv(s, Initial(s))
      && var m := RunRounds(s, Initial(s), rounds);
         && (forall c: nat :: c < chips ==> c < |m.exited| == |m.regs| && m.exited[c] && m.regs[c] == s.Ref(c, |s.prog[c]|))
         && m.disValue == map[] && m.joiValue == map[]
  {
    CompiledWellFormed(nodes, chips, top, primes, initial);
    hide Events, Numbered, NodesFit, Stream, IndexOf, Plan, RunRounds, Setup.WellFormed, Setup.Ref;
    var s := Compiled(Events(nodes, top), chips, primes, initial);
    FairRunsComplete(s, rounds);
    ChipsShaped(s, RunRounds(s, Initial(s), rounds));
  }

  lemma ChipsShaped(s: Setup, m: Machine)
    requires Inv(s, m)
    ensures |m.exited| == |m.regs| == |s.prog|
  {
    hide Setup.WellFormed, Setup.Ref;
  }

  /** Ids do not increase along a stream: limbs are expanded from the highest down, so a chip that owns the even limbs of
      a two-limb broadcast first receives limb 1 and then sends limb 0. */
  lemma IdsMayDecrease(src: nat -> nat, dest: nat -> nat, dead: (nat, nat) -> bool, primes: nat -> nat)
    ensures var events := Events([Node(0, 2, [Share(1, {0, 1}, src, dest, dead)])], 2);
      Stream(events, 0, primes) == [Rcv(0x1_0001, 2, dest(1)), Dis(0x1_0000, 2, src(0), dead(0, 0))]
  {
    var node := Node(0, 2, [Share(1, {0, 1}, src, dest, dead)]);
    var high, low := Event(node, node.instrs[0], 1), Event(node, node.instrs[0], 0);
    NodeOfTwo(node);
    StreamOfTwo(high, low, 0, primes);
    assert Render(high, 0, primes) == [Rcv(LIMB_SPAN + 1, 2, dest(1))];
    assert Render(low, 0, primes) == [Dis(LIMB_SPAN, 2, src(0), dead(0, 0))];
    hide Events, Stream, Render;
  }

  lemma NodeOfTwo(node: Node)
    requires |node.instrs| == 1
    ensures Events([node], 2) == [Event(node, node.instrs[0], 1), Event(node, node.instrs[0], 0)]
  {
    var high, low := Event(node, node.instrs[0], 1), Event(node, node.instrs[0], 0);
    assert LimbEvents(node, 0) == [low] && LimbEvents(node, 1) == [high];
    assert NodeEvents(node, 1) == [low] + NodeEvents(node, 0);
    assert NodeEvents(node, 2) == [high, low];
    assert [node][..0] == [] && Events([], 2) == [];
  }

  lemma StreamOfTwo(a: Event, b: Event, c: nat, primes: nat -> nat)
    ensures Stream([a, b], c, primes) == Render(a, c, primes) + Render(b, c, primes)
  {
    hide Render;
    assert [a, b][..1] == [a] && [a][..0] == [];
    assert Stream([a], c, primes) == Render(a, c, primes);
  }
}
