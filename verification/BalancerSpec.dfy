/** Backend sets kept by the two ring balancers: what a run of additions,
    removals and updates leaves in the ring. */
module BalancerSpec {
  import opened Decimal
  import opened RingSpec

  // ---------- plain balancer ----------

  ghost predicate CollisionFree(h: Hash, replicas: int, names: set<string>) {
    forall a, b :: a in names && b in names && a != b ==> Points(h, replicas, a) !! Points(h, replicas, b)
  }

  /** The ring holds exactly the label points of `names`, each owned by its node. */
  ghost predicate IsPointMap(h: Hash, replicas: int, names: set<string>, nodes: Nodes) {
    && (forall p :: p in nodes ==> nodes[p] in names && p in Points(h, replicas, nodes[p]))
    && (forall n, p :: n in names && p in Points(h, replicas, n) ==> p in nodes && nodes[p] == n)
  }

  lemma PointMapIsUnique(h: Hash, replicas: int, names: set<string>, a: Nodes, b: Nodes)
    requires IsPointMap(h, replicas, names, a) && IsPointMap(h, replicas, names, b)
    ensures a == b
  {
  }

  function AddAll(h: Hash, replicas: int, nodes: Nodes, added: seq<string>): Nodes {
    if added == [] then nodes
    else Add(h, replicas, AddAll(h, replicas, nodes, added[..|added| - 1]), added[|added| - 1])
  }

  function RemoveAll(h: Hash, replicas: int, nodes: Nodes, removed: set<string>): Nodes {
    map p | p in nodes && (forall n :: n in removed ==> p !in Points(h, replicas, n)) :: nodes[p]
  }

  function AsSet(s: seq<string>): set<string> {
    set x | x in s
  }

  /** What is left of `backends` once the first mention of each current node is
      taken out: the names an update adds to the ring, in order. */
  function Surplus(current: set<string>, backends: seq<string>): (s: seq<string>)
    ensures AsSet(s) <= AsSet(backends)
    ensures AsSet(backends) <= current + AsSet(s)
  {
    if backends == [] then []
    else
      var front, last := backends[..|backends| - 1], backends[|backends| - 1];
      assert AsSet(backends) == AsSet(front) + {last} by { assert backends == front + [last]; }
      var rest := Surplus(current, front);
      assert AsSet(rest + [last]) == AsSet(rest) + {last};
      if last in current && last !in front then rest else rest + [last]
  }

  function Update(h: Hash, replicas: int, nodes: Nodes, backends: seq<string>): Nodes {
    var current := nodes.Values;
    RemoveAll(h, replicas, AddAll(h, replicas, nodes, Surplus(current, backends)), current - AsSet(backends))
  }

  lemma PointMapAdd(h: Hash, replicas: int, names: set<string>, nodes: Nodes, node: string)
    requires IsPointMap(h, replicas, names, nodes) && CollisionFree(h, replicas, names + {node})
    ensures IsPointMap(h, replicas, names + {node}, Add(h, replicas, nodes, node))
  {
  }

  lemma {:induction false} PointMapAddAll(h: Hash, replicas: int, names: set<string>, nodes: Nodes, added: seq<string>)
    requires IsPointMap(h, replicas, names, nodes) && CollisionFree(h, replicas, names + AsSet(added))
    ensures IsPointMap(h, replicas, names + AsSet(added), AddAll(h, replicas, nodes, added))
  {
    if added == [] {
      assert names + AsSet(added) == names;
    } else {
      var front, last := added[..|added| - 1], added[|added| - 1];
      assert added == front + [last];
      assert names + AsSet(added) == names + AsSet(front) + {last};
      PointMapAddAll(h, replicas, names, nodes, front);
      PointMapAdd(h, replicas, names + AsSet(front), AddAll(h, replicas, nodes, front), last);
    }
  }

  lemma PointMapRemoveAll(h: Hash, replicas: int, universe: set<string>, names: set<string>, nodes: Nodes,
                          removed: set<string>)
    requires names <= universe && removed <= universe && CollisionFree(h, replicas, universe)
    requires IsPointMap(h, replicas, names, nodes)
    ensures IsPointMap(h, replicas, names - removed, RemoveAll(h, replicas, nodes, removed))
  {
  }

  lemma RemoveIsRemoveAll(h: Hash, replicas: int, nodes: Nodes, node: string)
    ensures Remove(h, replicas, nodes, node) == RemoveAll(h, replicas, nodes, {node})
  {
  }

  lemma RemoveOneMore(h: Hash, replicas: int, nodes: Nodes, removed: set<string>, name: string)
    ensures Remove(h, replicas, RemoveAll(h, replicas, nodes, removed), name)
         == RemoveAll(h, replicas, nodes, removed + {name})
  {
  }

  lemma PointMapValues(h: Hash, replicas: int, names: set<string>, nodes: Nodes)
    requires replicas > 0 && IsPointMap(h, replicas, names, nodes)
    ensures nodes.Values == names
  {
    forall n | n in names ensures n in nodes.Values {
      var p := h(Label(n, 0));
      assert p in Points(h, replicas, n);
      assert nodes[p] == n;
    }
  }

  /** The diff-based update leaves the ring a fresh build of the new list would
      give, whatever the list repeats and in whatever order nodes are removed. */
  lemma UpdateIsRebuild(h: Hash, replicas: int, names: set<string>, nodes: Nodes, backends: seq<string>)
    requires replicas > 0 && IsPointMap(h, replicas, names, nodes)
    requires CollisionFree(h, replicas, names + AsSet(backends))
    ensures Update(h, replicas, nodes, backends) == AddAll(h, replicas, map[], backends)
    ensures IsPointMap(h, replicas, AsSet(backends), Update(h, replicas, nodes, backends))
  {
    PointMapValues(h, replicas, names, nodes);
    var added := Surplus(names, backends);
    var all := names + AsSet(added);
    assert CollisionFree(h, replicas, all) by { assert all <= names + AsSet(backends); }
    PointMapAddAll(h, replicas, names, nodes, added);
    PointMapRemoveAll(h, replicas, all, all, AddAll(h, replicas, nodes, added), names - AsSet(backends));
    assert all - (names - AsSet(backends)) == AsSet(backends);
    assert {} + AsSet(backends) == AsSet(backends);
    PointMapAddAll(h, replicas, {}, map[], backends);
    PointMapIsUnique(h, replicas, AsSet(backends), Update(h, replicas, nodes, backends),
                     AddAll(h, replicas, map[], backends));
  }

  datatype Op = AddBackend(backend: string) | RemoveBackend(backend: string) | UpdateBackends(backends: seq<string>)

  function Apply(h: Hash, replicas: int, nodes: Nodes, op: Op): Nodes {
    match op
    case AddBackend(b) => Add(h, replicas, nodes, b)
    case RemoveBackend(b) => Remove(h, replicas, nodes, b)
    case UpdateBackends(bs) => Update(h, replicas, nodes, bs)
  }

  function Run(h: Hash, replicas: int, ops: seq<Op>): Nodes {
    if ops == [] then map[] else Apply(h, replicas, Run(h, replicas, ops[..|ops| - 1]), ops[|ops| - 1])
  }

  /** The set of backends a caller believes to be configured after a run. */
  function Configured(ops: seq<Op>): set<string> {
    if ops == [] then {}
    else
      var before := Configured(ops[..|ops| - 1]);
      match ops[|ops| - 1]
      case AddBackend(b) => before + {b}
      case RemoveBackend(b) => before - {b}
      case UpdateBackends(bs) => AsSet(bs)
  }

  function Mentioned(op: Op): set<string> {
    match op
    case AddBackend(b) => {b}
    case RemoveBackend(b) => {b}
    case UpdateBackends(bs) => AsSet(bs)
  }

  ghost predicate MentionsOnly(ops: seq<Op>, universe: set<string>) {
    forall i :: 0 <= i < |ops| ==> Mentioned(ops[i]) <= universe
  }

  /** After any run the ring is the point map of the configured set, so it does
      not depend on how that set came about. */
  lemma {:induction false} RunIsPointMap(h: Hash, replicas: int, universe: set<string>, ops: seq<Op>)
    requires replicas > 0 && CollisionFree(h, replicas, universe) && MentionsOnly(ops, universe)
    ensures Configured(ops) <= universe
    ensures IsPointMap(h, replicas, Configured(ops), Run(h, replicas, ops))
  {
    if ops != [] {
      var front, last := ops[..|ops| - 1], ops[|ops| - 1];
      RunIsPointMap(h, replicas, universe, front);
      assert Mentioned(last) <= universe;
      var nodes, names := Run(h, replicas, front), Configured(front);
      match last
      case AddBackend(b) =>
        assert names + {b} <= universe;
        PointMapAdd(h, replicas, names, nodes, b);
      case RemoveBackend(b) =>
        RemoveIsRemoveAll(h, replicas, nodes, b);
        PointMapRemoveAll(h, replicas, universe, names, nodes, {b});
      case UpdateBackends(bs) =>
        assert names + AsSet(bs) <= universe;
        UpdateIsRebuild(h, replicas, names, nodes, bs);
    }
  }

  lemma HistoryDoesNotMatter(h: Hash, replicas: int, universe: set<string>, ops: seq<Op>, others: seq<Op>)
    requires replicas > 0 && CollisionFree(h, replicas, universe)
    requires MentionsOnly(ops, universe) && MentionsOnly(others, universe)
    ensures Run(h, replicas, ops) == Run(h, replicas, others) <==> Configured(ops) == Configured(others)
  {
    RunIsPointMap(h, replicas, universe, ops);
    RunIsPointMap(h, replicas, universe, others);
    PointMapValues(h, replicas, Configured(ops), Run(h, replicas, ops));
    PointMapValues(h, replicas, Configured(others), Run(h, replicas, others));
    if Configured(ops) == Configured(others) {
      PointMapIsUnique(h, replicas, Configured(ops), Run(h, replicas, ops), Run(h, replicas, others));
    }
  }

  /** With no assumption on the hash, every live point of a reachable ring is a
      label of its owner. */
  lemma {:induction false} RunIsLabelled(h: Hash, replicas: int, ops: seq<Op>)
    ensures Labelled(h, replicas, Run(h, replicas, ops))
  {
    if ops != [] {
      var front, last := ops[..|ops| - 1], ops[|ops| - 1];
      RunIsLabelled(h, replicas, front);
      if last.UpdateBackends? {
        var nodes := Run(h, replicas, front);
        AddAllLabelled(h, replicas, nodes, Surplus(nodes.Values, last.backends));
      }
    }
  }

  lemma {:induction false} AddAllLabelled(h: Hash, replicas: int, nodes: Nodes, added: seq<string>)
    requires Labelled(h, replicas, nodes)
    ensures Labelled(h, replicas, AddAll(h, replicas, nodes, added))
  {
    if added != [] {
      AddAllLabelled(h, replicas, nodes, added[..|added| - 1]);
    }
  }

  // ---------- when a removal is exact ----------

  /** The names that come after the last mention of `node`, or all of them when it
      is not mentioned. */
  function After(names: seq<string>, node: string): seq<string> {
    if names == [] || names[|names| - 1] == node then []
    else After(names[..|names| - 1], node) + [names[|names| - 1]]
  }

  lemma {:induction false} SharedWithLater(h: Hash, replicas: int, names: seq<string>, node: string, p: Point)
    requires p in Points(h, replicas, node)
    ensures var ring := AddAll(h, replicas, map[], names);
            p in ring && ring[p] != node <==> exists n :: n in After(names, node) && p in Points(h, replicas, n)
    ensures var ring := AddAll(h, replicas, map[], names);
            p in ring && ring[p] == node ==> node in names
  {
    if names != [] {
      var front, last := names[..|names| - 1], names[|names| - 1];
      SharedWithLater(h, replicas, front, node, p);
      assert names == front + [last];
      if last == node {
        assert After(names, node) == [];
      } else {
        assert forall n :: n in After(names, node) <==> n in After(front, node) || n == last;
      }
    }
  }

  /** On a ring built by adding a list of names, removing a node takes away exactly
      the points it owns if and only if no name added after its last addition has
      a label on one of its points. */
  lemma RemoveIsExactIff(h: Hash, replicas: int, names: seq<string>, node: string)
    ensures var ring := AddAll(h, replicas, map[], names);
            Remove(h, replicas, ring, node) == Without(ring, node)
            <==> forall n :: n in After(names, node) ==> Points(h, replicas, n) !! Points(h, replicas, node)
  {
    var ring := AddAll(h, replicas, map[], names);
    AddAllLabelled(h, replicas, map[], names);
    RemoveTakesOnlyOwnPoints(h, replicas, ring, node);
    forall p | p in Points(h, replicas, node)
      ensures p in ring && ring[p] != node <==> exists n :: n in After(names, node) && p in Points(h, replicas, n)
    {
      SharedWithLater(h, replicas, names, node, p);
    }
  }

  /** A key whose backend survives a change of the set stays on it or moves to a
      backend that is new. */
  lemma KeptOwnerStaysOrMovesToNew(h: Hash, replicas: int, before: set<string>, nodes: Nodes,
                                   after: set<string>, nodes': Nodes, from: Point)
    requires IsPointMap(h, replicas, before, nodes) && IsPointMap(h, replicas, after, nodes')
    requires nodes != map[] && Owner(nodes, from) in after
    ensures nodes' != map[]
    ensures Owner(nodes', from) == Owner(nodes, from) || Owner(nodes', from) in after - before
  {
    var p := Nearest(nodes, from);
    assert p in nodes';
    var p' := Nearest(nodes', from);
    if nodes'[p'] in before {
      assert p' in nodes;
      assert IsNearest(nodes, from, p');
    }
  }

  /** Failover over runs: after any run, removing a backend takes it out of every
      key's walk and leaves the order of the others. */
  lemma RunFailover(h: Hash, replicas: int, universe: set<string>, ops: seq<Op>, backend: string, from: Point)
    requires replicas > 0 && CollisionFree(h, replicas, universe)
    requires MentionsOnly(ops, universe) && backend in universe
    ensures Walk(Run(h, replicas, ops + [RemoveBackend(backend)]), from)
         == Filter(Walk(Run(h, replicas, ops), from), backend)
  {
    var nodes := Run(h, replicas, ops);
    var longer := ops + [RemoveBackend(backend)];
    assert longer[..|longer| - 1] == ops;
    RunIsPointMap(h, replicas, universe, ops);
    RunIsLabelled(h, replicas, ops);
    forall p | p in nodes && p in Points(h, replicas, backend) ensures nodes[p] == backend {
      assert nodes[p] in universe && p in Points(h, replicas, nodes[p]);
    }
    FailoverOrder(h, replicas, nodes, backend, from);
  }

  // ---------- weighted balancer ----------

  /** Name of the i-th virtual node of a backend. */
  function Virtual(backend: string, i: nat): string {
    backend + "-" + Dec(i)
  }

  /** Everything before the last '-', or the whole name when there is none. */
  function BackendOf(name: string): string {
    CutAtLast(name, '-')
  }

  /** The backend is recovered from any of its virtual names, even when it
      contains dashes itself. */
  lemma BackendOfVirtual(backend: string, i: nat)
    ensures BackendOf(Virtual(backend, i)) == backend
  {
    CutNumber(backend, '-', i);
    assert Virtual(backend, i) == backend + ['-'] + Dec(i);
  }

  lemma VirtualInjective(a: string, i: nat, b: string, j: nat)
    requires Virtual(a, i) == Virtual(b, j)
    ensures a == b && i == j
  {
    NumberedDiffer(a, i, b, j, '-');
  }

  function AddVirtuals(h: Hash, replicas: int, nodes: Nodes, backend: string, count: nat): Nodes {
    if count == 0 then nodes
    else Add(h, replicas, AddVirtuals(h, replicas, nodes, backend, count - 1), Virtual(backend, count - 1))
  }

  function RemoveVirtuals(h: Hash, replicas: int, nodes: Nodes, backend: string, count: nat): Nodes {
    if count == 0 then nodes
    else Remove(h, replicas, RemoveVirtuals(h, replicas, nodes, backend, count - 1), Virtual(backend, count - 1))
  }

  datatype Weighted = Weighted(nodes: Nodes, weights: map<string, int>)

  function Normal(weight: int): (w: nat)
    ensures w >= 1
  {
    if weight <= 0 then 1 else weight
  }

  function AddWeighted(h: Hash, replicas: int, s: Weighted, backend: string, weight: int): Weighted {
    Weighted(AddVirtuals(h, replicas, s.nodes, backend, Normal(weight)), s.weights[backend := Normal(weight)])
  }

  function RemoveWeighted(h: Hash, replicas: int, s: Weighted, backend: string): Weighted {
    if backend !in s.weights then s
    else
      var count := if s.weights[backend] > 0 then s.weights[backend] else 0;
      Weighted(RemoveVirtuals(h, replicas, s.nodes, backend, count), s.weights - {backend})
  }

  ghost predicate IsVirtualOf(weights: map<string, int>, name: string) {
    exists b, i: nat :: b in weights && i < weights[b] && name == Virtual(b, i)
  }

  /** Every live point is a label of its owner, and its owner is a virtual node of
      a current backend. */
  ghost predicate Sound(h: Hash, replicas: int, s: Weighted) {
    && Labelled(h, replicas, s.nodes)
    && (forall b :: b in s.weights ==> s.weights[b] >= 1)
    && (forall p :: p in s.nodes ==> IsVirtualOf(s.weights, s.nodes[p]))
  }

  lemma {:induction false} AddVirtualsOwners(h: Hash, replicas: int, nodes: Nodes, backend: string, count: nat)
    requires Labelled(h, replicas, nodes)
    ensures var after := AddVirtuals(h, replicas, nodes, backend, count);
            && Labelled(h, replicas, after)
            && forall p :: p in after ==>
                 || (p in nodes && after[p] == nodes[p])
                 || (exists i: nat :: i < count && after[p] == Virtual(backend, i))
  {
    if count > 0 {
      AddVirtualsOwners(h, replicas, nodes, backend, count - 1);
    }
  }

  lemma {:induction false} RemoveVirtualsIsExact(h: Hash, replicas: int, nodes: Nodes, backend: string, count: nat)
    ensures RemoveVirtuals(h, replicas, nodes, backend, count)
         == map p | p in nodes && (forall i: nat :: i < count ==> p !in Points(h, replicas, Virtual(backend, i)))
              :: nodes[p]
  {
    if count > 0 {
      RemoveVirtualsIsExact(h, replicas, nodes, backend, count - 1);
    }
  }

  lemma AddWeightedKeepsSound(h: Hash, replicas: int, s: Weighted, backend: string, weight: int)
    requires Sound(h, replicas, s)
    requires backend in s.weights ==> s.weights[backend] <= Normal(weight)
    ensures Sound(h, replicas, AddWeighted(h, replicas, s, backend, weight))
  {
    var s' := AddWeighted(h, replicas, s, backend, weight);
    AddVirtualsOwners(h, replicas, s.nodes, backend, Normal(weight));
    forall p | p in s'.nodes ensures IsVirtualOf(s'.weights, s'.nodes[p]) {
      if p in s.nodes && s'.nodes[p] == s.nodes[p] {
        var b, i: nat :| b in s.weights && i < s.weights[b] && s.nodes[p] == Virtual(b, i);
        assert b in s'.weights && i < s'.weights[b];
      } else {
        var i: nat :| i < Normal(weight) && s'.nodes[p] == Virtual(backend, i);
        assert i < s'.weights[backend];
      }
    }
  }

  lemma RemoveWeightedKeepsSound(h: Hash, replicas: int, s: Weighted, backend: string)
    requires Sound(h, replicas, s)
    ensures Sound(h, replicas, RemoveWeighted(h, replicas, s, backend))
  {
    if backend in s.weights {
      var s' := RemoveWeighted(h, replicas, s, backend);
      RemoveVirtualsIsExact(h, replicas, s.nodes, backend, s.weights[backend]);
      forall p | p in s'.nodes ensures IsVirtualOf(s'.weights, s'.nodes[p]) {
        var b, i: nat :| b in s.weights && i < s.weights[b] && s.nodes[p] == Virtual(b, i);
        assert p in Points(h, replicas, Virtual(b, i));
        assert b != backend;
        assert b in s'.weights && i < s'.weights[b];
      }
    }
  }

  datatype WeightedOp = AddOp(backend: string, weight: int) | RemoveOp(backend: string)

  function ApplyWeighted(h: Hash, replicas: int, s: Weighted, op: WeightedOp): Weighted {
    match op
    case AddOp(b, w) => AddWeighted(h, replicas, s, b, w)
    case RemoveOp(b) => RemoveWeighted(h, replicas, s, b)
  }

  function RunWeighted(h: Hash, replicas: int, ops: seq<WeightedOp>): Weighted {
    if ops == [] then Weighted(map[], map[])
    else ApplyWeighted(h, replicas, RunWeighted(h, replicas, ops[..|ops| - 1]), ops[|ops| - 1])
  }

  /** The operation does not re-add a present backend with a smaller weight. */
  predicate NeverShrinks(s: Weighted, op: WeightedOp) {
    op.AddOp? && op.backend in s.weights ==> s.weights[op.backend] <= Normal(op.weight)
  }

  ghost predicate RunNeverShrinks(h: Hash, replicas: int, ops: seq<WeightedOp>) {
    forall k :: 0 <= k < |ops| ==> NeverShrinks(RunWeighted(h, replicas, ops[..k]), ops[k])
  }

  lemma {:induction false} RunIsSound(h: Hash, replicas: int, ops: seq<WeightedOp>)
    requires RunNeverShrinks(h, replicas, ops)
    ensures Sound(h, replicas, RunWeighted(h, replicas, ops))
  {
    if ops != [] {
      var front, last := ops[..|ops| - 1], ops[|ops| - 1];
      assert forall k :: 0 <= k < |front| ==> front[..k] == ops[..k] && front[k] == ops[k];
      RunIsSound(h, replicas, front);
      assert NeverShrinks(RunWeighted(h, replicas, front), last);
      match last
      case AddOp(b, w) => AddWeightedKeepsSound(h, replicas, RunWeighted(h, replicas, front), b, w);
      case RemoveOp(b) => RemoveWeightedKeepsSound(h, replicas, RunWeighted(h, replicas, front), b);
    }
  }

  /** Every selection names a current backend, however labels collide. */
  lemma SelectionIsCurrent(h: Hash, replicas: int, ops: seq<WeightedOp>, from: Point)
    requires RunNeverShrinks(h, replicas, ops)
    requires RunWeighted(h, replicas, ops).nodes != map[]
    ensures BackendOf(Owner(RunWeighted(h, replicas, ops).nodes, from)) in RunWeighted(h, replicas, ops).weights
  {
    var s := RunWeighted(h, replicas, ops);
    RunIsSound(h, replicas, ops);
    var b, i: nat :| b in s.weights && i < s.weights[b] && Owner(s.nodes, from) == Virtual(b, i);
    BackendOfVirtual(b, i);
  }

  // ---------- selections during an update ----------

  /** How many virtual nodes an operation adds to or takes off the ring. */
  function Updates(s: Weighted, op: WeightedOp): nat {
    match op
    case AddOp(_, w) => Normal(w)
    case RemoveOp(b) => if b in s.weights && s.weights[b] > 0 then s.weights[b] else 0
  }

  /** The state that a selection sees once the operation has done `i` of its ring
      updates: an addition sets the weight first, a removal drops it last. */
  function Midway(h: Hash, replicas: int, s: Weighted, op: WeightedOp, i: nat): Weighted {
    match op
    case AddOp(b, w) => Weighted(AddVirtuals(h, replicas, s.nodes, b, i), s.weights[b := Normal(w)])
    case RemoveOp(b) => Weighted(RemoveVirtuals(h, replicas, s.nodes, b, i), s.weights)
  }

  /** Also between the single ring updates of an addition, which may shrink a weight,
      or of a removal, every selection names a backend that still has a weight. The
      last such state is the operation's result, but for the weight that a removal
      drops. */
  lemma SelectionDuringUpdateIsCurrent(h: Hash, replicas: int, ops: seq<WeightedOp>, op: WeightedOp, i: nat,
                                       from: Point)
    requires RunNeverShrinks(h, replicas, ops)
    requires i <= Updates(RunWeighted(h, replicas, ops), op)
    requires Midway(h, replicas, RunWeighted(h, replicas, ops), op, i).nodes != map[]
    ensures var mid := Midway(h, replicas, RunWeighted(h, replicas, ops), op, i);
            && BackendOf(Owner(mid.nodes, from)) in mid.weights
            && (i == Updates(RunWeighted(h, replicas, ops), op) && op.backend in mid.weights ==>
                  ApplyWeighted(h, replicas, RunWeighted(h, replicas, ops), op)
                  == if op.AddOp? then mid else Weighted(mid.nodes, mid.weights - {op.backend}))
  {
    RunIsSound(h, replicas, ops);
    var s := RunWeighted(h, replicas, ops);
    var mid := Midway(h, replicas, s, op, i);
    var p := Nearest(mid.nodes, from);
    if op.AddOp? {
      AddVirtualsOwners(h, replicas, s.nodes, op.backend, i);
    } else {
      RemoveVirtualsIsExact(h, replicas, s.nodes, op.backend, i);
    }
    if p in s.nodes && mid.nodes[p] == s.nodes[p] {
      var b, j: nat :| b in s.weights && j < s.weights[b] && s.nodes[p] == Virtual(b, j);
      BackendOfVirtual(b, j);
    } else {
      var j: nat :| j < i && mid.nodes[p] == Virtual(op.backend, j);
      BackendOfVirtual(op.backend, j);
    }
  }

  function VirtualNames(weights: map<string, int>): set<string> {
    set b, i | b in weights && 0 <= i < weights[b] :: Virtual(b, i)
  }

  /** A removed backend can still be selected. */
  ghost predicate Strands(s: Weighted) {
    exists p :: p in s.nodes && BackendOf(s.nodes[p]) !in s.weights
  }

  // ---------- weighted runs on a collision-free hash ----------

  function Virtuals(backend: string, count: nat): set<string> {
    set i | 0 <= i < count :: Virtual(backend, i)
  }

  lemma {:induction false} PointMapAddVirtuals(h: Hash, replicas: int, universe: set<string>, names: set<string>,
                                               nodes: Nodes, backend: string, count: nat)
    requires IsPointMap(h, replicas, names, nodes) && CollisionFree(h, replicas, universe)
    requires names <= universe && forall i: nat :: i < count ==> Virtual(backend, i) in universe
    ensures IsPointMap(h, replicas, names + Virtuals(backend, count),
                       AddVirtuals(h, replicas, nodes, backend, count))
  {
    if count == 0 {
      assert names + Virtuals(backend, count) == names;
    } else {
      var before := names + Virtuals(backend, count - 1);
      var v := Virtual(backend, count - 1);
      PointMapAddVirtuals(h, replicas, universe, names, nodes, backend, count - 1);
      assert before + {v} == names + Virtuals(backend, count);
      assert before + {v} <= universe;
      PointMapAdd(h, replicas, before, AddVirtuals(h, replicas, nodes, backend, count - 1), v);
    }
  }

  lemma PointMapRemoveVirtuals(h: Hash, replicas: int, universe: set<string>, names: set<string>, nodes: Nodes,
                               backend: string, count: nat)
    requires IsPointMap(h, replicas, names, nodes) && CollisionFree(h, replicas, universe)
    requires names <= universe && forall i: nat :: i < count ==> Virtual(backend, i) in universe
    ensures IsPointMap(h, replicas, names - Virtuals(backend, count),
                       RemoveVirtuals(h, replicas, nodes, backend, count))
  {
    var removed := Virtuals(backend, count);
    RemoveVirtualsIsExact(h, replicas, nodes, backend, count);
    PointMapRemoveAll(h, replicas, universe, names, nodes, removed);
    var a, b := RemoveVirtuals(h, replicas, nodes, backend, count), RemoveAll(h, replicas, nodes, removed);
    forall p ensures p in a <==> p in b {
      forall i: nat | i < count ensures Virtual(backend, i) in removed {}
    }
    assert a == b;
  }

  ghost predicate VirtualsWithin(ops: seq<WeightedOp>, universe: set<string>) {
    forall k, i: nat :: 0 <= k < |ops| && ops[k].AddOp? && i < Normal(ops[k].weight) ==>
                          Virtual(ops[k].backend, i) in universe
  }

  /** With a collision-free hash, a run that never shrinks a weight leaves exactly
      the virtual nodes of the current weights on the ring. */
  lemma {:induction false} RunIsVirtualPointMap(h: Hash, replicas: int, universe: set<string>, ops: seq<WeightedOp>)
    requires CollisionFree(h, replicas, universe) && VirtualsWithin(ops, universe)
    requires RunNeverShrinks(h, replicas, ops)
    ensures var s := RunWeighted(h, replicas, ops);
            && VirtualNames(s.weights) <= universe
            && IsPointMap(h, replicas, VirtualNames(s.weights), s.nodes)
  {
    if ops != [] {
      var front, last := ops[..|ops| - 1], ops[|ops| - 1];
      assert forall k :: 0 <= k < |front| ==> front[..k] == ops[..k] && front[k] == ops[k];
      RunIsVirtualPointMap(h, replicas, universe, front);
      assert NeverShrinks(RunWeighted(h, replicas, front), last);
      var s := RunWeighted(h, replicas, front);
      var names, b := VirtualNames(s.weights), last.backend;
      RunIsSound(h, replicas, front);
      match last
      case AddOp(_, weight) =>
        PointMapAddVirtuals(h, replicas, universe, names, s.nodes, b, Normal(weight));
        VirtualNamesGrow(s.weights, b, Normal(weight));
      case RemoveOp(_) =>
        if b in s.weights {
          assert forall i: nat :: i < s.weights[b] ==> Virtual(b, i) in names;
          PointMapRemoveVirtuals(h, replicas, universe, names, s.nodes, b, s.weights[b]);
          VirtualNamesShrink(s.weights, b);
        }
    }
  }

  lemma VirtualNamesGrow(weights: map<string, int>, b: string, w: nat)
    requires b in weights ==> weights[b] <= w
    ensures VirtualNames(weights[b := w]) == VirtualNames(weights) + Virtuals(b, w)
  {
  }

  lemma VirtualNamesShrink(weights: map<string, int>, b: string)
    requires b in weights && weights[b] >= 0
    ensures VirtualNames(weights - {b}) == VirtualNames(weights) - Virtuals(b, weights[b])
  {
    var less := weights - {b};
    forall a, i | a in less && 0 <= i < less[a]
      ensures Virtual(a, i) !in Virtuals(b, weights[b])
    {
      forall j | 0 <= j < weights[b] ensures Virtual(a, i) != Virtual(b, j) {
        if Virtual(a, i) == Virtual(b, j) { VirtualInjective(a, i, b, j); }
      }
    }
    forall a, i | a in weights && 0 <= i < weights[a] && a != b ensures Virtual(a, i) in VirtualNames(less) {
      assert a in less && i < less[a];
    }
  }

  // ---------- which runs strand a removed backend ----------

  /** The weights after a run: they do not depend on the hash. */
  function Weights(ops: seq<WeightedOp>): map<string, int> {
    if ops == [] then map[]
    else
      match ops[|ops| - 1]
      case AddOp(b, w) => Weights(ops[..|ops| - 1])[b := Normal(w)]
      case RemoveOp(b) => Weights(ops[..|ops| - 1]) - {b}
  }

  lemma {:induction false} RunHasWeights(h: Hash, replicas: int, ops: seq<WeightedOp>)
    ensures RunWeighted(h, replicas, ops).weights == Weights(ops)
  {
    if ops != [] {
      RunHasWeights(h, replicas, ops[..|ops| - 1]);
    }
  }

  /** The high-water mark of a backend: the largest weight it was added with since it
      was last removed with a weight that reached the mark. */
  function High(ops: seq<WeightedOp>, b: string): nat {
    if ops == [] then 0
    else
      var front := ops[..|ops| - 1];
      match ops[|ops| - 1]
      case AddOp(a, w) => if a == b && Normal(w) > High(front, b) then Normal(w) else High(front, b)
      case RemoveOp(a) =>
        if a == b && b in Weights(front) && Weights(front)[b] >= High(front, b) then 0 else High(front, b)
  }

  /** The virtual nodes a run leaves when no two share a point. */
  ghost function Live(ops: seq<WeightedOp>): set<string> {
    if ops == [] then {}
    else
      var front, last := ops[..|ops| - 1], ops[|ops| - 1];
      match last
      case AddOp(b, w) => Live(front) + Virtuals(b, Normal(w))
      case RemoveOp(b) =>
        if b in Weights(front) && Weights(front)[b] >= 0
        then Live(front) - Virtuals(b, Weights(front)[b])
        else Live(front)
  }

  ghost predicate Marks(live: set<string>, weights: map<string, int>, b: string, high: nat) {
    && (forall i: nat :: Virtual(b, i) in live ==> i < high)
    && (high > 0 ==> Virtual(b, high - 1) in live)
    && (b in weights ==> 1 <= weights[b] <= high)
  }

  lemma InVirtuals(a: string, i: nat, b: string, count: nat)
    ensures Virtual(a, i) in Virtuals(b, count) <==> a == b && i < count
  {
    if Virtual(a, i) in Virtuals(b, count) {
      var j :| 0 <= j < count && Virtual(a, i) == Virtual(b, j);
      VirtualInjective(a, i, b, j);
    }
  }

  lemma AddMarks(live: set<string>, weights: map<string, int>, b: string, high: nat, a: string, w: nat)
    requires Marks(live, weights, b, high) && w >= 1
    ensures Marks(live + Virtuals(a, w), weights[a := w], b, if a == b && w > high then w else high)
  {
    forall i: nat ensures Virtual(b, i) in Virtuals(a, w) <==> a == b && i < w {
      InVirtuals(b, i, a, w);
    }
  }

  lemma RemoveMarks(live: set<string>, weights: map<string, int>, b: string, high: nat, a: string)
    requires Marks(live, weights, b, high) && a in weights && weights[a] >= 0
    ensures Marks(live - Virtuals(a, weights[a]), weights - {a}, b, if a == b && weights[a] >= high then 0 else high)
  {
    forall i: nat ensures Virtual(b, i) in Virtuals(a, weights[a]) <==> a == b && i < weights[a] {
      InVirtuals(b, i, a, weights[a]);
    }
  }

  lemma {:induction false} RunMarks(ops: seq<WeightedOp>, b: string)
    ensures Marks(Live(ops), Weights(ops), b, High(ops, b))
  {
    if ops != [] {
      var front, last := ops[..|ops| - 1], ops[|ops| - 1];
      RunMarks(front, b);
      match last
      case AddOp(a, w) => AddMarks(Live(front), Weights(front), b, High(front, b), a, Normal(w));
      case RemoveOp(a) =>
        RunMarks(front, a);
        if a in Weights(front) { RemoveMarks(Live(front), Weights(front), b, High(front, b), a); }
    }
  }

  lemma {:induction false} LiveAreVirtual(ops: seq<WeightedOp>, name: string)
    requires name in Live(ops)
    ensures exists b, i: nat :: name == Virtual(b, i)
  {
    var front, last := ops[..|ops| - 1], ops[|ops| - 1];
    if name in Live(front) {
      LiveAreVirtual(front, name);
    } else {
      var i :| 0 <= i < Normal(last.weight) && name == Virtual(last.backend, i);
    }
  }

  lemma {:induction false} WeightsWithin(universe: set<string>, ops: seq<WeightedOp>, b: string)
    requires VirtualsWithin(ops, universe) && b in Weights(ops)
    ensures forall i: nat :: i < Weights(ops)[b] ==> Virtual(b, i) in universe
  {
    var front, last := ops[..|ops| - 1], ops[|ops| - 1];
    assert forall k :: 0 <= k < |front| ==> front[k] == ops[k];
    if last.backend != b {
      WeightsWithin(universe, front, b);
    } else {
      assert last == ops[|ops| - 1] && Weights(ops)[b] == Normal(last.weight);
    }
  }

  lemma {:induction false} RunIsLive(h: Hash, replicas: int, universe: set<string>, ops: seq<WeightedOp>)
    requires CollisionFree(h, replicas, universe) && VirtualsWithin(ops, universe)
    ensures Live(ops) <= universe
    ensures IsPointMap(h, replicas, Live(ops), RunWeighted(h, replicas, ops).nodes)
  {
    if ops != [] {
      var front, last := ops[..|ops| - 1], ops[|ops| - 1];
      RunIsLive(h, replicas, universe, front);
      RunHasWeights(h, replicas, front);
      var s, b := RunWeighted(h, replicas, front), last.backend;
      RunMarks(front, b);
      match last
      case AddOp(_, w) => PointMapAddVirtuals(h, replicas, universe, Live(front), s.nodes, b, Normal(w));
      case RemoveOp(_) =>
        if b in s.weights {
          WeightsWithin(universe, front, b);
          PointMapRemoveVirtuals(h, replicas, universe, Live(front), s.nodes, b, s.weights[b]);
        }
    }
  }

  /** The ring names a backend that `weights` does not hold. */
  lemma PointMapStrandsIff(h: Hash, replicas: int, names: set<string>, nodes: Nodes, weights: map<string, int>)
    requires replicas > 0 && IsPointMap(h, replicas, names, nodes)
    ensures Strands(Weighted(nodes, weights)) <==> exists n :: n in names && BackendOf(n) !in weights
  {
    PointMapValues(h, replicas, names, nodes);
    forall n | n in names && BackendOf(n) !in weights ensures Strands(Weighted(nodes, weights)) {
      assert n in nodes.Values;
    }
  }

  /** After any run on a collision-free hash, a removed backend can still be selected
      exactly when some backend without a weight has its mark above zero. */
  lemma RunStrandsIff(h: Hash, replicas: int, universe: set<string>, ops: seq<WeightedOp>)
    requires replicas > 0 && CollisionFree(h, replicas, universe) && VirtualsWithin(ops, universe)
    ensures Strands(RunWeighted(h, replicas, ops)) <==> exists b :: High(ops, b) > 0 && b !in Weights(ops)
  {
    RunIsLive(h, replicas, universe, ops);
    RunHasWeights(h, replicas, ops);
    var s := RunWeighted(h, replicas, ops);
    PointMapStrandsIff(h, replicas, Live(ops), s.nodes, s.weights);
    forall n | n in Live(ops) && BackendOf(n) !in s.weights
      ensures exists b :: High(ops, b) > 0 && b !in Weights(ops)
    {
      LiveAreVirtual(ops, n);
      var b, i: nat :| n == Virtual(b, i);
      BackendOfVirtual(b, i);
      RunMarks(ops, b);
      assert High(ops, b) > 0 && b !in Weights(ops);
    }
    forall b | High(ops, b) > 0 && b !in Weights(ops) ensures exists n :: n in Live(ops) && BackendOf(n) !in s.weights {
      RunMarks(ops, b);
      BackendOfVirtual(b, High(ops, b) - 1);
      assert Virtual(b, High(ops, b) - 1) in Live(ops);
    }
  }

  function AddedTwiceRemoved(b: string, w: int, again: int): seq<WeightedOp> {
    [AddOp(b, w), AddOp(b, again), RemoveOp(b)]
  }

  lemma AddedTwiceMarks(b: string, w: int, again: int, c: string)
    ensures var ops := AddedTwiceRemoved(b, w, again);
            && Weights(ops) == map[]
            && High(ops, c) == if b == c && Normal(again) < Normal(w) then Normal(w) else 0
  {
    var ops := AddedTwiceRemoved(b, w, again);
    var first, second := ops[..1], ops[..2];
    assert first == [AddOp(b, w)] && second == [AddOp(b, w), AddOp(b, again)];
    assert first[..0] == [] && second[..1] == first;
    assert Weights(first) == map[b := Normal(w)] && Weights(second) == map[b := Normal(again)];
    assert High(first, c) == if b == c then Normal(w) else 0;
  }

  /** The shortest such run: a backend added, added again with a smaller weight, and
      removed. */
  lemma ShrunkThenRemovedStrands(h: Hash, replicas: int, universe: set<string>, b: string, w: int, again: int)
    requires replicas > 0 && CollisionFree(h, replicas, universe)
    requires forall i: nat :: i < Normal(w) || i < Normal(again) ==> Virtual(b, i) in universe
    ensures Strands(RunWeighted(h, replicas, AddedTwiceRemoved(b, w, again))) <==> Normal(again) < Normal(w)
  {
    var ops := AddedTwiceRemoved(b, w, again);
    assert VirtualsWithin(ops, universe);
    RunStrandsIff(h, replicas, universe, ops);
    AddedTwiceMarks(b, w, again, b);
    forall c ensures High(ops, c) > 0 && c !in Weights(ops) <==> b == c && Normal(again) < Normal(w) {
      AddedTwiceMarks(b, w, again, c);
    }
    assert Normal(again) < Normal(w) ==> High(ops, b) > 0 && b !in Weights(ops);
  }
}
