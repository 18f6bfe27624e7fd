/** How many points each node and each weighted backend owns, and which, stated from
    the names and numbers a caller passes. */
module RingCounts {
  import opened Wrappers
  import opened Decimal
  import opened RingSpec
  import opened BalancerSpec

  // ---------- plain nodes ----------

  /** The labels of two nodes hash to different points, but for the same label. */
  ghost predicate TwoApart(h: Hash, replicas: int, a: string, b: string) {
    forall i: nat, j: nat :: i < replicas && j < replicas && h(a + ":" + Dec(i)) == h(b + ":" + Dec(j)) ==>
                               a == b && i == j
  }

  /** Different nodes and indices hash to different points. */
  ghost predicate LabelsApart(h: Hash, replicas: int, names: set<string>) {
    forall a, b :: a in names && b in names ==> TwoApart(h, replicas, a, b)
  }

  ghost function Owned(nodes: Nodes, node: string): set<Point> {
    set p | p in nodes && nodes[p] == node
  }

  lemma ApartIsCollisionFree(h: Hash, replicas: int, names: set<string>)
    requires LabelsApart(h, replicas, names)
    ensures CollisionFree(h, replicas, names)
  {
    forall a, b, p | a in names && b in names && p in Points(h, replicas, a) && p in Points(h, replicas, b)
      ensures a == b
    {
      var i :| 0 <= i < replicas && p == h(Label(a, i));
      var j :| 0 <= j < replicas && p == h(Label(b, j));
      assert TwoApart(h, replicas, a, b);
      assert h(a + ":" + Dec(i)) == h(b + ":" + Dec(j));
    }
  }

  lemma {:induction false} PointsCount(h: Hash, replicas: int, names: set<string>, node: string, k: nat)
    requires LabelsApart(h, replicas, names) && node in names && k <= replicas
    ensures |Points(h, k, node)| == k
  {
    if k == 0 {
      assert Points(h, k, node) == {};
    } else {
      PointsCount(h, replicas, names, node, k - 1);
      var p := h(Label(node, k - 1));
      assert TwoApart(h, replicas, node, node);
      assert Points(h, k, node) == Points(h, k - 1, node) + {p};
      forall i: nat | i < k - 1 ensures h(Label(node, i)) != p {
        assert h(node + ":" + Dec(i)) == h(node + ":" + Dec(k - 1)) ==> i == k - 1;
      }
    }
  }

  lemma OwnedArePoints(h: Hash, replicas: int, names: set<string>, nodes: Nodes, node: string)
    requires IsPointMap(h, replicas, names, nodes) && node in names
    ensures Owned(nodes, node) == Points(h, replicas, node)
  {
  }

  lemma OneMoreTimes(n: nat, r: nat)
    ensures (n + 1) * r == n * r + r
  {
  }

  lemma OwnedCount(h: Hash, replicas: nat, names: set<string>, nodes: Nodes, node: string)
    requires LabelsApart(h, replicas, names) && IsPointMap(h, replicas, names, nodes) && node in names
    ensures |Owned(nodes, node)| == replicas
  {
    OwnedArePoints(h, replicas, names, nodes, node);
    PointsCount(h, replicas, names, node, replicas);
  }

  function AllPoints(h: Hash, replicas: int, names: seq<string>): set<Point> {
    if names == [] then {}
    else AllPoints(h, replicas, names[..|names| - 1]) + Points(h, replicas, names[|names| - 1])
  }

  lemma {:induction false} AllPointsAre(h: Hash, replicas: int, names: seq<string>, p: Point)
    ensures p in AllPoints(h, replicas, names) <==> exists n :: n in names && p in Points(h, replicas, n)
  {
    if names != [] {
      var front, last := names[..|names| - 1], names[|names| - 1];
      AllPointsAre(h, replicas, front, p);
      assert names == front + [last];
      assert forall n :: n in names <==> n in front || n == last;
    }
  }

  lemma NewPointsApart(h: Hash, replicas: int, front: seq<string>, last: string, universe: set<string>)
    requires CollisionFree(h, replicas, universe) && last !in front && last in universe
    requires forall n :: n in front ==> n in universe
    ensures AllPoints(h, replicas, front) !! Points(h, replicas, last)
  {
    forall p | p in AllPoints(h, replicas, front) ensures p !in Points(h, replicas, last) {
      AllPointsAre(h, replicas, front, p);
    }
  }

  lemma {:induction false} AllPointsCount(h: Hash, replicas: nat, universe: set<string>, names: seq<string>)
    requires LabelsApart(h, replicas, universe) && NoDuplicates(names)
    requires forall n :: n in names ==> n in universe
    ensures |AllPoints(h, replicas, names)| == |names| * replicas
  {
    if names != [] {
      var front, last := names[..|names| - 1], names[|names| - 1];
      assert names == front + [last] && last in names;
      AllPointsCount(h, replicas, universe, front);
      ApartIsCollisionFree(h, replicas, universe);
      NewPointsApart(h, replicas, front, last, universe);
      PointsCount(h, replicas, universe, last, replicas);
      OneMoreTimes(|front|, replicas);
    }
  }

  lemma {:induction false} Listing(names: set<string>) returns (list: seq<string>)
    ensures NoDuplicates(list) && |list| == |names| && forall n :: n in list <==> n in names
  {
    if names == {} {
      list := [];
    } else {
      var name :| name in names;
      var rest := Listing(names - {name});
      list := rest + [name];
      assert forall n :: n in list <==> n in rest || n == name;
    }
  }

  lemma PointMapCount(h: Hash, replicas: nat, names: set<string>, nodes: Nodes)
    requires LabelsApart(h, replicas, names) && IsPointMap(h, replicas, names, nodes)
    ensures |nodes| == |names| * replicas
  {
    var list := Listing(names);
    AllPointsCount(h, replicas, names, list);
    forall p ensures p in nodes <==> p in AllPoints(h, replicas, list) {
      AllPointsAre(h, replicas, list, p);
    }
    assert nodes.Keys == AllPoints(h, replicas, list);
  }

  lemma FewerApart(h: Hash, replicas: int, names: set<string>, fewer: set<string>)
    requires LabelsApart(h, replicas, names) && fewer <= names
    ensures LabelsApart(h, replicas, fewer)
  {
  }

  ghost predicate OwnsLabels(h: Hash, replicas: int, nodes: Nodes, node: string) {
    forall p :: p in nodes && nodes[p] == node <==> exists i: nat :: i < replicas && p == h(node + ":" + Dec(i))
  }

  lemma PointMapOwnsLabels(h: Hash, replicas: int, names: set<string>, nodes: Nodes, node: string)
    requires IsPointMap(h, replicas, names, nodes) && node in names
    ensures OwnsLabels(h, replicas, nodes, node)
  {
    OwnedArePoints(h, replicas, names, nodes, node);
    forall p ensures p in Owned(nodes, node) <==> exists i: nat :: i < replicas && p == h(node + ":" + Dec(i)) {
      if i: nat :| i < replicas && p == h(node + ":" + Dec(i)) {
        assert p == h(Label(node, i));
        assert p in Points(h, replicas, node);
      }
      if p in Points(h, replicas, node) {
        var i :| 0 <= i < replicas && p == h(Label(node, i));
        assert p == h(node + ":" + Dec(i));
      }
    }
  }

  /** After any run on labels that do not collide, the ring of k configured names has k
      times `replicas` points: each name owns exactly the points its name, a colon and
      each index below `replicas` hash to, and there are `replicas` of them. */
  lemma RunPointCount(h: Hash, replicas: nat, universe: set<string>, ops: seq<Op>, node: string)
    requires replicas > 0 && LabelsApart(h, replicas, universe) && MentionsOnly(ops, universe)
    ensures |Run(h, replicas, ops)| == |Configured(ops)| * replicas
    ensures node in Configured(ops) ==>
              OwnsLabels(h, replicas, Run(h, replicas, ops), node) && |Owned(Run(h, replicas, ops), node)| == replicas
    ensures node !in Configured(ops) ==> Owned(Run(h, replicas, ops), node) == {}
  {
    var nodes, names := Run(h, replicas, ops), Configured(ops);
    ApartIsCollisionFree(h, replicas, universe);
    RunIsPointMap(h, replicas, universe, ops);
    PointMapCount(h, replicas, names, nodes);
    if node in names {
      PointMapOwnsLabels(h, replicas, names, nodes, node);
      OwnedCount(h, replicas, names, nodes, node);
    }
  }

  // ---------- weighted backends ----------

  /** The weight a backend has from its last addition, a number below one counting as
      one, unless it was removed since. */
  function LastWeight(ops: seq<WeightedOp>, b: string): Option<nat> {
    if ops == [] then None
    else
      match ops[|ops| - 1]
      case AddOp(a, w) => if a != b then LastWeight(ops[..|ops| - 1], b) else if w >= 1 then Some(w) else Some(1)
      case RemoveOp(a) => if a == b then None else LastWeight(ops[..|ops| - 1], b)
  }

  lemma {:induction false} WeightIsLast(h: Hash, replicas: int, ops: seq<WeightedOp>, b: string)
    ensures var weights := RunWeighted(h, replicas, ops).weights;
            match LastWeight(ops, b)
            case None => b !in weights
            case Some(w) => b in weights && weights[b] == w
  {
    if ops != [] {
      WeightIsLast(h, replicas, ops[..|ops| - 1], b);
    }
  }

  lemma {:induction false} AddVirtualsPuts(h: Hash, replicas: int, nodes: Nodes, b: string, count: nat, i: nat, j: nat)
    requires i < count && j < replicas
    ensures h(b + "-" + Dec(i) + ":" + Dec(j)) in AddVirtuals(h, replicas, nodes, b, count)
  {
    assert Label(Virtual(b, i), j) == b + "-" + Dec(i) + ":" + Dec(j);
    if i == count - 1 {
      assert h(Label(Virtual(b, i), j)) in Points(h, replicas, Virtual(b, i));
    } else {
      AddVirtualsPuts(h, replicas, nodes, b, count - 1, i, j);
    }
  }

  /** After an addition with the number w, whatever came before and however labels
      collide: the weight is w, or one if w is below one, and every label of that many
      virtual nodes is on the ring. */
  lemma AddedWeight(h: Hash, replicas: int, ops: seq<WeightedOp>, b: string, w: int)
    ensures var s := RunWeighted(h, replicas, ops + [AddOp(b, w)]);
            && b in s.weights && (w >= 1 ==> s.weights[b] == w) && (w < 1 ==> s.weights[b] == 1)
            && (forall i: nat, j: nat :: j < replicas && (if w >= 1 then i < w else i == 0) ==>
                  h(b + "-" + Dec(i) + ":" + Dec(j)) in s.nodes)
  {
    var longer := ops + [AddOp(b, w)];
    assert longer[..|longer| - 1] == ops;
    WeightIsLast(h, replicas, longer, b);
    var nodes := RunWeighted(h, replicas, ops).nodes;
    forall i: nat, j: nat | j < replicas && (if w >= 1 then i < w else i == 0)
      ensures h(b + "-" + Dec(i) + ":" + Dec(j)) in RunWeighted(h, replicas, longer).nodes
    {
      AddVirtualsPuts(h, replicas, nodes, b, Normal(w), i, j);
    }
  }

  ghost function OwnedByBackend(nodes: Nodes, b: string): set<Point> {
    set p | p in nodes && CutAtLast(nodes[p], '-') == b
  }

  ghost function OwnedByFirst(nodes: Nodes, b: string, count: nat): set<Point> {
    set p | p in nodes && nodes[p] in Virtuals(b, count)
  }

  lemma OwnedByOneMore(nodes: Nodes, b: string, count: nat)
    ensures OwnedByFirst(nodes, b, count + 1) == OwnedByFirst(nodes, b, count) + Owned(nodes, Virtual(b, count))
    ensures OwnedByFirst(nodes, b, count) !! Owned(nodes, Virtual(b, count))
  {
    forall p | p in nodes
      ensures nodes[p] in Virtuals(b, count + 1) <==> nodes[p] in Virtuals(b, count) || nodes[p] == Virtual(b, count)
    {
      if nodes[p] in Virtuals(b, count + 1) {
        var i :| 0 <= i < count + 1 && nodes[p] == Virtual(b, i);
        assert i < count ==> nodes[p] in Virtuals(b, count);
      }
      if nodes[p] in Virtuals(b, count) {
        var i :| 0 <= i < count && nodes[p] == Virtual(b, i);
        assert 0 <= i < count + 1;
      }
    }
    InVirtuals(b, count, b, count);
  }

  lemma {:induction false} FirstVirtualsCount(nodes: Nodes, b: string, count: nat, share: nat)
    requires forall i: nat :: i < count ==> |Owned(nodes, Virtual(b, i))| == share
    ensures |OwnedByFirst(nodes, b, count)| == count * share
  {
    if count == 0 {
      assert OwnedByFirst(nodes, b, count) == {};
    } else {
      FirstVirtualsCount(nodes, b, count - 1, share);
      OwnedByOneMore(nodes, b, count - 1);
      OneMoreTimes(count - 1, share);
    }
  }

  lemma VirtualOwns(h: Hash, replicas: nat, universe: set<string>, weights: map<string, int>, nodes: Nodes, b: string)
    requires LabelsApart(h, replicas, universe) && VirtualNames(weights) <= universe
    requires IsPointMap(h, replicas, VirtualNames(weights), nodes) && b in weights && weights[b] >= 0
    ensures |OwnedByFirst(nodes, b, weights[b])| == weights[b] * replicas
  {
    FewerApart(h, replicas, universe, VirtualNames(weights));
    forall i: nat | i < weights[b] ensures |Owned(nodes, Virtual(b, i))| == replicas {
      OwnedCount(h, replicas, VirtualNames(weights), nodes, Virtual(b, i));
    }
    FirstVirtualsCount(nodes, b, weights[b], replicas);
  }

  lemma BackendOwnsVirtuals(h: Hash, replicas: int, weights: map<string, int>, nodes: Nodes, b: string)
    requires IsPointMap(h, replicas, VirtualNames(weights), nodes)
    ensures b in weights && weights[b] >= 0 ==> OwnedByBackend(nodes, b) == OwnedByFirst(nodes, b, weights[b])
    ensures b !in weights ==> OwnedByBackend(nodes, b) == {}
  {
    forall p | p in nodes
      ensures exists i: nat :: CutAtLast(nodes[p], '-') in weights && i < weights[CutAtLast(nodes[p], '-')]
                             && nodes[p] == Virtual(CutAtLast(nodes[p], '-'), i)
    {
      var a, i :| a in weights && 0 <= i < weights[a] && nodes[p] == Virtual(a, i);
      BackendOfVirtual(a, i);
    }
    if b in weights && weights[b] >= 0 {
      forall p | p in nodes && nodes[p] in Virtuals(b, weights[b]) ensures CutAtLast(nodes[p], '-') == b {
        var i :| 0 <= i < weights[b] && nodes[p] == Virtual(b, i);
        BackendOfVirtual(b, i);
      }
    }
  }

  lemma WeightShareOf(h: Hash, replicas: nat, universe: set<string>, s: Weighted, b: string)
    requires LabelsApart(h, replicas, universe) && VirtualNames(s.weights) <= universe
    requires IsPointMap(h, replicas, VirtualNames(s.weights), s.nodes) && (b in s.weights ==> s.weights[b] >= 0)
    ensures |OwnedByBackend(s.nodes, b)| == if b in s.weights then s.weights[b] * replicas else 0
  {
    BackendOwnsVirtuals(h, replicas, s.weights, s.nodes, b);
    if b in s.weights {
      VirtualOwns(h, replicas, universe, s.weights, s.nodes, b);
    }
  }

  /** The law of weights: after a run that never shrinks one, on labels that do not
      collide, a backend owns exactly its last added weight times `replicas` points,
      and one that was removed or never added owns none. */
  lemma WeightIsShare(h: Hash, replicas: nat, universe: set<string>, ops: seq<WeightedOp>, b: string)
    requires replicas > 0 && LabelsApart(h, replicas, universe) && VirtualsWithin(ops, universe)
    requires RunNeverShrinks(h, replicas, ops)
    ensures |OwnedByBackend(RunWeighted(h, replicas, ops).nodes, b)|
         == match LastWeight(ops, b) case None => 0 case Some(w) => w * replicas
  {
    ApartIsCollisionFree(h, replicas, universe);
    RunIsVirtualPointMap(h, replicas, universe, ops);
    WeightIsLast(h, replicas, ops, b);
    WeightShareOf(h, replicas, universe, RunWeighted(h, replicas, ops), b);
  }
}
