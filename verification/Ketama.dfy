/** The ring and its two balancers as objects updated in place, each method tied
    to the functions of RingSpec and BalancerSpec. */
module Ketama {
  import opened Wrappers
  import opened Decimal
  import opened RingSpec
  import opened BalancerSpec
  import opened Sorting

  datatype RingError = NoNodes | CountNotPositive

  // ---------- the sorted slice ----------

  ghost predicate Sorted(s: seq<Point>) {
    forall i, j :: 0 <= i < j < |s| ==> s[i] <= s[j]
  }

  predicate AtMost(p: Point, q: Point) {
    p <= q
  }

  lemma PointsSort(s: seq<Point>)
    ensures Sorted(Sort(AtMost, s)) && multiset(Sort(AtMost, s)) == multiset(s)
    ensures forall p :: p in Sort(AtMost, s) <==> p in s
  {
    SortSorts(AtMost, s);
    var sorted := Sort(AtMost, s);
    forall i, j | 0 <= i < j < |sorted| ensures sorted[i] <= sorted[j] {
      assert AtMost(sorted[i], sorted[j]);
    }
  }

  /** The points of a node's labels in the order AddNode appends them. */
  function LabelPoints(h: Hash, replicas: int, node: string): seq<Point> {
    seq<Point>(if replicas > 0 then replicas else 0, i requires i >= 0 => h(Label(node, i)))
  }

  lemma LabelPointsAre(h: Hash, replicas: int, node: string)
    ensures forall p :: p in LabelPoints(h, replicas, node) <==> p in Points(h, replicas, node)
  {
    forall p | p in Points(h, replicas, node) ensures p in LabelPoints(h, replicas, node) {
      var i :| 0 <= i < replicas && p == h(Label(node, i));
      assert LabelPoints(h, replicas, node)[i] == p;
    }
  }

  lemma AddStep(h: Hash, i: nat, nodes: Nodes, node: string)
    ensures Add(h, i + 1, nodes, node) == Add(h, i, nodes, node)[h(Label(node, i)) := node]
  {
    assert Points(h, i + 1, node) == Points(h, i, node) + {h(Label(node, i))};
  }

  lemma LabelPointsStep(h: Hash, i: nat, node: string)
    ensures LabelPoints(h, i + 1, node) == LabelPoints(h, i, node) + [h(Label(node, i))]
  {
  }

  lemma RemoveStep(h: Hash, i: nat, nodes: Nodes, node: string)
    ensures Remove(h, i + 1, nodes, node) == Remove(h, i, nodes, node) - {h(Label(node, i))}
  {
  }

  lemma NoReplicas(h: Hash, replicas: int, nodes: Nodes, node: string)
    requires replicas <= 0
    ensures Add(h, replicas, nodes, node) == nodes == Remove(h, replicas, nodes, node)
    ensures LabelPoints(h, replicas, node) == []
  {
  }

  // ---------- the walk around the sorted slice ----------

  /** The index reached after `j` steps from `start`, wrapping once. */
  function Wrapped(start: nat, j: nat, length: nat): int {
    if start + j < length then start + j else start + j - length
  }

  ghost predicate SplitsAt(keys: seq<Point>, from: Point, start: nat) {
    && start <= |keys|
    && (forall i :: 0 <= i < start ==> keys[i] < from)
    && (forall i :: start <= i < |keys| ==> keys[i] >= from)
  }

  lemma WalkingGoesAway(keys: seq<Point>, from: Point, start: nat, j: nat, k: nat)
    requires Sorted(keys) && SplitsAt(keys, from, start)
    requires j <= k < |keys|
    ensures 0 <= Wrapped(start, j, |keys|) < |keys| && 0 <= Wrapped(start, k, |keys|) < |keys|
    ensures Distance(from, keys[Wrapped(start, j, |keys|)]) <= Distance(from, keys[Wrapped(start, k, |keys|)])
  {
  }

  /** The index before it is wrapped: one past the last point when the end is met. */
  predicate IsAfter(idx: int, start: nat, steps: nat, length: nat) {
    0 <= idx <= length && idx == if start + steps <= length then start + steps else start + steps - length
  }

  lemma NextIndex(idx: int, start: nat, steps: nat, length: nat)
    requires start <= length && steps < length && IsAfter(idx, start, steps, length)
    ensures var at := if idx >= length then 0 else idx;
            at == Wrapped(start, steps, length) && 0 <= at < length && IsAfter(at + 1, start, steps + 1, length)
  {
  }

  lemma EveryIndexIsReached(length: nat, start: nat, i: nat)
    requires start <= length && i < length
    ensures exists k: nat :: k < length && Wrapped(start, k, length) == i
  {
    var k := if i >= start then i - start else i + length - start;
    assert Wrapped(start, k, length) == i;
  }

  /** The slice is sorted and lists exactly the points of the map. */
  ghost predicate Indexes(keys: seq<Point>, nodes: Nodes) {
    Sorted(keys) && forall p :: p in keys <==> p in nodes
  }

  lemma SplitFindsNextPoint(nodes: Nodes, keys: seq<Point>, from: Point, start: nat)
    requires Indexes(keys, nodes) && SplitsAt(keys, from, start) && keys != []
    ensures IsNextPoint(nodes, from, keys[if start < |keys| then start else 0])
  {
  }

  /** The points whose owners have not been seen. */
  ghost function Unseen(nodes: Nodes, seen: set<string>): Nodes {
    map p | p in nodes && nodes[p] !in seen :: nodes[p]
  }

  /** The owners of the first `steps` points from `start` are all in `seen`. */
  ghost predicate Met(nodes: Nodes, keys: seq<Point>, start: nat, steps: nat, seen: set<string>)
    requires Indexes(keys, nodes) && start <= |keys| && steps <= |keys|
  {
    forall k: nat :: k < steps ==> nodes[keys[Wrapped(start, k, |keys|)]] in seen
  }

  /** After `steps` points of the trip that begins at `start`, every owner met is
      in `seen`, and `result` is the part of the walk found so far. */
  ghost predicate Walking(nodes: Nodes, keys: seq<Point>, from: Point, start: nat, steps: nat,
                          seen: set<string>, result: seq<string>)
    requires Indexes(keys, nodes) && start <= |keys|
  {
    && steps <= |keys|
    && Met(nodes, keys, start, steps, seen)
    && seen <= nodes.Values && |seen| == |result|
    && result + Walk(Unseen(nodes, seen), from) == Walk(nodes, from)
  }

  lemma NextUnseenIsNearest(nodes: Nodes, keys: seq<Point>, from: Point, start: nat, steps: nat, seen: set<string>)
    requires Indexes(keys, nodes) && SplitsAt(keys, from, start) && steps < |keys|
    requires Met(nodes, keys, start, steps, seen)
    requires nodes[keys[Wrapped(start, steps, |keys|)]] !in seen
    ensures IsNearest(Unseen(nodes, seen), from, keys[Wrapped(start, steps, |keys|)])
  {
    var p := keys[Wrapped(start, steps, |keys|)];
    assert p in nodes;
    forall q | q in Unseen(nodes, seen) ensures Distance(from, p) <= Distance(from, q) {
      var i :| 0 <= i < |keys| && keys[i] == q;
      EveryIndexIsReached(|keys|, start, i);
      var k: nat :| k < |keys| && Wrapped(start, k, |keys|) == i;
      assert k >= steps;
      WalkingGoesAway(keys, from, start, steps, k);
    }
  }

  lemma WalkingStep(nodes: Nodes, keys: seq<Point>, from: Point, start: nat, steps: nat,
                    seen: set<string>, result: seq<string>, node: string)
    requires Indexes(keys, nodes) && SplitsAt(keys, from, start) && steps < |keys|
    requires Walking(nodes, keys, from, start, steps, seen, result)
    requires node == nodes[keys[Wrapped(start, steps, |keys|)]]
    ensures if node in seen then Walking(nodes, keys, from, start, steps + 1, seen, result)
            else Walking(nodes, keys, from, start, steps + 1, seen + {node}, result + [node])
  {
    MetStep(nodes, keys, start, steps, seen, node);
    if node !in seen {
      NextUnseenIsNearest(nodes, keys, from, start, steps, seen);
      UnfoldedResult(nodes, from, seen, keys[Wrapped(start, steps, |keys|)], result);
    }
  }

  lemma MetStep(nodes: Nodes, keys: seq<Point>, start: nat, steps: nat, seen: set<string>, node: string)
    requires Indexes(keys, nodes) && start <= |keys| && steps < |keys| && Met(nodes, keys, start, steps, seen)
    requires node == nodes[keys[Wrapped(start, steps, |keys|)]]
    ensures Met(nodes, keys, start, steps + 1, seen + {node})
  {
  }

  lemma UnfoldedResult(nodes: Nodes, from: Point, seen: set<string>, p: Point, result: seq<string>)
    requires IsNearest(Unseen(nodes, seen), from, p)
    ensures result + Walk(Unseen(nodes, seen), from)
         == (result + [nodes[p]]) + Walk(Unseen(nodes, seen + {nodes[p]}), from)
  {
    WalkUnfolds(nodes, from, seen, p);
    var tail := Walk(Unseen(nodes, seen + {nodes[p]}), from);
    assert result + ([nodes[p]] + tail) == (result + [nodes[p]]) + tail;
  }

  lemma WalkUnfolds(nodes: Nodes, from: Point, seen: set<string>, p: Point)
    requires IsNearest(Unseen(nodes, seen), from, p)
    ensures Walk(Unseen(nodes, seen), from) == [nodes[p]] + Walk(Unseen(nodes, seen + {nodes[p]}), from)
  {
    assert Nearest(Unseen(nodes, seen), from) == p;
    assert Without(Unseen(nodes, seen), nodes[p]) == Unseen(nodes, seen + {nodes[p]});
  }

  lemma SameSizeSubset(a: set<string>, b: set<string>)
    requires a <= b && |a| >= |b|
    ensures a == b
  {
    if a != b {
      StrictSubsetIsSmaller(a, b);
    }
  }

  lemma FullTripSeesAll(nodes: Nodes, keys: seq<Point>, from: Point, start: nat, seen: set<string>,
                        result: seq<string>)
    requires Indexes(keys, nodes) && SplitsAt(keys, from, start)
    requires Walking(nodes, keys, from, start, |keys|, seen, result)
    ensures seen == nodes.Values
  {
    forall n | n in nodes.Values ensures n in seen {
      var p :| p in nodes && nodes[p] == n;
      var i :| 0 <= i < |keys| && keys[i] == p;
      EveryIndexIsReached(|keys|, start, i);
    }
  }

  /** While some node is unseen, the trip around the slice is not over. */
  lemma TripNotOver(nodes: Nodes, keys: seq<Point>, from: Point, start: nat, steps: nat, seen: set<string>,
                    result: seq<string>)
    requires Indexes(keys, nodes) && SplitsAt(keys, from, start)
    requires Walking(nodes, keys, from, start, steps, seen, result) && |seen| < |nodes.Values|
    ensures steps < |keys|
  {
    if steps == |keys| {
      FullTripSeesAll(nodes, keys, from, start, seen, result);
    }
  }

  lemma WalkingEnds(nodes: Nodes, keys: seq<Point>, from: Point, start: nat, steps: nat,
                    seen: set<string>, result: seq<string>, count: nat)
    requires Indexes(keys, nodes) && start <= |keys| && Walking(nodes, keys, from, start, steps, seen, result)
    requires |result| == count || (|result| <= count && |seen| >= |nodes.Values|)
    ensures result == FirstOf(Walk(nodes, from), count)
  {
    if |result| < count {
      SameSizeSubset(seen, nodes.Values);
      assert Unseen(nodes, seen) == map[];
    }
  }

  function FirstOf(s: seq<string>, count: nat): (r: seq<string>)
    ensures r <= s && (|r| == count || (|r| < count && r == s))
  {
    if count <= |s| then s[..count] else s
  }

  lemma AppendedPointsIndex(h: Hash, replicas: int, nodes: Nodes, keys: seq<Point>, node: string)
    requires Indexes(keys, nodes)
    ensures var appended := Sort(AtMost, keys + LabelPoints(h, replicas, node));
            && Indexes(appended, Add(h, replicas, nodes, node))
            && multiset(appended) == multiset(keys) + multiset(LabelPoints(h, replicas, node))
  {
    LabelPointsAre(h, replicas, node);
    PointsSort(keys + LabelPoints(h, replicas, node));
  }

  lemma {:induction false} AsManyNamesAreDistinct(s: seq<string>)
    ensures |AsSet(s)| <= |s|
    ensures |AsSet(s)| == |s| ==> NoDuplicates(s)
  {
    if s != [] {
      var front, last := s[..|s| - 1], s[|s| - 1];
      AsManyNamesAreDistinct(front);
      assert s == front + [last];
      assert AsSet(s) == AsSet(front) + {last};
      assert last in AsSet(front) ==> AsSet(s) == AsSet(front);
    }
  }

  class Ring {
    const hash: Hash
    const replicas: int
    var nodes: Nodes
    var sortedKeys: seq<Point>

    ghost predicate Valid()
      reads this
    {
      Indexes(sortedKeys, nodes)
    }

    constructor (hash: Hash, replicas: int)
      ensures Valid() && this.hash == hash && this.replicas == replicas
      ensures nodes == map[] && sortedKeys == []
    {
      this.hash, this.replicas := hash, replicas;
      nodes, sortedKeys := map[], [];
    }

    /** Adds the node's points, taking over those another node held. The slice
        keeps every appended point, duplicates included. */
    method AddNode(node: string)
      requires Valid()
      modifies this
      ensures Valid()
      ensures nodes == Add(hash, replicas, old(nodes), node)
      ensures multiset(sortedKeys) == multiset(old(sortedKeys)) + multiset(LabelPoints(hash, replicas, node))
    {
      var i := 0;
      NoReplicas(hash, if replicas <= 0 then replicas else 0, nodes, node);
      while i < replicas
        invariant 0 <= i && (i <= replicas || i == 0)
        invariant nodes == Add(hash, i, old(nodes), node)
        invariant sortedKeys == old(sortedKeys) + LabelPoints(hash, i, node)
      {
        AddStep(hash, i, old(nodes), node);
        LabelPointsStep(hash, i, node);
        var key := hash(Label(node, i));
        nodes := nodes[key := node];
        sortedKeys := sortedKeys + [key];
        i := i + 1;
      }
      AppendedPointsIndex(hash, replicas, old(nodes), old(sortedKeys), node);
      sortedKeys := Sort(AtMost, sortedKeys);
    }

    /** Removes the points of the node's labels, whoever owns them, and rebuilds
        the slice, which then has no duplicates. */
    method RemoveNode(node: string)
      requires Valid()
      modifies this
      ensures Valid()
      ensures nodes == Remove(hash, replicas, old(nodes), node)
      ensures multiset(sortedKeys) == multiset(nodes.Keys)
    {
      var i := 0;
      NoReplicas(hash, if replicas <= 0 then replicas else 0, nodes, node);
      while i < replicas
        invariant 0 <= i && (i <= replicas || i == 0)
        invariant nodes == Remove(hash, i, old(nodes), node)
      {
        RemoveStep(hash, i, old(nodes), node);
        var key := hash(Label(node, i));
        nodes := nodes - {key};
        i := i + 1;
      }
      RebuildSortedKeys();
    }

    method RebuildSortedKeys()
      modifies this`sortedKeys
      ensures Valid()
      ensures multiset(sortedKeys) == multiset(nodes.Keys)
    {
      sortedKeys := [];
      var left := nodes.Keys;
      while left != {}
        invariant left <= nodes.Keys
        invariant multiset(sortedKeys) == multiset(nodes.Keys - left)
      {
        var key :| key in left;
        assert nodes.Keys - (left - {key}) == (nodes.Keys - left) + {key};
        left := left - {key};
        sortedKeys := sortedKeys + [key];
      }
      assert nodes.Keys - left == nodes.Keys;
      assert forall p :: p in sortedKeys <==> p in multiset(sortedKeys);
      PointsSort(sortedKeys);
      sortedKeys := Sort(AtMost, sortedKeys);
    }

    /** Binary search for the first index whose point is at or after `from`. */
    method Search(from: Point) returns (idx: nat)
      requires Valid()
      ensures SplitsAt(sortedKeys, from, idx)
    {
      idx := 0;
      var end := |sortedKeys|;
      while idx < end
        invariant 0 <= idx <= end <= |sortedKeys|
        invariant forall i :: 0 <= i < idx ==> sortedKeys[i] < from
        invariant forall i :: end <= i < |sortedKeys| ==> sortedKeys[i] >= from
      {
        var mid := (idx + end) / 2;
        if sortedKeys[mid] >= from {
          end := mid;
        } else {
          idx := mid + 1;
        }
      }
    }

    method GetNode(key: string) returns (r: Result<string, RingError>)
      requires Valid()
      ensures r == if nodes == map[] then Failure(NoNodes) else Success(Owner(nodes, hash(key)))
    {
      if |nodes| == 0 {
        return Failure(NoNodes);
      }
      var from := hash(key);
      var idx := Search(from);
      ghost var start := idx;
      assert sortedKeys != [] by {
        var p :| p in nodes;
        assert p in sortedKeys;
      }
      if idx >= |sortedKeys| {
        idx := 0;
      }
      var nodeKey := sortedKeys[idx];
      SplitFindsNextPoint(nodes, sortedKeys, from, start);
      NearestIsNextPoint(nodes, from, nodeKey);
      r := Success(nodes[nodeKey]);
    }

    /** The names of the ring's nodes in alphabetical order, each once. */
    method GetUniqueNodes() returns (names: seq<string>)
      ensures NoDuplicates(names) && |names| == |nodes.Values|
      ensures AsSet(names) == nodes.Values
      ensures Ordered(Alphabetical, names)
    {
      names := [];
      var nodeSet := nodes.Values;
      while nodeSet != {}
        invariant nodeSet <= nodes.Values && NoDuplicates(names)
        invariant AsSet(names) == nodes.Values - nodeSet
        invariant |names| == |nodes.Values| - |nodeSet|
      {
        var node :| node in nodeSet;
        assert node !in AsSet(names);
        assert AsSet(names + [node]) == AsSet(names) + {node};
        nodeSet := nodeSet - {node};
        names := names + [node];
      }
      AlphabeticalIsTotal();
      SortSorts(Alphabetical, names);
      assert AsSet(Sort(Alphabetical, names)) == AsSet(names);
      AsManyNamesAreDistinct(Sort(Alphabetical, names));
      names := Sort(Alphabetical, names);
    }

    /** The first `count` nodes of the key's walk, or all of them when there are
        fewer, found in at most one trip around the slice. */
    method GetNodes(key: string, count: int) returns (r: Result<seq<string>, RingError>, ghost steps: nat)
      requires Valid()
      ensures r == if nodes == map[] then Failure(NoNodes)
                   else if count <= 0 then Failure(CountNotPositive)
                   else Success(FirstOf(Walk(nodes, hash(key)), count))
      ensures steps <= |sortedKeys|
    {
      steps := 0;
      if |nodes| == 0 {
        return Failure(NoNodes), 0;
      }
      if count <= 0 {
        return Failure(CountNotPositive), 0;
      }
      var from := hash(key);
      var idx := Search(from);
      ghost var start := idx;
      var seen: set<string> := {};
      var result: seq<string> := [];
      var unique := GetUniqueNodes();
      assert Unseen(nodes, seen) == nodes;
      while |result| < count && |seen| < |unique|
        invariant |result| <= count && IsAfter(idx, start, steps, |sortedKeys|)
        invariant Walking(nodes, sortedKeys, from, start, steps, seen, result)
        decreases |sortedKeys| - steps
      {
        TripNotOver(nodes, sortedKeys, from, start, steps, seen, result);
        NextIndex(idx, start, steps, |sortedKeys|);
        if idx >= |sortedKeys| {
          idx := 0;
        }
        var nodeKey := sortedKeys[idx];
        var node := nodes[nodeKey];
        WalkingStep(nodes, sortedKeys, from, start, steps, seen, result, node);
        if node !in seen {
          seen := seen + {node};
          result := result + [node];
        }
        idx := idx + 1;
        steps := steps + 1;
      }
      WalkingEnds(nodes, sortedKeys, from, start, steps, seen, result, count);
      r := Success(result);
    }
  }

  /** A balancer over the ring; it always has at least one replica per node. */
  class KetamaBalancer {
    const ring: Ring

    ghost predicate Valid()
      reads this, ring
    {
      ring.Valid() && ring.replicas > 0
    }

    constructor (hash: Hash, names: seq<string>, replicas: int)
      ensures Valid() && fresh(ring)
      ensures ring.hash == hash && ring.replicas == if replicas <= 0 then 160 else replicas
      ensures ring.nodes == AddAll(hash, ring.replicas, map[], names)
    {
      var r := new Ring(hash, if replicas <= 0 then 160 else replicas);
      for i := 0 to |names|
        invariant r.Valid() && fresh(r) && r.nodes == AddAll(hash, r.replicas, map[], names[..i])
      {
        assert names[..i + 1][..i] == names[..i];
        r.AddNode(names[i]);
      }
      assert names[..|names|] == names;
      ring := r;
    }

    method SelectBackend(key: string) returns (r: Result<string, RingError>)
      requires Valid()
      ensures r == if ring.nodes == map[] then Failure(NoNodes)
                   else Success(Owner(ring.nodes, ring.hash(key)))
    {
      r := ring.GetNode(key);
    }

    method SelectBackends(key: string, count: int) returns (r: Result<seq<string>, RingError>)
      requires Valid()
      ensures r == if ring.nodes == map[] then Failure(NoNodes)
                   else if count <= 0 then Failure(CountNotPositive)
                   else Success(FirstOf(Walk(ring.nodes, ring.hash(key)), count))
    {
      ghost var steps;
      r, steps := ring.GetNodes(key, count);
    }

    method AddBackend(backend: string)
      requires Valid()
      modifies ring
      ensures Valid()
      ensures ring.nodes == Apply(ring.hash, ring.replicas, old(ring.nodes), Op.AddBackend(backend))
    {
      ring.AddNode(backend);
    }

    method RemoveBackend(backend: string)
      requires Valid()
      modifies ring
      ensures Valid()
      ensures ring.nodes == Apply(ring.hash, ring.replicas, old(ring.nodes), Op.RemoveBackend(backend))
    {
      ring.RemoveNode(backend);
    }

    /** Adds what is new, then removes what is gone, in any order. */
    method UpdateBackends(backends: seq<string>)
      requires Valid()
      modifies ring
      ensures Valid()
      ensures ring.nodes == Apply(ring.hash, ring.replicas, old(ring.nodes), Op.UpdateBackends(backends))
    {
      ghost var h, reps, before := ring.hash, ring.replicas, ring.nodes;
      var names := ring.GetUniqueNodes();
      var toRemove := AsSet(names);
      assert Scanned(h, reps, before, [], ring.nodes, toRemove);
      for i := 0 to |backends|
        invariant Valid() && Scanned(h, reps, before, backends[..i], ring.nodes, toRemove)
      {
        var backend := backends[i];
        ScanStep(h, reps, before, backends, i, ring.nodes, toRemove);
        if backend in toRemove {
          toRemove := toRemove - {backend};
        } else {
          ring.AddNode(backend);
        }
      }
      assert backends[..|backends|] == backends;
      RemoveEach(toRemove);
    }

    /** The adding loop of UpdateBackends after the names in `seen`. */
    ghost predicate Scanned(h: Hash, replicas: int, before: Nodes, seen: seq<string>,
                            nodes: Nodes, toRemove: set<string>)
    {
      && toRemove == before.Values - AsSet(seen)
      && nodes == AddAll(h, replicas, before, Surplus(before.Values, seen))
    }

    lemma ScanStep(h: Hash, replicas: int, before: Nodes, backends: seq<string>, i: nat,
                   nodes: Nodes, toRemove: set<string>)
      requires i < |backends| && Scanned(h, replicas, before, backends[..i], nodes, toRemove)
      ensures if backends[i] in toRemove
              then Scanned(h, replicas, before, backends[..i + 1], nodes, toRemove - {backends[i]})
              else Scanned(h, replicas, before, backends[..i + 1], Add(h, replicas, nodes, backends[i]), toRemove)
    {
      SurplusStep(before.Values, backends, i);
      var surplus := Surplus(before.Values, backends[..i]);
      assert backends[i] in toRemove <==> backends[i] in before.Values && backends[i] !in backends[..i];
      if backends[i] in toRemove {
        assert before.Values - AsSet(backends[..i + 1]) == toRemove - {backends[i]};
      } else {
        assert before.Values - AsSet(backends[..i + 1]) == toRemove;
        AddOneMore(h, replicas, before, surplus, backends[i]);
      }
    }

    /** The final loop of UpdateBackends, over a map in any order. */
    method RemoveEach(names: set<string>)
      requires Valid()
      modifies ring
      ensures Valid()
      ensures ring.nodes == RemoveAll(ring.hash, ring.replicas, old(ring.nodes), names)
    {
      var left := names;
      assert RemoveAll(ring.hash, ring.replicas, ring.nodes, {}) == ring.nodes;
      assert names - left == {};
      while left != {}
        invariant Valid() && left <= names
        invariant ring.nodes == RemoveAll(ring.hash, ring.replicas, old(ring.nodes), names - left)
        decreases left
      {
        var backend :| backend in left;
        ghost var done := names - left;
        left := left - {backend};
        assert names - left == done + {backend};
        RemoveOneMore(ring.hash, ring.replicas, old(ring.nodes), done, backend);
        ring.RemoveNode(backend);
      }
      assert names - left == names;
    }

    lemma SurplusStep(current: set<string>, backends: seq<string>, i: nat)
      requires i < |backends|
      ensures AsSet(backends[..i + 1]) == AsSet(backends[..i]) + {backends[i]}
      ensures Surplus(current, backends[..i + 1])
           == if backends[i] in current && backends[i] !in backends[..i] then Surplus(current, backends[..i])
              else Surplus(current, backends[..i]) + [backends[i]]
    {
      var longer := backends[..i + 1];
      assert longer == backends[..i] + [backends[i]];
      assert longer[..|longer| - 1] == backends[..i];
    }

    lemma AddOneMore(h: Hash, replicas: int, nodes: Nodes, added: seq<string>, name: string)
      ensures AddAll(h, replicas, nodes, added + [name]) == Add(h, replicas, AddAll(h, replicas, nodes, added), name)
    {
    }
  }

  class WeightedKetamaBalancer {
    const ring: Ring
    var weights: map<string, int>

    ghost predicate Valid()
      reads this, ring
    {
      ring.Valid() && ring.replicas > 0 && forall b :: b in weights ==> weights[b] > 0
    }

    ghost function View(): Weighted
      reads this, ring
    {
      Weighted(ring.nodes, weights)
    }

    constructor (hash: Hash, replicas: int)
      ensures Valid() && fresh(ring)
      ensures ring.hash == hash && ring.replicas == if replicas <= 0 then 160 else replicas
      ensures View() == RunWeighted(hash, ring.replicas, [])
    {
      ring := new Ring(hash, if replicas <= 0 then 160 else replicas);
      weights := map[];
    }

    method AddBackend(backend: string, weight: int)
      requires Valid()
      modifies this, ring
      ensures Valid()
      ensures View() == AddWeighted(ring.hash, ring.replicas, old(View()), backend, weight)
    {
      var w := if weight <= 0 then 1 else weight;
      weights := weights[backend := w];
      for i := 0 to w
        invariant Valid() && weights == old(weights)[backend := w]
        invariant ring.nodes == AddVirtuals(ring.hash, ring.replicas, old(ring.nodes), backend, i)
      {
        ring.AddNode(Virtual(backend, i));
      }
    }

    method RemoveBackend(backend: string)
      requires Valid()
      modifies this, ring
      ensures Valid()
      ensures View() == RemoveWeighted(ring.hash, ring.replicas, old(View()), backend)
    {
      if backend !in weights {
        return;
      }
      var weight := weights[backend];
      for i := 0 to weight
        invariant Valid() && weights == old(weights)
        invariant ring.nodes == RemoveVirtuals(ring.hash, ring.replicas, old(ring.nodes), backend, i)
      {
        ring.RemoveNode(Virtual(backend, i));
      }
      weights := weights - {backend};
    }

    method SelectBackend(key: string) returns (r: Result<string, RingError>)
      requires Valid()
      ensures r == if ring.nodes == map[] then Failure(NoNodes)
                   else Success(BackendOf(Owner(ring.nodes, ring.hash(key))))
    {
      var node := ring.GetNode(key);
      if node.Failure? {
        return node;
      }
      var name := node.value;
      var i := |name|;
      while i > 0
        invariant 0 <= i <= |name| && CutWithin(name, '-', i) == BackendOf(name)
      {
        i := i - 1;
        if name[i] == '-' {
          return Success(name[..i]);
        }
      }
      r := Success(name);
    }
  }
}
