/** The consistent-hash ring as a map from points to node names: what adding,
    removing and looking up mean, independently of the sorted slice the ring
    keeps. The hash is an arbitrary total function; where a fact needs labels
    of different nodes to hash to different points, it says so. */
module RingSpec {
  import opened Decimal
  import opened Wrappers

  const CIRCLE: int := 0x1_0000_0000

  /** A uint32. */
  type Point = x: int | 0 <= x < CIRCLE

  type Hash = string -> Point
  type Nodes = map<Point, string>

  // ---------- points of a node, adding and removing ----------

  function Label(node: string, i: nat): string {
    node + ":" + Dec(i)
  }

  /** Everything before the last `sep`, or the whole text when there is none. */
  function CutAtLast(text: string, sep: char): string {
    CutWithin(text, sep, |text|)
  }

  function CutWithin(text: string, sep: char, end: nat): string
    requires end <= |text|
  {
    if end == 0 then text
    else if text[end - 1] == sep then text[..end - 1]
    else CutWithin(text, sep, end - 1)
  }

  lemma {:induction false} CutWithinStops(text: string, sep: char, end: nat, at: nat)
    requires at < end <= |text| && text[at] == sep
    requires forall k :: at < k < end ==> text[k] != sep
    ensures CutWithin(text, sep, end) == text[..at]
  {
    if end - 1 > at {
      CutWithinStops(text, sep, end - 1, at);
    }
  }

  /** Cutting at the last separator takes a number off again, whatever stands before
      it, and what is cut off reads as that number. */
  lemma CutNumber(front: string, sep: char, i: nat)
    requires !IsDigit(sep)
    ensures var text := front + [sep] + Dec(i);
            && CutAtLast(text, sep) == front
            && (i <= MAX_INT64 ==> Atoi(text[|front| + 1..]) == Some(i))
  {
    var text := front + [sep] + Dec(i);
    forall k | |front| < k < |text| ensures text[k] != sep {
      assert text[k] == Dec(i)[k - |front| - 1];
    }
    CutWithinStops(text, sep, |text|, |front|);
    assert text[..|front|] == front && text[|front| + 1..] == Dec(i);
    if i <= MAX_INT64 { AtoiOfDecInt(i); }
  }

  lemma NumberedDiffer(a: string, i: nat, b: string, j: nat, sep: char)
    requires !IsDigit(sep) && a + [sep] + Dec(i) == b + [sep] + Dec(j)
    ensures a == b && i == j
  {
    CutNumber(a, sep, i);
    CutNumber(b, sep, j);
    assert Dec(i) == (a + [sep] + Dec(i))[|a| + 1..] == Dec(j);
    DecInjective(i, j);
  }

  /** A label is the node, a colon and its index: cutting at the last colon gives the
      node back, and the rest reads as the index. */
  lemma LabelReads(node: string, i: nat)
    ensures Label(node, i) == node + ":" + Label(node, i)[|node| + 1..]
    ensures CutAtLast(Label(node, i), ':') == node
    ensures i <= MAX_INT64 ==> Atoi(Label(node, i)[|node| + 1..]) == Some(i)
  {
    CutNumber(node, ':', i);
    assert Label(node, i) == node + [':'] + Dec(i);
  }

  lemma LabelInjective(a: string, i: nat, b: string, j: nat)
    requires Label(a, i) == Label(b, j)
    ensures a == b && i == j
  {
    NumberedDiffer(a, i, b, j, ':');
  }

  function Points(h: Hash, replicas: int, node: string): set<Point> {
    set i | 0 <= i < replicas :: h(Label(node, i))
  }

  function Add(h: Hash, replicas: int, nodes: Nodes, node: string): Nodes {
    nodes + map p | p in Points(h, replicas, node) :: node
  }

  function Remove(h: Hash, replicas: int, nodes: Nodes, node: string): Nodes {
    nodes - Points(h, replicas, node)
  }

  /** The ring without the points a node owns. */
  function Without(nodes: Nodes, node: string): Nodes {
    map p | p in nodes && nodes[p] != node :: nodes[p]
  }

  /** Every live point is a label of the node that owns it. */
  ghost predicate Labelled(h: Hash, replicas: int, nodes: Nodes) {
    forall p :: p in nodes ==> p in Points(h, replicas, nodes[p])
  }

  /** No live point that is a label of `node` belongs to another node. */
  ghost predicate Unshared(h: Hash, replicas: int, nodes: Nodes, node: string) {
    forall p :: p in nodes && p in Points(h, replicas, node) ==> nodes[p] == node
  }

  /** Removal takes away exactly the points the node owns if and only if none of
      its labels collided with a live point of another node. */
  lemma RemoveTakesOnlyOwnPoints(h: Hash, replicas: int, nodes: Nodes, node: string)
    requires Labelled(h, replicas, nodes)
    ensures Remove(h, replicas, nodes, node) == Without(nodes, node)
       <==> Unshared(h, replicas, nodes, node)
  {
  }

  /** Adding a node and then removing it restores the ring if and only if the
      node's points were all free. */
  lemma AddThenRemove(h: Hash, replicas: int, nodes: Nodes, node: string)
    ensures Remove(h, replicas, Add(h, replicas, nodes, node), node) == nodes
       <==> Points(h, replicas, node) !! nodes.Keys
  {
  }

  // ---------- lookup ----------

  /** How far clockwise from `from` the point `p` lies. */
  function Distance(from: Point, p: Point): nat {
    if p >= from then p - from else p + CIRCLE - from
  }

  ghost predicate IsNearest(nodes: Nodes, from: Point, p: Point) {
    p in nodes && forall q :: q in nodes ==> Distance(from, p) <= Distance(from, q)
  }

  lemma {:induction false} NearestExists(nodes: Nodes, from: Point)
    requires nodes != map[]
    ensures exists p :: IsNearest(nodes, from, p)
    decreases |nodes|
  {
    var p :| p in nodes;
    var rest := nodes - {p};
    if rest == map[] {
      assert nodes.Keys == {p} + rest.Keys;
      assert IsNearest(nodes, from, p);
    } else {
      assert rest.Keys == nodes.Keys - {p};
      NearestExists(rest, from);
      var q :| IsNearest(rest, from, q);
      assert forall r :: r in nodes ==> r == p || r in rest;
      assert IsNearest(nodes, from, if Distance(from, p) <= Distance(from, q) then p else q);
    }
  }

  ghost function Nearest(nodes: Nodes, from: Point): (p: Point)
    requires nodes != map[]
    ensures IsNearest(nodes, from, p)
    ensures forall q :: IsNearest(nodes, from, q) ==> q == p
  {
    NearestExists(nodes, from);
    var p :| IsNearest(nodes, from, p);
    p
  }

  /** The node a key with hash `from` is served by. */
  ghost function Owner(nodes: Nodes, from: Point): string
    requires nodes != map[]
  {
    nodes[Nearest(nodes, from)]
  }

  /** The least point at or after `from`, or the least point of all when there is
      none: the rule the source states for choosing a point. */
  ghost predicate IsNextPoint(nodes: Nodes, from: Point, p: Point) {
    && p in nodes
    && if exists q :: q in nodes && q >= from
       then p >= from && forall q :: q in nodes && q >= from ==> p <= q
       else forall q :: q in nodes ==> p <= q
  }

  lemma NearestIsNextPoint(nodes: Nodes, from: Point, p: Point)
    ensures IsNearest(nodes, from, p) <==> IsNextPoint(nodes, from, p)
  {
  }

  /** Adding a node moves keys only to that node. */
  lemma AddMovesKeysOnlyToNewNode(h: Hash, replicas: int, nodes: Nodes, node: string, from: Point)
    requires nodes != map[]
    ensures Add(h, replicas, nodes, node) != map[]
    ensures Owner(Add(h, replicas, nodes, node), from) in {Owner(nodes, from), node}
  {
  }

  // ---------- the full walk ----------

  lemma WithoutShrinks(nodes: Nodes, p: Point)
    requires p in nodes
    ensures |Without(nodes, nodes[p])| < |nodes|
  {
    assert Without(nodes, nodes[p]).Keys < nodes.Keys by { assert p !in Without(nodes, nodes[p]); }
    StrictSubsetIsSmaller(Without(nodes, nodes[p]).Keys, nodes.Keys);
  }

  lemma StrictSubsetIsSmaller<T>(a: set<T>, b: set<T>)
    requires a < b
    ensures |a| < |b|
  {
    assert b == a + (b - a);
    assert b - a != {};
  }

  /** All nodes in failover order: the owner of the nearest point, then the owner
      of the nearest point among the points of the other nodes, and so on. */
  ghost function Walk(nodes: Nodes, from: Point): seq<string>
    decreases |nodes|
  {
    if nodes == map[] then []
    else
      var first := Owner(nodes, from);
      WithoutShrinks(nodes, Nearest(nodes, from));
      [first] + Walk(Without(nodes, first), from)
  }

  predicate NoDuplicates<T(==)>(s: seq<T>) {
    forall i, j :: 0 <= i < j < |s| ==> s[i] != s[j]
  }

  lemma WalkEmpty(nodes: Nodes, from: Point)
    ensures Walk(nodes, from) == [] <==> nodes == map[]
  {
  }

  /** The walk lists every node of the ring exactly once. */
  lemma {:induction false} WalkListsEachNodeOnce(nodes: Nodes, from: Point)
    ensures NoDuplicates(Walk(nodes, from))
    ensures forall n :: n in Walk(nodes, from) <==> n in nodes.Values
    decreases |nodes|
  {
    if nodes != map[] {
      var p := Nearest(nodes, from);
      var first := nodes[p];
      var rest := Without(nodes, first);
      WithoutShrinks(nodes, p);
      WalkListsEachNodeOnce(rest, from);
      forall n ensures n in nodes.Values <==> n == first || n in rest.Values {
        if n in nodes.Values && n != first {
          var q :| q in nodes && nodes[q] == n;
          assert q in rest && rest[q] == n;
        }
      }
      assert first !in Walk(rest, from);
    }
  }

  /** Some point of `a` lies nearer than every point of `b`. */
  ghost predicate Nearer(nodes: Nodes, from: Point, a: string, b: string) {
    exists p :: p in nodes && nodes[p] == a
             && forall q :: q in nodes && nodes[q] == b ==> Distance(from, p) < Distance(from, q)
  }

  lemma NearestIsNearer(nodes: Nodes, from: Point, b: string)
    requires nodes != map[] && b != Owner(nodes, from)
    ensures Nearer(nodes, from, Owner(nodes, from), b)
  {
  }

  lemma NearerWithout(nodes: Nodes, from: Point, gone: string, a: string, b: string)
    requires Nearer(Without(nodes, gone), from, a, b) && b != gone
    ensures Nearer(nodes, from, a, b)
  {
  }

  /** The walk lists the nodes by the clockwise distance of their nearest points. */
  lemma {:induction false} WalkIsByDistance(nodes: Nodes, from: Point, i: nat, j: nat)
    requires i < j < |Walk(nodes, from)|
    ensures Nearer(nodes, from, Walk(nodes, from)[i], Walk(nodes, from)[j])
    decreases |nodes|
  {
    var walk, first := Walk(nodes, from), Owner(nodes, from);
    WithoutShrinks(nodes, Nearest(nodes, from));
    WalkListsEachNodeOnce(nodes, from);
    assert walk[j] != walk[0] == first;
    if i == 0 {
      NearestIsNearer(nodes, from, walk[j]);
    } else {
      WalkIsByDistance(Without(nodes, first), from, i - 1, j - 1);
      NearerWithout(nodes, from, first, walk[i], walk[j]);
    }
  }

  function Filter(s: seq<string>, dropped: string): seq<string> {
    if s == [] then []
    else if s[0] == dropped then Filter(s[1..], dropped)
    else [s[0]] + Filter(s[1..], dropped)
  }

  lemma {:induction false} FilterAbsent(s: seq<string>, dropped: string)
    requires dropped !in s
    ensures Filter(s, dropped) == s
  {
    if s != [] {
      FilterAbsent(s[1..], dropped);
    }
  }

  /** Dropping one node's points from the ring drops that node from every walk
      and leaves the order of the others as it was. */
  lemma {:induction false} WalkWithout(nodes: Nodes, node: string, from: Point)
    ensures Walk(Without(nodes, node), from) == Filter(Walk(nodes, from), node)
    decreases |nodes|
  {
    if nodes == map[] {
      assert Without(nodes, node) == map[];
    } else {
      var p := Nearest(nodes, from);
      var first := nodes[p];
      var rest := Without(nodes, first);
      assert Walk(nodes, from) == [first] + Walk(rest, from);
      WithoutShrinks(nodes, p);
      if first == node {
        WalkListsEachNodeOnce(rest, from);
        FilterAbsent(Walk(rest, from), node);
      } else {
        assert p in Without(nodes, node);
        assert Nearest(Without(nodes, node), from) == p;
        assert Without(Without(nodes, node), first) == Without(rest, node);
        WalkWithout(rest, node, from);
      }
    }
  }

  /** Failover: when no point of `node` is shared, removing it takes it out of
      every key's walk and changes nothing else; a key it served goes to the node
      that came second. */
  lemma FailoverOrder(h: Hash, replicas: int, nodes: Nodes, node: string, from: Point)
    requires Labelled(h, replicas, nodes) && Unshared(h, replicas, nodes, node)
    ensures Walk(Remove(h, replicas, nodes, node), from) == Filter(Walk(nodes, from), node)
    ensures nodes != map[] && Owner(nodes, from) == node && |Walk(nodes, from)| > 1 ==>
              && Remove(h, replicas, nodes, node) != map[]
              && Owner(Remove(h, replicas, nodes, node), from) == Walk(nodes, from)[1]
  {
    RemoveTakesOnlyOwnPoints(h, replicas, nodes, node);
    WalkWithout(nodes, node, from);
    if nodes != map[] && Owner(nodes, from) == node && |Walk(nodes, from)| > 1 {
      WalkListsEachNodeOnce(nodes, from);
      FilterAbsent(Walk(nodes, from)[1..], node);
      WalkEmpty(Without(nodes, node), from);
    }
  }

  /** The condition is needed: whenever a label of one node and a label of another
      hash to one point, removing the node added first takes that point from the
      node added second. */
  lemma CollisionRemovesAnotherNode(h: Hash, replicas: int, nodes: Nodes, a: string, i: nat, b: string, j: nat)
    requires a != b && i < replicas && j < replicas && h(Label(a, i)) == h(Label(b, j))
    ensures var ring, p := Add(h, replicas, Add(h, replicas, nodes, a), b), h(Label(b, j));
            && p in ring && ring[p] == b && Owner(ring, p) == b
            && p in Without(ring, a) && p !in Remove(h, replicas, ring, a)
  {
    var ring, p := Add(h, replicas, Add(h, replicas, nodes, a), b), h(Label(b, j));
    assert p in Points(h, replicas, b) && p in Points(h, replicas, a);
    assert IsNearest(ring, p, p) by { assert Distance(p, p) == 0; }
  }
}
