/** The round-robin balancer: a 64-bit counter, shared by concurrent calls, picks a
    position of the list of healthy backends. */
module RoundRobin {
  import opened Wrappers

  /** The counter is a uint64 and wraps around. */
  const WORD: int := 0x1_0000_0000_0000_0000

  // ---------- division ----------

  lemma ModUnique(x: nat, n: nat, q: int, r: nat)
    requires n > 0 && x == q * n + r && r < n
    ensures x % n == r && x / n == q
  {
    var d := q - x / n;
    assert x == (x / n) * n + x % n;
    assert d * n == x % n - r;
    MultipleIsFar(d, n);
  }

  lemma MultipleIsFar(d: int, n: int)
    requires n > 0
    ensures d >= 1 ==> d * n >= n
    ensures d <= -1 ==> d * n <= -n
  {
  }

  lemma ModNext(x: nat, n: nat)
    requires n > 0
    ensures (x + 1) % n == if x % n == n - 1 then 0 else x % n + 1
    ensures (x + 1) / n == x / n + if x % n == n - 1 then 1 else 0
  {
    assert x == (x / n) * n + x % n;
    if x % n == n - 1 {
      assert x + 1 == (x / n + 1) * n;
      ModUnique(x + 1, n, x / n + 1, 0);
    } else {
      ModUnique(x + 1, n, x / n, x % n + 1);
    }
  }

  lemma {:induction false} ModShift(x: nat, i: nat, n: nat)
    requires n > 0
    ensures (x % n + i) % n == (x + i) % n
  {
    if i == 0 {
      ModUnique(x % n, n, 0, x % n);
    } else {
      ModShift(x, i - 1, n);
      ModNext(x % n + (i - 1), n);
      ModNext(x + (i - 1), n);
    }
  }

  lemma ModDrop(x: nat, m: nat, n: nat)
    requires n > 0 && m % n == 0
    ensures (x + m) % n == x % n
  {
    assert m == (m / n) * n;
    assert x == (x / n) * n + x % n;
    assert x + m == (x / n + m / n) * n + x % n;
    ModUnique(x + m, n, x / n + m / n, x % n);
  }

  // ---------- positions ----------

  /** The counter after one more call. */
  function Next(current: nat): nat {
    (current + 1) % WORD
  }

  /** The position the i-th of the following calls picks in a list of `n`. */
  function Position(current: nat, n: nat, i: nat): nat
    requires n > 0
  {
    (current + 1 + i) % WORD % n
  }

  /** How many of the next `k` calls pick position `p`. */
  function Picked(current: nat, n: nat, k: nat, p: nat): nat
    requires n > 0
  {
    if k == 0 then 0 else Picked(current, n, k - 1, p) + if Position(current, n, k - 1) == p then 1 else 0
  }

  /** How many numbers below m have remainder p. */
  function Below(m: nat, n: nat, p: nat): nat
    requires n > 0
  {
    if m == 0 then 0 else Below(m - 1, n, p) + if (m - 1) % n == p then 1 else 0
  }

  lemma {:induction false} BelowIs(m: nat, n: nat, p: nat)
    requires p < n
    ensures Below(m, n, p) == m / n + if p < m % n then 1 else 0
  {
    if m == 0 {
      ModUnique(0, n, 0, 0);
    } else {
      BelowIs(m - 1, n, p);
      ModNext(m - 1, n);
    }
  }

  /** Taking the counter modulo 2^64 first does not matter when n divides it. */
  lemma ModMod(x: nat, m: nat, n: nat)
    requires n > 0 && m > 0 && m % n == 0
    ensures x % m % n == x % n
  {
    var q, c := x / m, m / n;
    assert m == c * n && x == q * m + x % m;
    assert q * m == (q * c) * n;
    assert x % m == (x % m / n) * n + x % m % n;
    assert x == (q * c + x % m / n) * n + x % m % n;
    ModUnique(x, n, q * c + x % m / n, x % m % n);
  }

  lemma {:induction false} PickedIsBelow(current: nat, n: nat, k: nat, p: nat)
    requires n > 0 && (current + k < WORD || WORD % n == 0)
    ensures Picked(current, n, k, p) == Below(current + 1 + k, n, p) - Below(current + 1, n, p)
  {
    if k > 0 {
      PickedIsBelow(current, n, k - 1, p);
      if current + k < WORD {
        ModUnique(current + k, WORD, 0, current + k);
      } else {
        ModMod(current + k, WORD, n);
      }
    }
  }

  lemma QuotientDifference(a: nat, k: nat, n: nat)
    requires n > 0
    ensures var d := (a + k) / n - a / n;
            if a % n <= (a + k) % n then k / n == d && k % n == (a + k) % n - a % n
            else k / n == d - 1 && k % n > 0
  {
    var q, r, q', r' := a / n, a % n, (a + k) / n, (a + k) % n;
    assert a == q * n + r && a + k == q' * n + r';
    assert k == (q' - q) * n + (r' - r);
    if r <= r' {
      ModUnique(k, n, q' - q, r' - r);
    } else {
      assert k == (q' - q - 1) * n + (n + r' - r);
      ModUnique(k, n, q' - q - 1, n + r' - r);
    }
  }

  function Floor(k: nat, n: nat): nat
    requires n > 0
  {
    k / n
  }

  function Ceiling(k: nat, n: nat): nat
    requires n > 0
  {
    k / n + if k % n == 0 then 0 else 1
  }

  predicate IsShare(count: int, k: nat, n: nat)
    requires n > 0
  {
    Floor(k, n) <= count <= Ceiling(k, n)
  }

  /** While the counter does not overflow, or for ever when n divides 2^64, any k
      consecutive calls pick each position k/n times or once more, and exactly k/n
      times when n divides k. */
  lemma EveryPositionGetsItsShare(current: nat, n: nat, k: nat, p: nat)
    requires p < n && (current + k < WORD || WORD % n == 0)
    ensures IsShare(Picked(current, n, k, p), k, n)
  {
    PickedIsBelow(current, n, k, p);
    BelowIs(current + 1, n, p);
    BelowIs(current + 1 + k, n, p);
    QuotientDifference(current + 1, k, n);
  }

  lemma {:induction false} PickedCountsTwo(current: nat, n: nat, k: nat, p: nat, i: nat, j: nat)
    requires n > 0 && i < j < k && Position(current, n, i) == Position(current, n, j) == p
    ensures Picked(current, n, k, p) >= 2
  {
    if j < k - 1 {
      PickedCountsTwo(current, n, k - 1, p, i, j);
    } else {
      PickedCountsOne(current, n, j, p, i);
    }
  }

  lemma {:induction false} PickedCountsOne(current: nat, n: nat, k: nat, p: nat, i: nat)
    requires n > 0 && i < k && Position(current, n, i) == p
    ensures Picked(current, n, k, p) >= 1
  {
    if i < k - 1 {
      PickedCountsOne(current, n, k - 1, p, i);
    }
  }

  /** When n does not divide 2^64, the wrap picks position 0 twice in a row of calls
      that is no longer than the list. */
  lemma WrapPicksFirstTwice(n: nat)
    requires 0 < n <= WORD && WORD % n != 0
    ensures var r := WORD % n;
            && r + 1 <= n && Picked(WORD - r - 1, n, r + 1, 0) >= 2
            && !IsShare(Picked(WORD - r - 1, n, r + 1, 0), r + 1, n)
  {
    var r, q := WORD % n, WORD / n;
    assert WORD == q * n + r;
    ModUnique(WORD - r, WORD, 0, WORD - r);
    ModUnique(WORD - r, n, q, 0);
    ModUnique(WORD, WORD, 1, 0);
    ModUnique(0, n, 0, 0);
    PickedCountsTwo(WORD - r - 1, n, r + 1, 0, 0, r);
    if r + 1 == n {
      ModUnique(r + 1, n, 1, 0);
    } else {
      ModUnique(r + 1, n, 0, r + 1);
    }
  }

  ghost predicate AlwaysFair(n: nat)
    requires n > 0
  {
    forall current: nat, k: nat, p: nat :: current < WORD && p < n ==> IsShare(Picked(current, n, k, p), k, n)
  }

  /** Every stretch of calls from every counter is fair exactly when n divides 2^64. */
  lemma AlwaysFairIff(n: nat)
    requires 0 < n <= WORD
    ensures AlwaysFair(n) <==> WORD % n == 0
  {
    if WORD % n == 0 {
      forall current: nat, k: nat, p: nat | current < WORD && p < n ensures IsShare(Picked(current, n, k, p), k, n) {
        EveryPositionGetsItsShare(current, n, k, p);
      }
    } else {
      WrapPicksFirstTwice(n);
    }
  }

  // ---------- runs of SelectBackend ----------

  /** One call that finds the list `healthy`: the counter before and after, and the
      address it returns. */
  predicate Selects(current: nat, healthy: seq<string>, current': nat, address: string) {
    && healthy != [] && current' == Next(current)
    && address == healthy[Position(current, |healthy|, 0)]
  }

  ghost predicate IsRun(healthy: seq<string>, counters: seq<nat>, picks: seq<string>) {
    && |counters| == |picks| + 1 && counters[0] < WORD
    && forall i :: 0 <= i < |picks| ==> Selects(counters[i], healthy, counters[i + 1], picks[i])
  }

  /** A fresh balancer starts with the second address of the list and goes on in
      order. */
  lemma FreshRunOrder(healthy: seq<string>, counters: seq<nat>, picks: seq<string>, i: nat)
    requires IsRun(healthy, counters, picks) && counters[0] == 0 && i < |picks| && i + 1 < WORD
    ensures healthy != [] && picks[i] == healthy[(i + 1) % |healthy|]
  {
    RunPositions(healthy, counters, picks, i);
    ModUnique(i + 1, WORD, 0, i + 1);
  }

  function Times(s: seq<string>, address: string): nat {
    if s == [] then 0 else Times(s[..|s| - 1], address) + if s[|s| - 1] == address then 1 else 0
  }

  /** How often `k` calls pick one of the first `m` positions that hold the address. */
  function PickedOf(current: nat, healthy: seq<string>, k: nat, address: string, m: nat): nat
    requires m <= |healthy|
  {
    if m == 0 then 0
    else PickedOf(current, healthy, k, address, m - 1)
         + if healthy[m - 1] == address then Picked(current, |healthy|, k, m - 1) else 0
  }

  lemma {:induction false} RunPositions(healthy: seq<string>, counters: seq<nat>, picks: seq<string>, i: nat)
    requires IsRun(healthy, counters, picks) && i <= |picks|
    ensures counters[i] == (counters[0] + i) % WORD
    ensures i < |picks| ==> healthy != [] && picks[i] == healthy[Position(counters[0], |healthy|, i)]
  {
    if i == 0 {
      ModUnique(counters[0], WORD, 0, counters[0]);
    } else {
      RunPositions(healthy, counters, picks, i - 1);
      assert Selects(counters[i - 1], healthy, counters[i], picks[i - 1]);
      ModShift(counters[0] + (i - 1), 1, WORD);
    }
    if i < |picks| {
      assert Selects(counters[i], healthy, counters[i + 1], picks[i]);
      ModShift(counters[0] + i, 1, WORD);
    }
  }

  lemma {:induction false} PickedOfStep(current: nat, healthy: seq<string>, k: nat, address: string, m: nat)
    requires m <= |healthy| && healthy != []
    ensures var p := Position(current, |healthy|, k);
            PickedOf(current, healthy, k + 1, address, m)
            == PickedOf(current, healthy, k, address, m) + if p < m && healthy[p] == address then 1 else 0
  {
    if m > 0 {
      PickedOfStep(current, healthy, k, address, m - 1);
    }
  }

  lemma {:induction false} NothingPicked(current: nat, healthy: seq<string>, address: string, m: nat)
    requires m <= |healthy|
    ensures PickedOf(current, healthy, 0, address, m) == 0
  {
    if m > 0 {
      NothingPicked(current, healthy, address, m - 1);
    }
  }

  lemma {:induction false} RunCounts(healthy: seq<string>, counters: seq<nat>, picks: seq<string>, k: nat,
                                     address: string)
    requires IsRun(healthy, counters, picks) && k <= |picks|
    ensures Times(picks[..k], address) == PickedOf(counters[0], healthy, k, address, |healthy|)
  {
    if k == 0 {
      NothingPicked(counters[0], healthy, address, |healthy|);
    } else {
      RunCounts(healthy, counters, picks, k - 1, address);
      RunPositions(healthy, counters, picks, k - 1);
      PickedOfStep(counters[0], healthy, k - 1, address, |healthy|);
      assert picks[..k][..k - 1] == picks[..k - 1];
    }
  }

  lemma TimesOneMore(m: nat, x: int)
    ensures (m + 1) * x == m * x + x
  {
  }

  lemma {:induction false} SharesAddUp(current: nat, healthy: seq<string>, k: nat, address: string, m: nat,
                                       low: int, high: int)
    requires m <= |healthy|
    requires forall p: nat :: p < |healthy| ==> low <= Picked(current, |healthy|, k, p) <= high
    ensures var times := Times(healthy[..m], address);
            times * low <= PickedOf(current, healthy, k, address, m) <= times * high
  {
    if m > 0 {
      SharesAddUp(current, healthy, k, address, m - 1, low, high);
      assert healthy[..m][..m - 1] == healthy[..m - 1];
      TimesOneMore(Times(healthy[..m - 1], address), low);
      TimesOneMore(Times(healthy[..m - 1], address), high);
    }
  }

  lemma AllShares(current: nat, healthy: seq<string>, k: nat, address: string)
    requires healthy != [] && (current + k < WORD || WORD % |healthy| == 0)
    ensures var n, times := |healthy|, Times(healthy, address);
            times * Floor(k, n) <= PickedOf(current, healthy, k, address, n) <= times * Ceiling(k, n)
  {
    var n := |healthy|;
    forall p: nat | p < n ensures Floor(k, n) <= Picked(current, n, k, p) <= Ceiling(k, n) {
      EveryPositionGetsItsShare(current, n, k, p);
    }
    SharesAddUp(current, healthy, k, address, n, Floor(k, n), Ceiling(k, n));
    assert healthy[..n] == healthy;
  }

  /** Fairness: in any run of k calls over one list of n healthy addresses, an address
      listed m times is returned at least m * floor(k/n) and at most m * ceil(k/n)
      times, unless the counter wraps in the run and n does not divide 2^64. */
  lemma EveryAddressGetsItsShare(healthy: seq<string>, counters: seq<nat>, picks: seq<string>, address: string)
    requires IsRun(healthy, counters, picks) && healthy != []
    requires counters[0] + |picks| < WORD || WORD % |healthy| == 0
    ensures var n, k, times := |healthy|, |picks|, Times(healthy, address);
            times * Floor(k, n) <= Times(picks, address) <= times * Ceiling(k, n)
  {
    RunCounts(healthy, counters, picks, |picks|, address);
    assert picks[..|picks|] == picks;
    AllShares(counters[0], healthy, |picks|, address);
  }

  /** The next n calls visit the n positions in order, starting anywhere. */
  ghost predicate IsRotation(current: nat, n: nat)
    requires n > 0
  {
    exists s: nat :: s < n && RotatesFrom(current, n, s)
  }

  ghost predicate RotatesFrom(current: nat, n: nat, s: nat)
    requires n > 0
  {
    forall i: nat :: i < n ==> Position(current, n, i) == (s + i) % n
  }

  /** The counter wraps strictly inside the next n calls. */
  predicate WrapsInside(current: nat, n: nat) {
    current < WORD - 1 && current + n >= WORD
  }

  lemma PositionAtWrap(n: nat, i: nat)
    requires 0 < n <= WORD && i < n
    ensures Position(WORD - 1, n, i) == i == (0 + i) % n
  {
    ModUnique(WORD + i, WORD, 1, i);
    ModUnique(i, n, 0, i);
  }

  lemma PositionElsewhere(current: nat, n: nat, i: nat)
    requires 0 < n <= WORD && i < n && current < WORD - 1
    requires current + 1 + i < WORD || WORD % n == 0
    ensures Position(current, n, i) == ((current + 1) % n + i) % n
  {
    var x := current + 1 + i;
    ModShift(current + 1, i, n);
    if x < WORD {
      ModUnique(x, WORD, 0, x);
    } else {
      ModUnique(x, WORD, 1, x - WORD);
      ModDrop(x - WORD, WORD, n);
    }
  }

  lemma RotatesWithoutWrap(current: nat, n: nat)
    requires 0 < n <= WORD && current < WORD && (!WrapsInside(current, n) || WORD % n == 0)
    ensures IsRotation(current, n)
  {
    if current == WORD - 1 {
      forall i: nat | i < n ensures Position(current, n, i) == (0 + i) % n {
        PositionAtWrap(n, i);
      }
      assert RotatesFrom(current, n, 0);
    } else {
      var s := (current + 1) % n;
      forall i: nat | i < n ensures Position(current, n, i) == (s + i) % n {
        PositionElsewhere(current, n, i);
      }
      assert RotatesFrom(current, n, s);
    }
  }

  lemma WrapBreaksRotation(current: nat, n: nat)
    requires 0 < n <= WORD && WrapsInside(current, n) && WORD % n != 0
    ensures !IsRotation(current, n)
  {
    var i: nat := WORD - 2 - current;
    forall s: nat | s < n ensures !RotatesFrom(current, n, s) {
      if RotatesFrom(current, n, s) {
        assert Position(current, n, i) == (s + i) % n && Position(current, n, i + 1) == (s + (i + 1)) % n;
        ModUnique(WORD - 1, WORD, 0, WORD - 1);
        ModUnique(WORD, WORD, 1, 0);
        ModUnique(0, n, 0, 0);
        ModNext(s + i, n);
        ModNext(WORD - 1, n);
      }
    }
  }

  /** Any n consecutive calls are a rotation of the list, except exactly when the
      counter wraps among them and n does not divide 2^64. */
  lemma RotationIff(current: nat, n: nat)
    requires 0 < n <= WORD && current < WORD
    ensures IsRotation(current, n) <==> !WrapsInside(current, n) || WORD % n == 0
  {
    if !WrapsInside(current, n) || WORD % n == 0 {
      RotatesWithoutWrap(current, n);
    } else {
      WrapBreaksRotation(current, n);
    }
  }

  // ---------- the balancer ----------

  datatype Node = Node(address: string, healthy: bool)

  function Healthy(nodes: seq<Node>): seq<string> {
    if nodes == [] then []
    else
      var last := nodes[|nodes| - 1];
      Healthy(nodes[..|nodes| - 1]) + if last.healthy then [last.address] else []
  }

  /** The places of the backends marked healthy. */
  function HealthyPlaces(nodes: seq<Node>): seq<nat> {
    if nodes == [] then []
    else HealthyPlaces(nodes[..|nodes| - 1]) + if nodes[|nodes| - 1].healthy then [|nodes| - 1] else []
  }

  /** The healthy list holds the addresses at those places, one each. */
  lemma {:induction false} HealthyIsPlaces(nodes: seq<Node>, j: nat)
    ensures |Healthy(nodes)| == |HealthyPlaces(nodes)|
    ensures j < |Healthy(nodes)| ==>
              var i := HealthyPlaces(nodes)[j];
              i < |nodes| && nodes[i].healthy && Healthy(nodes)[j] == nodes[i].address
  {
    if nodes != [] {
      HealthyIsPlaces(nodes[..|nodes| - 1], j);
    }
  }

  lemma {:induction false} PlacesIncrease(nodes: seq<Node>, j: nat, k: nat)
    requires j < k < |HealthyPlaces(nodes)|
    ensures HealthyPlaces(nodes)[j] < HealthyPlaces(nodes)[k]
  {
    var front := nodes[..|nodes| - 1];
    HealthyIsPlaces(front, j);
    if k < |HealthyPlaces(front)| {
      PlacesIncrease(front, j, k);
    }
  }

  lemma {:induction false} PlaceOfHealthy(nodes: seq<Node>, i: nat) returns (j: nat)
    requires i < |nodes| && nodes[i].healthy
    ensures j < |HealthyPlaces(nodes)| && HealthyPlaces(nodes)[j] == i
  {
    var front := nodes[..|nodes| - 1];
    if i < |front| {
      assert nodes[i] == front[i];
      j := PlaceOfHealthy(front, i);
      assert HealthyPlaces(nodes)[j] == HealthyPlaces(front)[j];
    } else {
      j := |HealthyPlaces(front)|;
      assert HealthyPlaces(nodes) == HealthyPlaces(front) + [i];
    }
  }

  ghost predicate HasHealthy(nodes: seq<Node>, address: string) {
    exists i :: 0 <= i < |nodes| && nodes[i].healthy && nodes[i].address == address
  }

  lemma HealthyHas(nodes: seq<Node>, address: string)
    ensures address in Healthy(nodes) <==> HasHealthy(nodes, address)
  {
    if address in Healthy(nodes) {
      var j :| 0 <= j < |Healthy(nodes)| && Healthy(nodes)[j] == address;
      HealthyIsPlaces(nodes, j);
    }
    if i :| 0 <= i < |nodes| && nodes[i].healthy && nodes[i].address == address {
      var j := PlaceOfHealthy(nodes, i);
      HealthyIsPlaces(nodes, j);
    }
  }

  predicate HoldsPlace(nodes: seq<Node>, j: nat)
    requires j < |Healthy(nodes)|
  {
    && j < |HealthyPlaces(nodes)| && HealthyPlaces(nodes)[j] < |nodes|
    && nodes[HealthyPlaces(nodes)[j]].healthy
    && Healthy(nodes)[j] == nodes[HealthyPlaces(nodes)[j]].address
  }

  /** The healthy list is the addresses of the backends marked healthy, in order and
      each backend once: its j-th entry is the backend at a place that grows with j,
      and every healthy backend has a place. */
  lemma HealthyAre(nodes: seq<Node>)
    ensures forall j: nat :: j < |Healthy(nodes)| ==> HoldsPlace(nodes, j)
    ensures forall j, k :: 0 <= j < k < |HealthyPlaces(nodes)| ==> HealthyPlaces(nodes)[j] < HealthyPlaces(nodes)[k]
    ensures forall i :: 0 <= i < |nodes| && nodes[i].healthy ==> i in HealthyPlaces(nodes)
  {
    forall j: nat | j < |Healthy(nodes)| ensures HoldsPlace(nodes, j) {
      HealthyIsPlaces(nodes, j);
    }
    forall j, k | 0 <= j < k < |HealthyPlaces(nodes)| ensures HealthyPlaces(nodes)[j] < HealthyPlaces(nodes)[k] {
      PlacesIncrease(nodes, j, k);
    }
    forall i | 0 <= i < |nodes| && nodes[i].healthy ensures i in HealthyPlaces(nodes) {
      var j := PlaceOfHealthy(nodes, i);
    }
  }

  /** Sets the mark of the first backend with the address, if there is one. */
  ghost predicate IsMarked(before: seq<Node>, address: string, healthy: bool, after: seq<Node>) {
    if exists k :: 0 <= k < |before| && before[k].address == address then
      exists k :: 0 <= k < |before| && before[k].address == address
               && (forall j :: 0 <= j < k ==> before[j].address != address)
               && after == before[k := before[k].(healthy := healthy)]
    else after == before
  }

  function AllHealthy(addresses: seq<string>): seq<Node> {
    seq(|addresses|, i requires 0 <= i < |addresses| => Node(addresses[i], true))
  }

  class RoundRobinBalancer {
    var backends: seq<Node>
    var current: nat

    ghost predicate Valid()
      reads this
    {
      current < WORD
    }

    constructor (addresses: seq<string>)
      ensures Valid() && current == 0 && backends == AllHealthy(addresses)
    {
      backends := AllHealthy(addresses);
      current := 0;
    }

    method GetHealthyBackends() returns (addresses: seq<string>)
      ensures addresses == Healthy(backends)
    {
      addresses := [];
      for i := 0 to |backends|
        invariant addresses == Healthy(backends[..i])
      {
        assert backends[..i + 1][..i] == backends[..i];
        if backends[i].healthy {
          addresses := addresses + [backends[i].address];
        }
      }
      assert backends[..|backends|] == backends;
    }

    /** Picks the position the counter points at, leaving the counter alone when no
        backend is healthy. */
    method SelectBackend() returns (r: Option<string>)
      requires Valid()
      modifies this
      ensures Valid() && backends == old(backends)
      ensures var healthy := Healthy(backends);
              if healthy == [] then r == None && current == old(current)
              else r.Some? && Selects(old(current), healthy, current, r.value)
      ensures r.Some? ==> HasHealthy(backends, r.value)
      ensures r.None? ==> forall address :: !HasHealthy(backends, address)
    {
      var healthy := GetHealthyBackends();
      forall address ensures address in Healthy(backends) <==> HasHealthy(backends, address) {
        HealthyHas(backends, address);
      }
      if |healthy| == 0 {
        return None;
      }
      current := (current + 1) % WORD;
      var index := current % |healthy|;
      r := Some(healthy[index]);
    }

    /** MarkHealthy and MarkUnhealthy. */
    method SetMark(address: string, healthy: bool)
      requires Valid()
      modifies this
      ensures Valid() && IsMarked(old(backends), address, healthy, backends) && current == old(current)
    {
      for i := 0 to |backends|
        invariant backends == old(backends)
        invariant forall j :: 0 <= j < i ==> backends[j].address != address
      {
        if backends[i].address == address {
          backends := backends[i := backends[i].(healthy := healthy)];
          return;
        }
      }
    }

    method UpdateBackends(addresses: seq<string>)
      modifies this
      ensures Valid() && current == 0 && backends == AllHealthy(addresses)
    {
      backends := AllHealthy(addresses);
      current := 0;
    }
  }
}
