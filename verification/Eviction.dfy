/** The eviction loop under every iteration order of the map, with the empty string
    among the keys or not. */
module Eviction {
  import opened CacheSpec

  // ---------- the scan for the oldest entry ----------

  /** What the scan holds after visiting the keys in this order. The empty string
      stands for "nothing chosen yet", so a key that is the empty string confuses
      it. */
  function Scan(m: Entries, order: seq<string>): (oldest: string)
    requires forall i :: 0 <= i < |order| ==> order[i] in m
    ensures oldest != "" ==> oldest in order && oldest in m
  {
    if order == [] then ""
    else
      var before, key := Scan(m, order[..|order| - 1]), order[|order| - 1];
      if before == "" || m[key].accessedAt < m[before].accessedAt then key else before
  }

  ghost predicate Enumerates(order: seq<string>, m: Entries) {
    && (forall k :: k in order <==> k in m)
    && (forall i, j :: 0 <= i < j < |order| ==> order[i] != order[j])
  }

  lemma {:induction false} ScanFindsOldest(m: Entries, order: seq<string>)
    requires forall i :: 0 <= i < |order| ==> order[i] in m
    requires "" !in order
    ensures Scan(m, order) == "" <==> order == []
    ensures forall i :: 0 <= i < |order| ==> m[Scan(m, order)].accessedAt <= m[order[i]].accessedAt
  {
    if order != [] {
      var front := order[..|order| - 1];
      assert order == front + [order[|order| - 1]];
      ScanFindsOldest(m, front);
      assert forall i :: 0 <= i < |front| ==> order[i] == front[i];
    }
  }

  ghost predicate OldestIsEmptyKey(m: Entries) {
    "" in m && forall k :: k in m && k != "" ==> m[""].accessedAt < m[k].accessedAt
  }

  lemma EmptyKeyLast(m: Entries, front: seq<string>)
    requires Enumerates(front + [""], m)
    ensures Scan(m, front + [""]) == "" <==> OldestIsEmptyKey(m)
  {
    var order := front + [""];
    assert order[..|order| - 1] == front;
    assert order[|front|] == "";
    forall i | 0 <= i < |front| ensures order[i] == front[i] != "" && front[i] in m {
      assert order[i] in order;
    }
    ScanFindsOldest(m, front);
    forall k | k in m && k != "" ensures k in front {
      assert k in order;
    }
    if front != [] {
      assert Scan(m, front) in front;
    }
  }

  /** The scan comes back empty-handed only when the empty string is a key, is
      visited last, and is older than everything else. */
  lemma ScanComesBackEmpty(m: Entries, order: seq<string>)
    requires Enumerates(order, m) && order != []
    ensures Scan(m, order) == "" <==> order[|order| - 1] == "" && OldestIsEmptyKey(m)
  {
    var front, last := order[..|order| - 1], order[|order| - 1];
    assert order == front + [last];
    if last == "" {
      EmptyKeyLast(m, front);
    }
  }

  lemma {:induction false} AnEnumeration(m: Entries) returns (order: seq<string>)
    ensures Enumerates(order, m)
    decreases |m|
  {
    if m == map[] {
      order := [];
    } else {
      var k :| k in m;
      RemoveKey(m, k);
      var rest := AnEnumeration(m - {k});
      order := rest + [k];
      forall j ensures j in order <==> j in m {
        assert j in order <==> j in rest || j == k;
      }
    }
  }

  // ---------- one eviction ----------

  /** The entries after one eviction that visits the keys in this order. */
  function Left(m: Entries, order: seq<string>): Entries
    requires forall i :: 0 <= i < |order| ==> order[i] in m
  {
    if Scan(m, order) == "" then m else m - {Scan(m, order)}
  }

  /** An order in which a scan may visit the keys of the map. */
  ghost predicate IsOrder(order: seq<string>, m: Entries) {
    Enumerates(order, m) && forall i :: 0 <= i < |order| ==> order[i] in m
  }

  ghost predicate Evicts(m: Entries, m': Entries) {
    exists order :: IsOrder(order, m) && m' == Left(m, order)
  }

  /** The empty key, if there, with the entries used strictly after it: what is left
      when everything used no later is gone. */
  function Remainder(m: Entries): Entries {
    map k | k in m && (k == "" || ("" in m && m[k].accessedAt > m[""].accessedAt)) :: m[k]
  }

  /** Some key other than the empty one was used no later than it. */
  ghost predicate IsOlder(m: Entries, k: string) {
    k in m && k != "" && "" in m && m[k].accessedAt <= m[""].accessedAt
  }

  /** Once the scan has met an entry used no later than the empty key, it holds a
      least recently used one. */
  lemma {:induction false} ScanPassesEmptyKey(m: Entries, order: seq<string>)
    requires "" in m && forall i :: 0 <= i < |order| ==> order[i] in m
    requires exists i :: 0 <= i < |order| && IsOlder(m, order[i])
    ensures Scan(m, order) != ""
    ensures forall i :: 0 <= i < |order| && order[i] != "" ==>
              m[Scan(m, order)].accessedAt <= m[order[i]].accessedAt
  {
    var front, last := order[..|order| - 1], order[|order| - 1];
    assert order == front + [last];
    if i :| 0 <= i < |front| && IsOlder(m, front[i]) {
      ScanPassesEmptyKey(m, front);
      assert m[Scan(m, front)].accessedAt <= m[front[i]].accessedAt;
    } else {
      assert IsOlder(m, last);
    }
  }

  lemma OlderGoesFirst(m: Entries, order: seq<string>, older: string)
    requires Enumerates(order, m) && IsOlder(m, older)
    ensures forall i :: 0 <= i < |order| ==> order[i] in m
    ensures var victim := Scan(m, order);
            && victim != "" && victim in m
            && (forall k :: k in m ==> m[victim].accessedAt <= m[k].accessedAt)
            && Remainder(m - {victim}) == Remainder(m)
  {
    assert forall i :: 0 <= i < |order| ==> order[i] in order;
    assert older in order;
    ScanPassesEmptyKey(m, order);
    var victim := Scan(m, order);
    forall k | k in m ensures m[victim].accessedAt <= m[k].accessedAt {
      assert k in order;
      assert m[victim].accessedAt <= m[older].accessedAt;
    }
  }

  lemma NoOlderIsRemainder(m: Entries)
    requires "" in m
    ensures Remainder(m) == m <==> !exists k :: IsOlder(m, k)
  {
    if Remainder(m) == m {
      forall k ensures !IsOlder(m, k) {
        assert k in m ==> k in Remainder(m);
      }
    }
    if !exists k :: IsOlder(m, k) {
      forall k | k in m ensures k in Remainder(m) {
        assert !IsOlder(m, k);
      }
      assert Remainder(m) == m;
    }
  }

  // ---------- the loop ----------

  /** The limits are still exceeded when only the remainder is left: a condition on
      the entries before the loop starts. */
  ghost predicate CanStall(limits: Limits, m: Entries) {
    "" in m && !Fits(limits, Remainder(m))
  }

  ghost predicate Continues(limits: Limits, states: nat -> Entries, i: nat) {
    !Fits(limits, states(i)) && Evicts(states(i), states(i + 1))
  }

  ghost predicate IsEndless(limits: Limits, states: nat -> Entries) {
    forall i: nat :: Continues(limits, states, i)
  }

  /** Some choice of iteration orders keeps the loop running for ever. */
  ghost predicate CanRunForever(limits: Limits, m: Entries) {
    exists states: nat -> Entries :: states(0) == m && IsEndless(limits, states)
  }

  lemma SomeEviction(m: Entries) returns (order: seq<string>)
    ensures IsOrder(order, m) && Evicts(m, Left(m, order))
  {
    order := AnEnumeration(m);
    assert forall i :: 0 <= i < |order| ==> order[i] in order;
  }

  /** With nothing older than it, the empty key visited last makes the scan find
      nothing. */
  lemma CanEvictNothing(m: Entries)
    requires OldestIsEmptyKey(m)
    ensures Evicts(m, m)
  {
    var front := AnEnumeration(m - {""});
    var order := front + [""];
    assert Enumerates(order, m) by {
      forall k ensures k in order <==> k in m {
        assert k in order <==> k in front || k == "";
      }
    }
    assert forall i :: 0 <= i < |order| ==> order[i] in order;
    EmptyKeyLast(m, front);
    assert IsOrder(order, m) && m == Left(m, order);
  }

  ghost function Before(m: Entries, states: nat -> Entries): nat -> Entries {
    (i: nat) => if i == 0 then m else states(i - 1)
  }

  lemma BeforeContinues(limits: Limits, m: Entries, states: nat -> Entries, i: nat)
    requires !Fits(limits, m) && Evicts(m, states(0)) && IsEndless(limits, states)
    ensures Continues(limits, Before(m, states), i)
  {
    if i > 0 {
      assert Continues(limits, states, i - 1);
    }
  }

  lemma ForeverFromNext(limits: Limits, m: Entries, m': Entries)
    requires !Fits(limits, m) && Evicts(m, m') && CanRunForever(limits, m')
    ensures CanRunForever(limits, m)
  {
    var states: nat -> Entries :| states(0) == m' && IsEndless(limits, states);
    forall i: nat ensures Continues(limits, Before(m, states), i) {
      BeforeContinues(limits, m, states, i);
    }
    assert Before(m, states)(0) == m;
  }

  lemma ForeverInPlace(limits: Limits, m: Entries)
    requires !Fits(limits, m) && Evicts(m, m)
    ensures CanRunForever(limits, m)
  {
    var same := (i: nat) => m;
    assert same(0) == m && IsEndless(limits, same);
  }

  lemma {:induction false} StallRunsForever(limits: Limits, m: Entries)
    requires CanStall(limits, m)
    ensures CanRunForever(limits, m)
    decreases |m|
  {
    WithinIsSmaller(Remainder(m), m);
    if older :| IsOlder(m, older) {
      var order := SomeEviction(m);
      OlderGoesFirst(m, order, older);
      RemoveKey(m, Scan(m, order));
      StallRunsForever(limits, Left(m, order));
      ForeverFromNext(limits, m, Left(m, order));
    } else {
      assert forall k :: k in m && k != "" ==> !IsOlder(m, k);
      CanEvictNothing(m);
      ForeverInPlace(limits, m);
    }
  }

  /** An eviction from entries that exceed the limits and cannot stall takes a least
      recently used one. */
  lemma EvictionTakesOldest(limits: Limits, m: Entries, order: seq<string>)
    requires !CanStall(limits, m) && !Fits(limits, m) && Enumerates(order, m)
    ensures forall i :: 0 <= i < |order| ==> order[i] in m
    ensures var victim := Scan(m, order);
            && victim != "" && victim in m
            && (forall k :: k in m ==> m[victim].accessedAt <= m[k].accessedAt)
            && !CanStall(limits, m - {victim}) && |m - {victim}| == |m| - 1
  {
    assert forall i :: 0 <= i < |order| ==> order[i] in order;
    if "" in m {
      NoOlderIsRemainder(m);
      var older :| IsOlder(m, older);
      OlderGoesFirst(m, order, older);
    } else {
      ScanFindsOldest(m, order);
      assert m != map[];
      var some :| some in m;
      assert some in order;
      var victim := Scan(m, order);
      forall k | k in m ensures m[victim].accessedAt <= m[k].accessedAt {
        assert k in order;
      }
    }
    RemoveKey(m, Scan(m, order));
  }

  lemma EvictionShrinks(limits: Limits, m: Entries, m': Entries)
    requires !CanStall(limits, m) && !Fits(limits, m) && Evicts(m, m')
    ensures !CanStall(limits, m') && |m'| < |m|
  {
    var order :| IsOrder(order, m) && m' == Left(m, order);
    EvictionTakesOldest(limits, m, order);
  }

  ghost function Tail(states: nat -> Entries): nat -> Entries {
    (i: nat) => states(i + 1)
  }

  lemma TailContinues(limits: Limits, states: nat -> Entries, i: nat)
    requires Continues(limits, states, i + 1)
    ensures Continues(limits, Tail(states), i)
  {
    assert Tail(states)(i) == states(i + 1) && Tail(states)(i + 1) == states(i + 1 + 1);
  }

  lemma TailIsEndless(limits: Limits, states: nat -> Entries)
    requires IsEndless(limits, states)
    ensures IsEndless(limits, Tail(states))
  {
    forall i: nat ensures Continues(limits, Tail(states), i) {
      assert Continues(limits, states, i + 1);
      TailContinues(limits, states, i);
    }
  }

  lemma {:induction false} NoStallEnds(limits: Limits, states: nat -> Entries)
    requires !CanStall(limits, states(0))
    ensures !IsEndless(limits, states)
    decreases |states(0)|
  {
    if IsEndless(limits, states) {
      assert Continues(limits, states, 0);
      EvictionShrinks(limits, states(0), states(1));
      TailIsEndless(limits, states);
      NoStallEnds(limits, Tail(states));
    }
  }

  /** Some choice of iteration orders lets the loop run for ever exactly when the
      empty string is a key and it, with the entries used after it, exceeds the
      limits. */
  lemma EvictionRunsForeverIff(limits: Limits, m: Entries)
    ensures CanRunForever(limits, m) <==> CanStall(limits, m)
  {
    if CanStall(limits, m) {
      StallRunsForever(limits, m);
    }
    if states: nat -> Entries :| states(0) == m && IsEndless(limits, states) {
      if !CanStall(limits, m) { NoStallEnds(limits, states); }
    }
  }

  // ---------- where it ends ----------

  /** The loop ends when its scans visit the keys in these orders, one for each
      eviction. */
  ghost predicate Ends(limits: Limits, m: Entries, orders: seq<seq<string>>) {
    if Fits(limits, m) then orders == []
    else orders != [] && IsOrder(orders[0], m) && Ends(limits, Left(m, orders[0]), orders[1..])
  }

  /** What it leaves then. */
  function AfterScans(limits: Limits, m: Entries, orders: seq<seq<string>>): Entries
    requires Ends(limits, m, orders)
  {
    if orders == [] then m else AfterScans(limits, Left(m, orders[0]), orders[1..])
  }

  /** Some choice of iteration orders lets the loop end. */
  ghost predicate CanEnd(limits: Limits, m: Entries) {
    exists orders :: Ends(limits, m, orders)
  }

  /** Some choice of iteration orders lets it end with `left`. */
  ghost predicate EndsWith(limits: Limits, m: Entries, left: Entries) {
    exists orders :: Ends(limits, m, orders) && left == AfterScans(limits, m, orders)
  }

  /** Under any orders what is left was there, fits, and has the empty key if that
      was there. */
  lemma {:induction false} ScansLeave(limits: Limits, m: Entries, orders: seq<seq<string>>)
    requires Ends(limits, m, orders)
    ensures var left := AfterScans(limits, m, orders);
            Within(left, m) && Fits(limits, left) && ("" in m ==> "" in left)
    decreases |orders|
  {
    if orders != [] {
      ScansLeave(limits, Left(m, orders[0]), orders[1..]);
    }
  }

  /** When the loop cannot stall, what is left is the most recently used part. */
  lemma {:induction false} ScansCut(limits: Limits, full: Entries, m: Entries, orders: seq<seq<string>>)
    requires Ends(limits, m, orders) && !CanStall(limits, m) && IsPartialCut(limits, full, m)
    ensures IsCut(limits, full, AfterScans(limits, m, orders))
    decreases |orders|
  {
    if orders != [] {
      EvictionTakesOldest(limits, m, orders[0]);
      EvictOneMore(limits, full, m, Scan(m, orders[0]));
      ScansCut(limits, full, Left(m, orders[0]), orders[1..]);
    }
  }

  lemma NextScan(limits: Limits, m: Entries, orders: seq<seq<string>>, i: nat)
    requires i <= |orders| && Ends(limits, m, orders[i..]) && !Fits(limits, m)
    ensures i < |orders| && IsOrder(orders[i], m)
    ensures Ends(limits, Left(m, orders[i]), orders[i + 1..])
    ensures AfterScans(limits, m, orders[i..]) == AfterScans(limits, Left(m, orders[i]), orders[i + 1..])
  {
    assert orders[i..][0] == orders[i] && orders[i..][1..] == orders[i + 1..];
  }

  lemma NoStallCuts(limits: Limits, m: Entries, orders: seq<seq<string>>)
    requires Ends(limits, m, orders) && !CanStall(limits, m)
    ensures IsCut(limits, m, AfterScans(limits, m, orders))
  {
    ScansCut(limits, m, m, orders);
  }

  /** The cache after a Set whose scans visit the keys in these orders. */
  ghost function AfterSet(limits: Limits, c: Cache, key: string, e: Entry, orders: seq<seq<string>>): Cache
    requires Ends(limits, c.entries[key := e], orders)
  {
    Stored(c, key, e, AfterScans(limits, c.entries[key := e], orders))
  }

  lemma AfterSetStores(limits: Limits, c: Cache, key: string, e: Entry, orders: seq<seq<string>>)
    requires Ends(limits, c.entries[key := e], orders)
    ensures StoreStep(limits, c, key, e, AfterSet(limits, c, key, e, orders))
    ensures !CanStall(limits, c.entries[key := e]) ==> SetStep(limits, c, key, e, AfterSet(limits, c, key, e, orders))
  {
    ScansLeave(limits, c.entries[key := e], orders);
    if !CanStall(limits, c.entries[key := e]) {
      NoStallCuts(limits, c.entries[key := e], orders);
    }
  }

  // ---------- whether it can end ----------

  /** Visiting the empty key first keeps it from being the last choice. */
  lemma SomeRealEviction(m: Entries) returns (order: seq<string>)
    requires exists k :: k in m && k != ""
    ensures IsOrder(order, m) && Scan(m, order) != ""
  {
    var rest := AnEnumeration(m - {""});
    order := if "" in m then [""] + rest else rest;
    forall k ensures k in order <==> k in m {
      assert k in rest <==> k in m - {""};
      if "" in m { assert k in order <==> k == "" || k in rest; }
    }
    assert forall i :: 0 <= i < |order| ==> order[i] in order;
    assert forall i :: 0 <= i < |rest| ==> rest[i] in rest;
    var some :| some in m && some != "";
    assert some in rest;
    assert order[|order| - 1] == rest[|rest| - 1];
    ScanComesBackEmpty(m, order);
  }

  lemma OnlyEmptyKeyFits(limits: Limits, m: Entries)
    requires (forall k :: k in m ==> k == "") && ("" in m ==> Fits(limits, map["" := m[""]]))
    ensures Fits(limits, m)
  {
    if "" in m {
      assert m == map["" := m[""]];
    } else {
      assert m.Keys == {};
      assert m == map[];
    }
  }

  lemma OtherKeyExists(limits: Limits, m: Entries)
    requires !Fits(limits, m) && ("" in m ==> Fits(limits, map["" := m[""]]))
    ensures exists k :: k in m && k != ""
  {
    if forall k :: k in m ==> k == "" {
      OnlyEmptyKeyFits(limits, m);
    }
  }

  lemma RealEviction(limits: Limits, m: Entries) returns (order: seq<string>)
    requires !Fits(limits, m) && ("" in m ==> Fits(limits, map["" := m[""]]))
    ensures IsOrder(order, m) && |Left(m, order)| < |m|
    ensures ("" in Left(m, order) <==> "" in m) && ("" in m ==> Left(m, order)[""] == m[""])
  {
    OtherKeyExists(limits, m);
    order := SomeRealEviction(m);
    RemoveKey(m, Scan(m, order));
  }

  lemma {:induction false} FittingKeyEnds(limits: Limits, m: Entries) returns (orders: seq<seq<string>>)
    requires "" in m ==> Fits(limits, map["" := m[""]])
    ensures Ends(limits, m, orders)
    decreases |m|
  {
    if Fits(limits, m) {
      orders := [];
    } else {
      var order := RealEviction(limits, m);
      var rest := FittingKeyEnds(limits, Left(m, order));
      orders := [order] + rest;
      assert orders[1..] == rest;
    }
  }

  lemma NoStallCanEnd(limits: Limits, m: Entries) returns (orders: seq<seq<string>>)
    requires !CanStall(limits, m)
    ensures Ends(limits, m, orders)
  {
    if "" in m {
      WithinIsSmaller(map["" := m[""]], Remainder(m));
    }
    orders := FittingKeyEnds(limits, m);
  }

  lemma OversizedKeyDoesNotFit(limits: Limits, e: Entry)
    ensures Fits(limits, map["" := e]) <==> limits.maxSize <= 0 || e.size <= limits.maxSize
  {
    var none: Entries := map[];
    assert none["" := e] == map["" := e];
    TotalSizeUpdate(none, "", e);
  }

  /** The loop ends under some choice of iteration orders exactly when the empty
      string, if a key, does not itself exceed the byte limit; if it does, every
      choice runs for ever. */
  lemma EvictionCanEndIff(limits: Limits, m: Entries)
    ensures CanEnd(limits, m) <==> ("" in m && limits.maxSize > 0 ==> m[""].size <= limits.maxSize)
  {
    if "" in m {
      OversizedKeyDoesNotFit(limits, m[""]);
    }
    if "" in m ==> Fits(limits, map["" := m[""]]) {
      var orders := FittingKeyEnds(limits, m);
    }
    if orders :| Ends(limits, m, orders) {
      ScansLeave(limits, m, orders);
      if "" in m {
        WithinIsSmaller(map["" := m[""]], AfterScans(limits, m, orders));
      }
    }
  }

  /** Under a limit of one byte, two bytes stored last under the empty key never leave
      the cache, whatever the iteration orders. */
  lemma OversizedNewestNeverLeaves(a: Entry, e: Entry)
    requires a.size == 0 && a.accessedAt < e.accessedAt && e.size == 2
    ensures var limits, m := Limits(1, 0), map["a" := a, "" := e];
            CanRunForever(limits, m) && !CanEnd(limits, m) && !OldestIsEmptyKey(m)
  {
    var limits, m := Limits(1, 0), map["a" := a, "" := e];
    assert "a" in m && m["a"].accessedAt <= m[""].accessedAt;
    EvictionCanEndIff(limits, m);
    OversizedKeyDoesNotFit(limits, e);
    WithinIsSmaller(map["" := e], Remainder(m));
    EvictionRunsForeverIff(limits, m);
  }

  // ---------- which key an eviction may take ----------

  /** Visiting any other key last, right after the empty key, makes the scan take it. */
  lemma ScanTakesLast(m: Entries, front: seq<string>, victim: string)
    requires IsOrder(front + [""] + [victim], m) && OldestIsEmptyKey(m) && victim != ""
    ensures Scan(m, front + [""] + [victim]) == victim
  {
    var order, before := front + [""] + [victim], front + [""];
    assert order[..|order| - 1] == before && before[..|before| - 1] == front;
    forall i | 0 <= i < |before| ensures before[i] in m {
      assert order[i] == before[i];
    }
    forall i | 0 <= i < |front| ensures front[i] in m && front[i] != "" {
      assert order[i] == front[i] && order[|front|] == "";
    }
    if front != [] {
      assert Scan(m, front) in front || Scan(m, front) == "";
    }
    assert Scan(m, before) == "";
  }

  lemma VictimLast(m: Entries, victim: string) returns (front: seq<string>)
    requires "" in m && victim in m && victim != ""
    ensures IsOrder(front + [""] + [victim], m)
  {
    front := AnEnumeration(m - {"", victim});
    var order := front + [""] + [victim];
    forall k ensures k in order <==> k in m {
      assert k in front <==> k in m - {"", victim};
      assert k in order <==> k in front || k == "" || k == victim;
    }
    VictimLastOnce(front, victim);
    assert forall i :: 0 <= i < |order| ==> order[i] in order;
  }

  lemma VictimLastOnce(front: seq<string>, victim: string)
    requires forall i, j :: 0 <= i < j < |front| ==> front[i] != front[j]
    requires "" !in front && victim !in front && victim != ""
    ensures var order := front + [""] + [victim];
            forall i, j :: 0 <= i < j < |order| ==> order[i] != order[j]
  {
  }

  /** While the empty key is the oldest, an eviction may take any other key, the
      newest included. */
  lemma AnyKeyMayGo(limits: Limits, m: Entries, victim: string)
    requires OldestIsEmptyKey(m) && victim in m && victim != ""
    requires !Fits(limits, m) && Fits(limits, m - {victim})
    ensures EndsWith(limits, m, m - {victim})
  {
    var front := VictimLast(m, victim);
    var order := front + [""] + [victim];
    ScanTakesLast(m, front, victim);
    OneScanEnds(limits, m, order);
  }

  lemma OneScanEnds(limits: Limits, m: Entries, order: seq<string>)
    requires IsOrder(order, m) && !Fits(limits, m) && Fits(limits, Left(m, order))
    ensures EndsWith(limits, m, Left(m, order))
  {
    var orders := [order];
    assert orders[0] == order && orders[1..] == [];
    assert Ends(limits, Left(m, order), orders[1..]);
    assert AfterScans(limits, Left(m, order), orders[1..]) == Left(m, order);
    assert Ends(limits, m, orders) && AfterScans(limits, m, orders) == Left(m, order);
  }
}
