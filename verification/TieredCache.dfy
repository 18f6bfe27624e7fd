/** Two caches in series: a Get that misses the first level and hits the second
    copies the value to the first for one hour. */
module TieredCache {
  import opened Wrappers
  import opened CacheSpec
  import opened Eviction
  import M = MemoryCache

  /** time.Hour in nanoseconds. */
  const HOUR: int := 3_600_000_000_000

  datatype Tiers = Tiers(l1: Cache, l2: Cache)

  /** A call with the clock readings its steps take. */
  datatype Call =
    | Set(key: string, value: Bytes, ttl: int, start: int, stored1: int, stored2: int)
    | Get(key: string, checked1: int, used1: int, checked2: int, used2: int, promoted: int)
    | Delete(key: string)
    | Clear

  /** What is stored may evict anything from a level that then fits. */
  ghost predicate Step(b1: Limits, b2: Limits, t: Tiers, call: Call, t': Tiers) {
    match call
    case Set(key, value, ttl, _, stored1, stored2) =>
      && StoreStep(b1, t.l1, key, NewEntry(value, ttl, stored1), t'.l1)
      && StoreStep(b2, t.l2, key, NewEntry(value, ttl, stored2), t'.l2)
    case Get(key, checked1, used1, checked2, used2, promoted) =>
      var l1 := GetStep(t.l1, key, checked1, used1);
      if Found(t.l1, key, checked1).Some? then t' == Tiers(l1, t.l2)
      else
        && t'.l2 == GetStep(t.l2, key, checked2, used2)
        && (match Found(t.l2, key, checked2)
            case None => t'.l1 == l1
            case Some(value) => StoreStep(b1, l1, key, NewEntry(value, HOUR, promoted), t'.l1))
    case Delete(key) => t' == Tiers(DeleteStep(t.l1, key), DeleteStep(t.l2, key))
    case Clear => t' == Tiers(ClearStep(t.l1), ClearStep(t.l2))
  }

  /** The evictions of the step, if any, are of least recently used entries. */
  ghost predicate Cuts(b1: Limits, b2: Limits, t: Tiers, call: Call, t': Tiers) {
    match call
    case Set(key, value, ttl, _, stored1, stored2) =>
      && IsCut(b1, t.l1.entries[key := NewEntry(value, ttl, stored1)], t'.l1.entries)
      && IsCut(b2, t.l2.entries[key := NewEntry(value, ttl, stored2)], t'.l2.entries)
    case Get(key, checked1, used1, checked2, _, promoted) =>
      Found(t.l1, key, checked1).None? && Found(t.l2, key, checked2).Some? ==>
        IsCut(b1, GetStep(t.l1, key, checked1, used1).entries[
                key := NewEntry(Found(t.l2, key, checked2).value, HOUR, promoted)], t'.l1.entries)
    case _ => true
  }

  /** What a Get returns. */
  function Served(t: Tiers, call: Call): Option<Bytes>
    requires call.Get?
  {
    var first := Found(t.l1, call.key, call.checked1);
    if first.Some? then first else Found(t.l2, call.key, call.checked2)
  }

  ghost predicate StepAt(b1: Limits, b2: Limits, calls: seq<Call>, states: seq<Tiers>, i: nat)
    requires i < |calls| && |states| == |calls| + 1
  {
    Step(b1, b2, states[i], calls[i], states[i + 1])
  }

  ghost predicate IsRun(b1: Limits, b2: Limits, calls: seq<Call>, states: seq<Tiers>) {
    && |states| == |calls| + 1
    && states[0] == Tiers(Empty(b1), Empty(b2))
    && forall i :: 0 <= i < |calls| ==> StepAt(b1, b2, calls, states, i)
  }

  /** The last Set of the key among the first `i` calls, unless a Delete of the key
      or a Clear came after it. */
  function LastSet(calls: seq<Call>, i: nat, key: string): (r: Option<Call>)
    requires i <= |calls|
    ensures r.Some? ==> r.value.Set? && r.value.key == key
  {
    if i == 0 then None
    else
      match calls[i - 1]
      case Set(k, _, _, _, _, _) => if k == key then Some(calls[i - 1]) else LastSet(calls, i - 1, key)
      case Get(_, _, _, _, _, _) => LastSet(calls, i - 1, key)
      case Delete(k) => if k == key then None else LastSet(calls, i - 1, key)
      case Clear => None
  }

  /** No call takes longer than `delay` between the readings that matter: from the
      start of a Set to each store, and from the second level's expiry check to the
      promotion. */
  predicate Prompt(call: Call, delay: int) {
    match call
    case Set(_, _, _, start, stored1, stored2) =>
      start <= stored1 <= start + delay && start <= stored2 <= start + delay
    case Get(_, _, _, checked2, _, promoted) => checked2 <= promoted <= checked2 + delay
    case _ => true
  }

  ghost predicate AllPrompt(calls: seq<Call>, delay: int) {
    forall i :: 0 <= i < |calls| ==> Prompt(calls[i], delay)
  }

  /** Every entry of a level holds the last value set and, when that Set had a
      time-to-live, expires by `late` after it at the latest. */
  ghost predicate Faithful(calls: seq<Call>, i: nat, m: Entries, late: int)
    requires i <= |calls|
  {
    forall k :: k in m ==>
      var last := LastSet(calls, i, k);
      last.Some? && m[k].value == last.value.value
      && (last.value.ttl > 0 ==>
            m[k].expiresAt.Some? && m[k].expiresAt.value <= last.value.start + last.value.ttl + late)
  }

  lemma SetIsFaithful(b: Limits, calls: seq<Call>, i: nat, c: Cache, c': Cache, stored: int, late: int, delay: int)
    requires i < |calls| && calls[i].Set? && delay <= late
    requires calls[i].start <= stored <= calls[i].start + delay
    requires Faithful(calls, i, c.entries, late)
    requires StoreStep(b, c, calls[i].key, NewEntry(calls[i].value, calls[i].ttl, stored), c')
    ensures Faithful(calls, i + 1, c'.entries, late)
  {
  }

  lemma GetIsFaithful(calls: seq<Call>, i: nat, c: Cache, key: string, checked: int, now: int, late: int)
    requires i < |calls| && calls[i].Get? && Faithful(calls, i, c.entries, late)
    ensures Faithful(calls, i + 1, GetStep(c, key, checked, now).entries, late)
    ensures Faithful(calls, i + 1, c.entries, late)
  {
  }

  lemma PromotionIsFaithful(b: Limits, calls: seq<Call>, i: nat, l1: Cache, l2: Cache, l1': Cache, delay: int)
    requires i < |calls| && calls[i].Get? && Prompt(calls[i], delay) && 0 <= delay
    requires Faithful(calls, i + 1, l1.entries, HOUR + 2 * delay) && Faithful(calls, i + 1, l2.entries, delay)
    requires var found := Found(l2, calls[i].key, calls[i].checked2);
             found.Some? && StoreStep(b, l1, calls[i].key, NewEntry(found.value, HOUR, calls[i].promoted), l1')
    ensures Faithful(calls, i + 1, l1'.entries, HOUR + 2 * delay)
  {
  }

  lemma DeleteIsFaithful(calls: seq<Call>, i: nat, c: Cache, late: int)
    requires i < |calls| && calls[i].Delete? && Faithful(calls, i, c.entries, late)
    ensures Faithful(calls, i + 1, DeleteStep(c, calls[i].key).entries, late)
  {
  }

  ghost predicate BothFaithful(calls: seq<Call>, i: nat, t: Tiers, delay: int)
    requires i <= |calls|
  {
    Faithful(calls, i, t.l1.entries, HOUR + 2 * delay) && Faithful(calls, i, t.l2.entries, delay)
  }

  lemma StepIsFaithful(b1: Limits, b2: Limits, calls: seq<Call>, i: nat, t: Tiers, t': Tiers, delay: int)
    requires i < |calls| && 0 <= delay && Prompt(calls[i], delay)
    requires BothFaithful(calls, i, t, delay) && Step(b1, b2, t, calls[i], t')
    ensures BothFaithful(calls, i + 1, t', delay)
  {
    match calls[i]
    case Set(key, value, ttl, _, stored1, stored2) =>
      SetIsFaithful(b1, calls, i, t.l1, t'.l1, stored1, HOUR + 2 * delay, delay);
      SetIsFaithful(b2, calls, i, t.l2, t'.l2, stored2, delay, delay);
    case Get(key, checked1, used1, checked2, used2, promoted) =>
      GetIsFaithful(calls, i, t.l1, key, checked1, used1, HOUR + 2 * delay);
      GetIsFaithful(calls, i, t.l2, key, checked2, used2, delay);
      if Found(t.l1, key, checked1).None? && Found(t.l2, key, checked2).Some? {
        PromotionIsFaithful(b1, calls, i, GetStep(t.l1, key, checked1, used1), t.l2, t'.l1, delay);
      }
    case Delete(key) =>
      DeleteIsFaithful(calls, i, t.l1, HOUR + 2 * delay);
      DeleteIsFaithful(calls, i, t.l2, delay);
    case Clear =>
  }

  lemma RunSteps(b1: Limits, b2: Limits, calls: seq<Call>, states: seq<Tiers>, i: nat, delay: int)
    requires IsRun(b1, b2, calls, states) && AllPrompt(calls, delay) && i < |calls|
    ensures Step(b1, b2, states[i], calls[i], states[i + 1]) && Prompt(calls[i], delay)
  {
    assert StepAt(b1, b2, calls, states, i);
  }

  lemma NextIsFaithful(b1: Limits, b2: Limits, calls: seq<Call>, states: seq<Tiers>, i: nat, delay: int)
    requires IsRun(b1, b2, calls, states) && AllPrompt(calls, delay) && 0 <= delay && i < |calls|
    requires BothFaithful(calls, i, states[i], delay)
    ensures BothFaithful(calls, i + 1, states[i + 1], delay)
  {
    RunSteps(b1, b2, calls, states, i, delay);
    StepIsFaithful(b1, b2, calls, i, states[i], states[i + 1], delay);
  }

  lemma {:induction false} RunIsFaithful(b1: Limits, b2: Limits, calls: seq<Call>, states: seq<Tiers>, i: nat,
                                         delay: int)
    requires IsRun(b1, b2, calls, states) && AllPrompt(calls, delay) && 0 <= delay && i <= |calls|
    ensures BothFaithful(calls, i, states[i], delay)
  {
    if i > 0 {
      RunIsFaithful(b1, b2, calls, states, i - 1, delay);
      NextIsFaithful(b1, b2, calls, states, i - 1, delay);
    }
  }

  /** Coherence and lifetime: whatever either level evicts, a Get that succeeds
      returns the value of the last Set of the key, and one that had a time-to-live
      is never served later than one hour (and twice the delay) after it ran out. */
  lemma ServesLastSetInTime(b1: Limits, b2: Limits, calls: seq<Call>, states: seq<Tiers>, i: nat, delay: int)
    requires IsRun(b1, b2, calls, states) && AllPrompt(calls, delay) && 0 <= delay
    requires i < |calls| && calls[i].Get? && Served(states[i], calls[i]).Some?
    ensures var last := LastSet(calls, i, calls[i].key);
            && last.Some? && Served(states[i], calls[i]).value == last.value.value
            && (last.value.ttl > 0 ==>
                  var served := if Found(states[i].l1, calls[i].key, calls[i].checked1).Some?
                                then calls[i].checked1 else calls[i].checked2;
                  served <= last.value.start + last.value.ttl + HOUR + 2 * delay)
  {
    RunIsFaithful(b1, b2, calls, states, i, delay);
  }

  // ---------- what must be served ----------

  /** The second level holds what the Set stored there. */
  predicate HoldsSet(m: Entries, c: Call)
    requires c.Set?
  {
    && c.key in m && m[c.key].value == c.value
    && m[c.key].expiresAt == if c.ttl > 0 then Some(c.stored2 + c.ttl) else None
  }

  /** Some earlier Get saw the time-to-live of the Set run out. */
  ghost predicate SeenRunOut(calls: seq<Call>, i: nat, c: Call)
    requires i <= |calls| && c.Set?
  {
    c.ttl > 0 && exists j :: 0 <= j < i && calls[j].Get? && calls[j].checked2 > c.stored2 + c.ttl
  }

  ghost predicate KeptFor(calls: seq<Call>, i: nat, m: Entries, key: string)
    requires i <= |calls|
  {
    match LastSet(calls, i, key)
    case None => true
    case Some(c) => HoldsSet(m, c) || SeenRunOut(calls, i, c)
  }

  lemma SeenStays(calls: seq<Call>, i: nat, c: Call)
    requires i < |calls| && c.Set? && SeenRunOut(calls, i, c)
    ensures SeenRunOut(calls, i + 1, c)
  {
    var j :| 0 <= j < i && calls[j].Get? && calls[j].checked2 > c.stored2 + c.ttl;
    assert 0 <= j < i + 1;
  }

  lemma UnlimitedKeepsAll(limits: Limits, full: Entries, kept: Entries)
    requires limits.maxSize <= 0 && limits.maxItems <= 0 && IsCut(limits, full, kept)
    ensures kept == full
  {
    CutOfFittingIsAll(limits, full, kept);
  }

  lemma GetKeepsFor(calls: seq<Call>, i: nat, m: Cache, key: string)
    requires i < |calls| && calls[i].Get? && KeptFor(calls, i, m.entries, key)
    ensures KeptFor(calls, i + 1, GetStep(m, calls[i].key, calls[i].checked2, calls[i].used2).entries, key)
    ensures KeptFor(calls, i + 1, m.entries, key)
  {
    if LastSet(calls, i, key).Some? {
      var c := LastSet(calls, i, key).value;
      if SeenRunOut(calls, i, c) {
        SeenStays(calls, i, c);
      } else if calls[i].checked2 > c.stored2 + c.ttl && c.ttl > 0 {
        assert 0 <= i < i + 1 && calls[i].Get?;
      }
    }
  }

  lemma StepKeepsFor(b1: Limits, b2: Limits, calls: seq<Call>, i: nat, t: Tiers, t': Tiers, key: string)
    requires i < |calls| && b2.maxSize <= 0 && b2.maxItems <= 0
    requires Step(b1, b2, t, calls[i], t') && Cuts(b1, b2, t, calls[i], t') && KeptFor(calls, i, t.l2.entries, key)
    ensures KeptFor(calls, i + 1, t'.l2.entries, key)
  {
    if calls[i].Get? {
      GetKeepsFor(calls, i, t.l2, key);
    } else {
      if calls[i].Set? {
        UnlimitedKeepsAll(b2, t.l2.entries[calls[i].key := NewEntry(calls[i].value, calls[i].ttl, calls[i].stored2)],
                          t'.l2.entries);
      }
      if LastSet(calls, i, key).Some? && SeenRunOut(calls, i, LastSet(calls, i, key).value) {
        SeenStays(calls, i, LastSet(calls, i, key).value);
      }
    }
  }

  lemma NextKeepsFor(b1: Limits, b2: Limits, calls: seq<Call>, states: seq<Tiers>, i: nat, key: string)
    requires IsRun(b1, b2, calls, states) && i < |calls| && b2.maxSize <= 0 && b2.maxItems <= 0
    requires Cuts(b1, b2, states[i], calls[i], states[i + 1]) && KeptFor(calls, i, states[i].l2.entries, key)
    ensures KeptFor(calls, i + 1, states[i + 1].l2.entries, key)
  {
    assert StepAt(b1, b2, calls, states, i);
    StepKeepsFor(b1, b2, calls, i, states[i], states[i + 1], key);
  }

  lemma {:induction false} RunKeepsFor(
      b1: Limits, b2: Limits, calls: seq<Call>, states: seq<Tiers>, i: nat, key: string)
    requires IsRun(b1, b2, calls, states) && i <= |calls| && b2.maxSize <= 0 && b2.maxItems <= 0
    requires forall j :: 0 <= j < i ==> Cuts(b1, b2, states[j], calls[j], states[j + 1])
    ensures KeptFor(calls, i, states[i].l2.entries, key)
  {
    if i > 0 {
      RunKeepsFor(b1, b2, calls, states, i - 1, key);
      NextKeepsFor(b1, b2, calls, states, i - 1, key);
    }
  }

  /** Availability: behind a second level without limits, whatever the first level
      evicts, a Get succeeds while the last Set of the key stands and its time-to-live,
      counted from its store on the second level, has not run out by the readings so
      far; a Set without one stands until a Delete or a Clear. */
  lemma StandingSetIsServed(b1: Limits, b2: Limits, calls: seq<Call>, states: seq<Tiers>, i: nat)
    requires IsRun(b1, b2, calls, states) && i < |calls| && calls[i].Get? && b2.maxSize <= 0 && b2.maxItems <= 0
    requires forall j :: 0 <= j < i ==> Cuts(b1, b2, states[j], calls[j], states[j + 1])
    requires LastSet(calls, i, calls[i].key).Some?
    requires var last := LastSet(calls, i, calls[i].key).value;
             last.ttl > 0 ==> forall j :: 0 <= j <= i && calls[j].Get? ==> calls[j].checked2 <= last.stored2 + last.ttl
    ensures Served(states[i], calls[i]).Some?
  {
    RunKeepsFor(b1, b2, calls, states, i, calls[i].key);
  }

  // ---------- which runs serve late ----------

  /** The index of the call LastSet gives. */
  function LastSetAt(calls: seq<Call>, i: nat, key: string): (r: Option<nat>)
    requires i <= |calls|
    ensures r.Some? <==> LastSet(calls, i, key).Some?
    ensures r.Some? ==> r.value < i && LastSet(calls, i, key) == Some(calls[r.value])
  {
    if i == 0 then None
    else
      match calls[i - 1]
      case Set(k, _, _, _, _, _) => if k == key then Some(i - 1) else LastSetAt(calls, i - 1, key)
      case Get(_, _, _, _, _, _) => LastSetAt(calls, i - 1, key)
      case Delete(k) => if k == key then None else LastSetAt(calls, i - 1, key)
      case Clear => None
  }

  /** The call misses the first level, hits the second and copies the value. */
  predicate Promotes(t: Tiers, call: Call, key: string) {
    && call.Get? && call.key == key
    && Found(t.l1, key, call.checked1).None? && Found(t.l2, key, call.checked2).Some?
  }

  /** A promotion of the key followed its last Set. */
  ghost predicate PromotedSince(calls: seq<Call>, states: seq<Tiers>, i: nat, key: string)
    requires i <= |calls| && |states| == |calls| + 1
  {
    exists j :: 0 <= j < i && Promotes(states[j], calls[j], key)
             && LastSetAt(calls, i, key).Some? && LastSetAt(calls, i, key).value < j
  }

  /** Entries of the first level expire in time unless they were promoted. */
  ghost predicate TimelyUnlessPromoted(calls: seq<Call>, states: seq<Tiers>, i: nat, m: Entries, delay: int)
    requires i <= |calls| && |states| == |calls| + 1
  {
    forall k :: k in m ==>
      var last := LastSet(calls, i, k);
      last.Some? && last.value.ttl > 0 ==>
        || (m[k].expiresAt.Some? && m[k].expiresAt.value <= last.value.start + last.value.ttl + delay)
        || PromotedSince(calls, states, i, k)
  }

  lemma PromotedStays(calls: seq<Call>, states: seq<Tiers>, i: nat, key: string)
    requires i < |calls| && |states| == |calls| + 1 && PromotedSince(calls, states, i, key)
    requires LastSetAt(calls, i + 1, key) == LastSetAt(calls, i, key)
    ensures PromotedSince(calls, states, i + 1, key)
  {
    var j :| 0 <= j < i && Promotes(states[j], calls[j], key) && LastSetAt(calls, i, key).value < j;
    assert 0 <= j < i + 1;
  }

  lemma EntryStaysTimely(calls: seq<Call>, states: seq<Tiers>, i: nat, m: Entries, k: string, e: Entry, delay: int)
    requires i < |calls| && |states| == |calls| + 1 && TimelyUnlessPromoted(calls, states, i, m, delay)
    requires k in m && e.expiresAt == m[k].expiresAt
    requires LastSetAt(calls, i + 1, k) == LastSetAt(calls, i, k)
    ensures var last := LastSet(calls, i + 1, k);
            last.Some? && last.value.ttl > 0 ==>
              || (e.expiresAt.Some? && e.expiresAt.value <= last.value.start + last.value.ttl + delay)
              || PromotedSince(calls, states, i + 1, k)
  {
    if PromotedSince(calls, states, i, k) { PromotedStays(calls, states, i, k); }
  }

  lemma StepIsTimely(b1: Limits, b2: Limits, calls: seq<Call>, states: seq<Tiers>, i: nat, delay: int)
    requires IsRun(b1, b2, calls, states) && AllPrompt(calls, delay) && 0 <= delay && i < |calls|
    requires TimelyUnlessPromoted(calls, states, i, states[i].l1.entries, delay)
    ensures TimelyUnlessPromoted(calls, states, i + 1, states[i + 1].l1.entries, delay)
  {
    RunSteps(b1, b2, calls, states, i, delay);
    var m, m' := states[i].l1.entries, states[i + 1].l1.entries;
    forall k | k in m'
      ensures var last := LastSet(calls, i + 1, k);
              last.Some? && last.value.ttl > 0 ==>
                || (m'[k].expiresAt.Some? && m'[k].expiresAt.value <= last.value.start + last.value.ttl + delay)
                || PromotedSince(calls, states, i + 1, k)
    {
      if calls[i].Get? && Promotes(states[i], calls[i], calls[i].key) && k == calls[i].key {
        if LastSetAt(calls, i + 1, k).Some? {
          assert 0 <= i < i + 1 && Promotes(states[i], calls[i], k) && LastSetAt(calls, i + 1, k).value < i;
        }
      } else if !(calls[i].Set? && calls[i].key == k) {
        EntryStaysTimely(calls, states, i, m, k, m'[k], delay);
      }
    }
  }

  lemma {:induction false} RunIsTimely(b1: Limits, b2: Limits, calls: seq<Call>, states: seq<Tiers>, i: nat, delay: int)
    requires IsRun(b1, b2, calls, states) && AllPrompt(calls, delay) && 0 <= delay && i <= |calls|
    ensures TimelyUnlessPromoted(calls, states, i, states[i].l1.entries, delay)
  {
    if i > 0 {
      RunIsTimely(b1, b2, calls, states, i - 1, delay);
      StepIsTimely(b1, b2, calls, states, i - 1, delay);
    }
  }

  /** A value is served later than its time-to-live (and the delay of its Set) only
      from the first level, and only when a promotion of the key followed its last
      Set. */
  lemma LateOnlyAfterPromotion(b1: Limits, b2: Limits, calls: seq<Call>, states: seq<Tiers>, i: nat, delay: int)
    requires IsRun(b1, b2, calls, states) && AllPrompt(calls, delay) && 0 <= delay
    requires i < |calls| && calls[i].Get? && Served(states[i], calls[i]).Some?
    requires LastSet(calls, i, calls[i].key).Some? && LastSet(calls, i, calls[i].key).value.ttl > 0
    ensures var last := LastSet(calls, i, calls[i].key).value;
            var first := Found(states[i].l1, calls[i].key, calls[i].checked1).Some?;
            (if first then calls[i].checked1 else calls[i].checked2) > last.start + last.ttl + delay ==>
              first && PromotedSince(calls, states, i, calls[i].key)
  {
    RunIsTimely(b1, b2, calls, states, i, delay);
    RunIsFaithful(b1, b2, calls, states, i, delay);
  }

  // ---------- the bound is reached ----------

  /** One item fits the first level: storing a second, later one displaces it. */
  lemma SecondDisplacesFirst(first: string, second: string, a: Entry, b: Entry)
    requires first != second && a.accessedAt <= b.accessedAt
    ensures IsCut(Limits(0, 1), map[first := a][second := b], map[second := b])
  {
    var full, kept := map[first := a][second := b], map[second := b];
    assert kept[first := full[first]] == full;
    TotalSizeUpdate(kept, first, a);
    assert |kept| == 1;
    assert IsLastEvicted(Limits(0, 1), full, kept, first);
  }

  const ONE: Limits := Limits(0, 1)
  const ANY: Limits := Limits(0, 0)

  function LateCalls(value: Bytes, ttl: int): seq<Call> {
    [Set("a", value, ttl, 0, 0, 0), Set("b", value, 0, 1, 1, 1), Get("a", ttl, ttl, ttl, ttl, ttl),
     Get("a", ttl + HOUR, ttl + HOUR, ttl + HOUR, ttl + HOUR, ttl + HOUR)]
  }

  ghost function First(value: Bytes, ttl: int): Tiers {
    var a := NewEntry(value, ttl, 0);
    Tiers(Stored(Empty(ONE), "a", a, map["a" := a]), Stored(Empty(ANY), "a", a, map["a" := a]))
  }

  ghost function Second(value: Bytes, ttl: int): Tiers {
    var a, b := NewEntry(value, ttl, 0), NewEntry(value, 0, 1);
    var before := First(value, ttl);
    Tiers(Stored(before.l1, "b", b, map["b" := b]), Stored(before.l2, "b", b, map["a" := a]["b" := b]))
  }

  ghost function Third(value: Bytes, ttl: int): Tiers {
    var a := NewEntry(value, HOUR, ttl);
    var before := Second(value, ttl);
    Tiers(Stored(GetStep(before.l1, "a", ttl, ttl), "a", a, map["a" := a]), GetStep(before.l2, "a", ttl, ttl))
  }

  ghost predicate LruStep(b1: Limits, b2: Limits, t: Tiers, call: Call, t': Tiers) {
    Step(b1, b2, t, call, t') && Cuts(b1, b2, t, call, t')
  }

  lemma FirstStep(value: Bytes, ttl: int)
    ensures LruStep(ONE, ANY, Tiers(Empty(ONE), Empty(ANY)), LateCalls(value, ttl)[0], First(value, ttl))
  {
    var a := NewEntry(value, ttl, 0);
    NothingEvicted(ONE, map["a" := a]);
    NothingEvicted(ANY, map["a" := a]);
  }

  lemma SecondStep(value: Bytes, ttl: int)
    ensures LruStep(ONE, ANY, First(value, ttl), LateCalls(value, ttl)[1], Second(value, ttl))
  {
    var a, b := NewEntry(value, ttl, 0), NewEntry(value, 0, 1);
    SecondDisplacesFirst("a", "b", a, b);
    NothingEvicted(ANY, map["a" := a]["b" := b]);
  }

  lemma ThirdStep(value: Bytes, ttl: int)
    requires ttl > 0
    ensures LruStep(ONE, ANY, Second(value, ttl), LateCalls(value, ttl)[2], Third(value, ttl))
  {
    var b, a := NewEntry(value, 0, 1), NewEntry(value, HOUR, ttl);
    SecondDisplacesFirst("b", "a", b, a);
  }

  ghost function Fourth(value: Bytes, ttl: int): Tiers {
    var before := Third(value, ttl);
    Tiers(GetStep(before.l1, "a", ttl + HOUR, ttl + HOUR), before.l2)
  }

  lemma FourthStep(value: Bytes, ttl: int)
    requires ttl > 0
    ensures LruStep(ONE, ANY, Third(value, ttl), LateCalls(value, ttl)[3], Fourth(value, ttl))
    ensures Served(Third(value, ttl), LateCalls(value, ttl)[3]) == Some(value)
  {
  }

  ghost function LateState(value: Bytes, ttl: int, i: nat): Tiers {
    if i == 0 then Tiers(Empty(ONE), Empty(ANY))
    else if i == 1 then First(value, ttl)
    else if i == 2 then Second(value, ttl)
    else if i == 3 then Third(value, ttl)
    else Fourth(value, ttl)
  }

  lemma LateStep(value: Bytes, ttl: int, i: nat)
    requires ttl > 0 && i < 4
    ensures LruStep(ONE, ANY, LateState(value, ttl, i), LateCalls(value, ttl)[i], LateState(value, ttl, i + 1))
  {
    if i == 0 {
      FirstStep(value, ttl);
    } else if i == 1 {
      SecondStep(value, ttl);
    } else if i == 2 {
      ThirdStep(value, ttl);
    } else {
      FourthStep(value, ttl);
    }
  }

  lemma LastSetOfLateCalls(value: Bytes, ttl: int)
    ensures LastSet(LateCalls(value, ttl), 3, "a") == Some(LateCalls(value, ttl)[0])
  {
    var calls := LateCalls(value, ttl);
    assert LastSet(calls, 1, "a") == Some(calls[0]);
    assert LastSet(calls, 2, "a") == Some(calls[0]);
  }

  /** A value set with some time-to-live at time 0, evicted from the first level and
      promoted at the last moment, is served one hour after it ran out. */
  lemma LateHourIsReached(value: Bytes, ttl: int) returns (states: seq<Tiers>)
    requires ttl > 0
    ensures var calls := LateCalls(value, ttl);
            && IsRun(ONE, ANY, calls, states)
            && (forall i :: 0 <= i < |calls| ==> Cuts(ONE, ANY, states[i], calls[i], states[i + 1]))
            && LastSet(calls, 3, "a") == Some(calls[0])
            && Served(states[3], calls[3]) == Some(value)
    ensures AllPrompt(LateCalls(value, ttl), 0)
    ensures LateCalls(value, ttl)[0].start == 0 && LateCalls(value, ttl)[0].ttl == ttl
    ensures LateCalls(value, ttl)[3].checked1 == 0 + ttl + HOUR
  {
    var calls := LateCalls(value, ttl);
    states := seq(5, i requires 0 <= i < 5 => LateState(value, ttl, i));
    forall i | 0 <= i < 4
      ensures StepAt(ONE, ANY, calls, states, i) && Cuts(ONE, ANY, states[i], calls[i], states[i + 1])
    {
      LateStep(value, ttl, i);
    }
    FourthStep(value, ttl);
    LastSetOfLateCalls(value, ttl);
  }

  // ---------- the object ----------

  class TieredCache {
    const l1: M.MemoryCache
    const l2: M.MemoryCache

    ghost predicate Valid()
      reads this, l1, l2
    {
      l1 != l2 && l1.Valid() && l2.Valid()
    }

    ghost function View(): Tiers
      reads this, l1, l2
    {
      Tiers(l1.View(), l2.View())
    }

    constructor (l1: M.MemoryCache, l2: M.MemoryCache)
      requires l1 != l2 && l1.Valid() && l2.Valid()
      ensures Valid() && this.l1 == l1 && this.l2 == l2
    {
      this.l1, this.l2 := l1, l2;
    }

    /** `orders` are those of the eviction scans of the promotion, if there is one. */
    method Get(key: string, checked1: int, used1: int, checked2: int, used2: int, promoted: int,
               orders: seq<seq<string>>)
      returns (r: Result<Bytes, M.CacheError>)
      requires Valid()
      requires Found(l1.View(), key, checked1).None? ==>
                 match Found(l2.View(), key, checked2)
                 case Some(value) =>
                   Ends(l1.Bounds(), GetStep(l1.View(), key, checked1, used1).entries[
                          key := NewEntry(value, HOUR, promoted)], orders)
                 case None => true
      modifies l1, l2
      ensures Valid()
      ensures match Served(old(View()), Call.Get(key, checked1, used1, checked2, used2, promoted))
              case Some(value) => r == Success(value)
              case None => r == Failure(if key in old(l2.entries) then M.KeyExpired else M.KeyNotFound)
      ensures Step(l1.Bounds(), l2.Bounds(), old(View()), Call.Get(key, checked1, used1, checked2, used2, promoted),
                   View())
      ensures Found(old(l1.View()), key, checked1).None? ==>
                match Found(old(l2.View()), key, checked2)
                case Some(value) =>
                  l1.View() == AfterSet(l1.Bounds(), GetStep(old(l1.View()), key, checked1, used1), key,
                                        NewEntry(value, HOUR, promoted), orders)
                case None => true
    {
      r := l1.Get(key, checked1, used1);
      if r.Success? {
        return;
      }
      r := l2.Get(key, checked2, used2);
      if r.Success? {
        AfterSetStores(l1.Bounds(), l1.View(), key, NewEntry(r.value, HOUR, promoted), orders);
        l1.Set(key, r.value, HOUR, promoted, orders);
      }
    }

    /** `orders1` and `orders2` are those of the eviction scans of each level. */
    method Set(key: string, value: Bytes, ttl: int, ghost start: int, stored1: int, stored2: int,
               orders1: seq<seq<string>>, orders2: seq<seq<string>>)
      requires Valid() && Ends(l1.Bounds(), l1.entries[key := NewEntry(value, ttl, stored1)], orders1)
      requires Ends(l2.Bounds(), l2.entries[key := NewEntry(value, ttl, stored2)], orders2)
      modifies l1, l2
      ensures Valid()
      ensures Step(l1.Bounds(), l2.Bounds(), old(View()), Call.Set(key, value, ttl, start, stored1, stored2), View())
      ensures l1.View() == AfterSet(l1.Bounds(), old(l1.View()), key, NewEntry(value, ttl, stored1), orders1)
      ensures l2.View() == AfterSet(l2.Bounds(), old(l2.View()), key, NewEntry(value, ttl, stored2), orders2)
    {
      AfterSetStores(l1.Bounds(), l1.View(), key, NewEntry(value, ttl, stored1), orders1);
      AfterSetStores(l2.Bounds(), l2.View(), key, NewEntry(value, ttl, stored2), orders2);
      l1.Set(key, value, ttl, stored1, orders1);
      l2.Set(key, value, ttl, stored2, orders2);
    }

    method Delete(key: string)
      requires Valid()
      modifies l1, l2
      ensures Valid() && Step(l1.Bounds(), l2.Bounds(), old(View()), Call.Delete(key), View())
    {
      l1.Delete(key);
      l2.Delete(key);
    }

    method Clear()
      requires Valid()
      modifies l1, l2
      ensures Valid() && Step(l1.Bounds(), l2.Bounds(), old(View()), Call.Clear, View())
    {
      l1.Clear();
      l2.Clear();
    }
  }
}
