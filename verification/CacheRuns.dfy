/** Whole runs of the cache: runs whose evictions are cuts under two pairs of limits,
    and the counters under interleaved calls. */
module CacheRuns {
  import opened Wrappers
  import opened Decimal
  import opened CacheSpec

  // ---------- uninterrupted calls ----------

  datatype Event =
    | Set(key: string, value: Bytes, ttl: int, now: int)
    | Get(key: string, checked: int, now: int)
    | Delete(key: string)
    | Clear

  /** A step whose eviction, if it is a Set, leaves a cut. */
  ghost predicate LruStep(limits: Limits, c: Cache, e: Event, c': Cache) {
    match e
    case Set(key, value, ttl, now) => SetStep(limits, c, key, NewEntry(value, ttl, now), c')
    case Get(key, checked, now) => c' == GetStep(c, key, checked, now)
    case Delete(key) => c' == DeleteStep(c, key)
    case Clear => c' == ClearStep(c)
  }

  ghost predicate IsLruRun(limits: Limits, events: seq<Event>, states: seq<Cache>) {
    && |states| == |events| + 1
    && states[0] == Empty(limits)
    && forall i :: 0 <= i < |events| ==> LruStepAt(limits, events, states, i)
  }

  ghost predicate LruStepAt(limits: Limits, events: seq<Event>, states: seq<Cache>, i: nat)
    requires i < |events| && |states| == |events| + 1
  {
    LruStep(limits, states[i], events[i], states[i + 1])
  }

  predicate ReadsClock(e: Event) {
    e.Set? || e.Get?
  }

  /** Accesses are stamped with strictly increasing times. */
  ghost predicate Ticking(events: seq<Event>) {
    forall i, j :: 0 <= i < j < |events| && ReadsClock(events[i]) && ReadsClock(events[j]) ==>
                     events[i].now < events[j].now
  }

  // ---------- inclusion ----------

  /** `more` allows at least as many items as `less`. */
  predicate AllowsMore(less: Limits, more: Limits) {
    more.maxItems <= 0 || 0 < less.maxItems <= more.maxItems
  }

  predicate ItemsFit(limits: Limits, count: nat) {
    limits.maxItems <= 0 || count <= limits.maxItems
  }

  ghost predicate Included(less: Limits, more: Limits, small: Entries, large: Entries) {
    && Within(small, large)
    && CountsClose(less, more, |small|, |large|)
  }

  predicate CountsClose(less: Limits, more: Limits, small: nat, large: nat) {
    && ItemsFit(less, small) && ItemsFit(more, large)
    && (more.maxItems > 0 ==> large - small <= more.maxItems - less.maxItems)
  }

  ghost predicate IsOldest(m: Entries, oldest: string) {
    oldest in m && forall k :: k in m ==> m[oldest].accessedAt <= m[k].accessedAt
  }

  /** With no byte limit and at most one item too many, eviction takes nothing or
      the oldest entry. */
  lemma CutByItems(limits: Limits, full: Entries, kept: Entries) returns (oldest: string)
    requires limits.maxSize <= 0 && IsCut(limits, full, kept)
    requires limits.maxItems > 0 ==> |full| <= limits.maxItems + 1
    ensures ItemsFit(limits, |full|) ==> kept == full
    ensures !ItemsFit(limits, |full|) ==>
              |kept| == limits.maxItems && IsOldest(full, oldest) && kept == full - {oldest}
  {
    oldest := "";
    WithinIsSmaller(kept, full);
    if kept != full {
      var last :| IsLastEvicted(limits, full, kept, last);
      LastEvictedCounts(limits, full, kept, last);
      if !ItemsFit(limits, |full|) {
        oldest := last;
      }
    }
  }

  lemma LastEvictedCounts(limits: Limits, full: Entries, kept: Entries, last: string)
    requires limits.maxSize <= 0 && IsCut(limits, full, kept) && IsLastEvicted(limits, full, kept, last)
    ensures 0 < limits.maxItems <= |kept| < |full|
    ensures |kept| + 1 == |full| ==> kept == full - {last} && IsOldest(full, last)
  {
    var back := kept[last := full[last]];
    TotalSizeUpdate(kept, last, full[last]);
    WithinIsSmaller(back, full);
    if |back| == |full| {
      assert back == full;
      assert kept == back - {last};
    }
  }

  lemma CountWith(m: Entries, key: string, e: Entry)
    ensures |m[key := e]| == if key in m then |m| else |m| + 1
  {
  }

  lemma CountWithout(m: Entries, key: string)
    ensures |m - {key}| == if key in m then |m| - 1 else |m|
  {
  }

  lemma SameVictim(small: Entries, large: Entries, s: string, l: string)
    requires Within(small, large) && DistinctTimes(large) && IsOldest(small, s) && IsOldest(large, l)
    ensures Within(small - {s}, large - {l})
  {
  }

  lemma CutsKeepInclusion(less: Limits, more: Limits, fullS: Entries, fullL: Entries,
                          small': Entries, large': Entries)
    requires less.maxSize <= 0 && more.maxSize <= 0 && AllowsMore(less, more)
    requires Within(fullS, fullL) && DistinctTimes(fullL)
    requires less.maxItems > 0 ==> |fullS| <= less.maxItems + 1
    requires more.maxItems > 0 ==> |fullL| <= more.maxItems + 1
    requires more.maxItems > 0 ==> |fullL| - |fullS| <= more.maxItems - less.maxItems
    requires IsCut(less, fullS, small') && IsCut(more, fullL, large')
    ensures Included(less, more, small', large')
  {
    var s := CutByItems(less, fullS, small');
    var l := CutByItems(more, fullL, large');
    if !ItemsFit(more, |fullL|) {
      SameVictim(fullS, fullL, s, l);
    }
  }

  lemma InsertKeepsDistinct(m: Entries, key: string, e: Entry)
    requires DistinctTimes(m) && UsedBefore(m, e.accessedAt)
    ensures DistinctTimes(m[key := e])
  {
  }

  lemma InsertKeepsWithin(small: Entries, large: Entries, key: string, e: Entry)
    requires Within(small, large)
    ensures Within(small[key := e], large[key := e])
  {
  }

  lemma InsertCounts(less: Limits, more: Limits, small: Entries, large: Entries, key: string, e: Entry)
    requires AllowsMore(less, more) && Included(less, more, small, large)
    ensures less.maxItems > 0 ==> |small[key := e]| <= less.maxItems + 1
    ensures more.maxItems > 0 ==> |large[key := e]| <= more.maxItems + 1
    ensures more.maxItems > 0 ==> |large[key := e]| - |small[key := e]| <= more.maxItems - less.maxItems
  {
  }

  lemma SetKeepsInclusion(less: Limits, more: Limits, small: Entries, large: Entries, key: string, e: Entry,
                          small': Entries, large': Entries)
    requires less.maxSize <= 0 && more.maxSize <= 0 && AllowsMore(less, more)
    requires Included(less, more, small, large)
    requires DistinctTimes(large) && UsedBefore(large, e.accessedAt)
    requires IsCut(less, small[key := e], small') && IsCut(more, large[key := e], large')
    ensures Included(less, more, small', large')
  {
    InsertCounts(less, more, small, large, key, e);
    InsertKeepsWithin(small, large, key, e);
    InsertKeepsDistinct(large, key, e);
    CutsKeepInclusion(less, more, small[key := e], large[key := e], small', large');
  }

  lemma TouchKeepsInclusion(less: Limits, more: Limits, small: Entries, large: Entries, key: string, now: int)
    requires Included(less, more, small, large) && key in large
    ensures var large' := large[key := large[key].(accessedAt := now)];
            if key in small then Included(less, more, small[key := small[key].(accessedAt := now)], large')
            else Included(less, more, small, large')
  {
  }

  lemma DeleteKeepsInclusion(less: Limits, more: Limits, small: Entries, large: Entries, key: string)
    requires AllowsMore(less, more) && Included(less, more, small, large)
    ensures Included(less, more, small - {key}, large - {key})
  {
  }

  /** Access times are distinct and were read by earlier events. */
  ghost predicate Stamped(events: seq<Event>, i: nat, m: Entries)
    requires i <= |events|
  {
    && DistinctTimes(m)
    && forall k :: k in m ==> exists j :: 0 <= j < i && ReadsClock(events[j]) && events[j].now == m[k].accessedAt
  }

  lemma StampedBefore(events: seq<Event>, i: nat, m: Entries)
    requires i < |events| && Ticking(events) && Stamped(events, i, m) && ReadsClock(events[i])
    ensures UsedBefore(m, events[i].now)
  {
  }

  lemma WithinKeepsStamps(events: seq<Event>, i: nat, m: Entries, sub: Entries)
    requires i <= |events| && Stamped(events, i, m) && Within(sub, m)
    ensures Stamped(events, i, sub)
  {
  }

  lemma LaterKeepsStamps(events: seq<Event>, i: nat, m: Entries)
    requires i < |events| && Stamped(events, i, m)
    ensures Stamped(events, i + 1, m)
  {
  }

  lemma InsertKeepsStamps(events: seq<Event>, i: nat, m: Entries, key: string, e: Entry)
    requires i < |events| && Ticking(events) && Stamped(events, i, m)
    requires ReadsClock(events[i]) && e.accessedAt == events[i].now
    ensures Stamped(events, i + 1, m[key := e])
  {
  }

  lemma StepKeepsStamps(limits: Limits, events: seq<Event>, i: nat, c: Cache, c': Cache)
    requires i < |events| && Ticking(events) && Stamped(events, i, c.entries)
    requires LruStep(limits, c, events[i], c')
    ensures Stamped(events, i + 1, c'.entries)
  {
    var m := c.entries;
    match events[i]
    case Set(key, value, ttl, now) =>
      var e := NewEntry(value, ttl, now);
      InsertKeepsStamps(events, i, m, key, e);
      WithinKeepsStamps(events, i + 1, m[key := e], c'.entries);
    case Get(key, checked, now) =>
      if key in m && !m[key].Expired(checked) {
        InsertKeepsStamps(events, i, m, key, m[key].(accessedAt := now));
      } else {
        WithinKeepsStamps(events, i, m, c'.entries);
        LaterKeepsStamps(events, i, c'.entries);
      }
    case Delete(key) =>
      WithinKeepsStamps(events, i, m, c'.entries);
      LaterKeepsStamps(events, i, c'.entries);
    case Clear =>
  }

  lemma GetKeepsInclusion(less: Limits, more: Limits, small: Cache, large: Cache,
                          key: string, checked: int, now: int)
    requires AllowsMore(less, more) && Included(less, more, small.entries, large.entries)
    ensures Included(less, more, GetStep(small, key, checked, now).entries, GetStep(large, key, checked, now).entries)
    ensures small.stats.hits <= large.stats.hits ==>
              GetStep(small, key, checked, now).stats.hits <= GetStep(large, key, checked, now).stats.hits
  {
    if key in large.entries {
      if large.entries[key].Expired(checked) {
        DeleteKeepsInclusion(less, more, small.entries, large.entries, key);
        assert key !in small.entries ==> small.entries - {key} == small.entries;
      } else {
        TouchKeepsInclusion(less, more, small.entries, large.entries, key, now);
      }
    }
  }

  lemma StepKeepsInclusion(less: Limits, more: Limits, e: Event, small: Cache, large: Cache,
                           small': Cache, large': Cache)
    requires less.maxSize <= 0 && more.maxSize <= 0 && AllowsMore(less, more)
    requires Included(less, more, small.entries, large.entries) && small.stats.hits <= large.stats.hits
    requires DistinctTimes(large.entries) && (ReadsClock(e) ==> UsedBefore(large.entries, e.now))
    requires LruStep(less, small, e, small') && LruStep(more, large, e, large')
    ensures Included(less, more, small'.entries, large'.entries) && small'.stats.hits <= large'.stats.hits
  {
    match e
    case Set(key, value, ttl, now) =>
      SetKeepsInclusion(less, more, small.entries, large.entries, key, NewEntry(value, ttl, now),
                        small'.entries, large'.entries);
    case Get(key, checked, now) =>
      GetKeepsInclusion(less, more, small, large, key, checked, now);
    case Delete(key) =>
      DeleteKeepsInclusion(less, more, small.entries, large.entries, key);
    case Clear =>
  }

  /** What the two runs have in common after `i` events. */
  ghost predicate Tracks(less: Limits, more: Limits, events: seq<Event>, i: nat, small: Cache, large: Cache)
    requires i <= |events|
  {
    && Included(less, more, small.entries, large.entries)
    && small.stats.hits <= large.stats.hits
    && Stamped(events, i, large.entries)
  }

  lemma TracksStep(less: Limits, more: Limits, events: seq<Event>, i: nat, small: Cache, large: Cache,
                   small': Cache, large': Cache)
    requires less.maxSize <= 0 && more.maxSize <= 0 && AllowsMore(less, more)
    requires i < |events| && Ticking(events) && Tracks(less, more, events, i, small, large)
    requires LruStep(less, small, events[i], small') && LruStep(more, large, events[i], large')
    ensures Tracks(less, more, events, i + 1, small', large')
  {
    if ReadsClock(events[i]) {
      StampedBefore(events, i, large.entries);
    }
    StepKeepsInclusion(less, more, events[i], small, large, small', large');
    StepKeepsStamps(more, events, i, large, large');
  }

  lemma {:induction false} RunsTrack(less: Limits, more: Limits, events: seq<Event>,
                                     small: seq<Cache>, large: seq<Cache>, i: nat)
    requires less.maxSize <= 0 && more.maxSize <= 0 && AllowsMore(less, more)
    requires IsLruRun(less, events, small) && IsLruRun(more, events, large) && Ticking(events)
    requires i <= |events|
    ensures Tracks(less, more, events, i, small[i], large[i])
  {
    if i == 0 {
      TracksStart(less, more, events);
    } else {
      RunsTrack(less, more, events, small, large, i - 1);
      LruRunSteps(less, events, small, i - 1);
      LruRunSteps(more, events, large, i - 1);
      TracksStep(less, more, events, i - 1, small[i - 1], large[i - 1], small[i], large[i]);
    }
  }

  lemma TracksStart(less: Limits, more: Limits, events: seq<Event>)
    requires AllowsMore(less, more)
    ensures Tracks(less, more, events, 0, Empty(less), Empty(more))
  {
  }

  lemma LruRunSteps(limits: Limits, events: seq<Event>, states: seq<Cache>, i: nat)
    requires IsLruRun(limits, events, states) && i < |events|
    ensures LruStep(limits, states[i], events[i], states[i + 1])
  {
    assert LruStepAt(limits, events, states, i);
  }

  /** Inclusion: of two caches without byte limit fed the same calls, the one
      allowed more items always holds everything the other holds, with the same
      values and access times, and has had at least as many hits. */
  lemma LruRunsInclude(less: Limits, more: Limits, events: seq<Event>,
                           small: seq<Cache>, large: seq<Cache>, i: nat)
    requires less.maxSize <= 0 && more.maxSize <= 0 && AllowsMore(less, more)
    requires IsLruRun(less, events, small) && IsLruRun(more, events, large) && Ticking(events)
    requires i <= |events|
    ensures Within(small[i].entries, large[i].entries)
    ensures small[i].stats.hits <= large[i].stats.hits
  {
    RunsTrack(less, more, events, small, large, i);
  }

  // ---------- inclusion with a byte limit ----------

  lemma NothingBetweenCuts(limits: Limits, full: Entries, a: Entries, b: Entries, x: string)
    requires DistinctTimes(full) && IsCut(limits, full, a) && IsCut(limits, full, b)
    ensures x in a ==> x in b
  {
    if x in a && x !in b {
      var last :| IsLastEvicted(limits, full, b, last);
      LastBelongsAbove(limits, full, a, b, x, last);
      WithinIsSmaller(b[last := full[last]], a);
    }
  }

  /** If `a` keeps something `b` evicted, it keeps all of `b` and the last entry `b`
      evicted. */
  lemma LastBelongsAbove(limits: Limits, full: Entries, a: Entries, b: Entries, x: string, last: string)
    requires DistinctTimes(full) && IsCut(limits, full, a) && IsCut(limits, full, b)
    requires x in a && x !in b && IsLastEvicted(limits, full, b, last)
    ensures Within(b[last := full[last]], a)
  {
    assert full[x].accessedAt <= full[last].accessedAt;
    forall k | k in b ensures k in a {
      assert full[x].accessedAt <= full[k].accessedAt;
    }
  }

  /** Two cuts of the same entries agree when no two were used at the same time. */
  lemma CutIsUnique(limits: Limits, full: Entries, a: Entries, b: Entries)
    requires DistinctTimes(full) && IsCut(limits, full, a) && IsCut(limits, full, b)
    ensures a == b
  {
    forall x ensures x in a <==> x in b {
      NothingBetweenCuts(limits, full, a, b, x);
      NothingBetweenCuts(limits, full, b, a, x);
    }
  }

  predicate SameItems(less: Limits, more: Limits) {
    less.maxItems == more.maxItems || (less.maxItems <= 0 && more.maxItems <= 0)
  }

  /** With one item allowed, what stays is the new entry or nothing; and if it fits
      on its own it stays in the larger cache too. */
  lemma OneItemSet(less: Limits, more: Limits, small: Entries, large: Entries, key: string, e: Entry,
                   small': Entries, large': Entries)
    requires less.maxItems == 1 && less.maxSize == more.maxSize && AllowsMore(less, more)
    requires Within(small, large) && UsedBefore(large, e.accessedAt)
    requires IsCut(less, small[key := e], small') && IsCut(more, large[key := e], large')
    ensures Within(small', large')
  {
    OnlyNewestFits(less, small, key, e, small');
    if key in small' {
      WithinIsSmaller(map[key := e], small');
      TotalSizeUpdate(map[], key, e);
      var c := Empty(more).(entries := large);
      SetValueStaysIffItFits(more, c, key, e, Stored(c, key, e, large'));
    }
  }

  lemma OnlyNewestFits(limits: Limits, m: Entries, key: string, e: Entry, kept: Entries)
    requires limits.maxItems == 1 && UsedBefore(m, e.accessedAt) && IsCut(limits, m[key := e], kept)
    ensures forall k :: k in kept ==> k == key
  {
    forall k | k in kept ensures k == key {
      if k != key {
        assert key in kept;
        RemoveKey(kept, k);
        RemoveKey(kept - {k}, key);
      }
    }
  }

  lemma GetKeepsWithin(small: Cache, large: Cache, key: string, checked: int, now: int)
    requires Within(small.entries, large.entries)
    ensures Within(GetStep(small, key, checked, now).entries, GetStep(large, key, checked, now).entries)
  {
  }

  /** So does every other step, whatever the limits. */
  lemma OtherStepKeepsWithin(less: Limits, more: Limits, e: Event, small: Cache, large: Cache,
                             small': Cache, large': Cache)
    requires !e.Set? && Within(small.entries, large.entries)
    requires LruStep(less, small, e, small') && LruStep(more, large, e, large')
    ensures Within(small'.entries, large'.entries)
  {
    if e.Get? {
      GetKeepsWithin(small, large, e.key, e.checked, e.now);
    }
  }

  lemma StepKeepsWithin(less: Limits, more: Limits, e: Event, small: Cache, large: Cache,
                        small': Cache, large': Cache)
    requires less.maxItems == 1 && less.maxSize == more.maxSize && AllowsMore(less, more)
    requires Within(small.entries, large.entries) && (ReadsClock(e) ==> UsedBefore(large.entries, e.now))
    requires LruStep(less, small, e, small') && LruStep(more, large, e, large')
    ensures Within(small'.entries, large'.entries)
  {
    if e.Set? {
      OneItemSet(less, more, small.entries, large.entries, e.key, NewEntry(e.value, e.ttl, e.now),
                 small'.entries, large'.entries);
    } else {
      OtherStepKeepsWithin(less, more, e, small, large, small', large');
    }
  }

  lemma OneItemNext(less: Limits, more: Limits, events: seq<Event>, i: nat, small: Cache, large: Cache,
                    small': Cache, large': Cache)
    requires less.maxItems == 1 && less.maxSize == more.maxSize && AllowsMore(less, more)
    requires i < |events| && Ticking(events)
    requires Within(small.entries, large.entries) && Stamped(events, i, large.entries)
    requires LruStep(less, small, events[i], small') && LruStep(more, large, events[i], large')
    ensures Within(small'.entries, large'.entries) && Stamped(events, i + 1, large'.entries)
  {
    if ReadsClock(events[i]) { StampedBefore(events, i, large.entries); }
    StepKeepsWithin(less, more, events[i], small, large, small', large');
    StepKeepsStamps(more, events, i, large, large');
  }

  lemma {:induction false} OneItemRuns(less: Limits, more: Limits, events: seq<Event>,
                                       small: seq<Cache>, large: seq<Cache>, i: nat)
    requires less.maxItems == 1 && less.maxSize == more.maxSize && AllowsMore(less, more)
    requires IsLruRun(less, events, small) && IsLruRun(more, events, large) && Ticking(events) && i <= |events|
    ensures Within(small[i].entries, large[i].entries) && Stamped(events, i, large[i].entries)
  {
    if i > 0 {
      OneItemRuns(less, more, events, small, large, i - 1);
      LruRunSteps(less, events, small, i - 1);
      LruRunSteps(more, events, large, i - 1);
      OneItemNext(less, more, events, i - 1, small[i - 1], large[i - 1], small[i], large[i]);
    }
  }

  lemma SameLimitsStep(less: Limits, more: Limits, e: Event, a: Cache, b: Cache, a': Cache, b': Cache)
    requires less.maxSize == more.maxSize && SameItems(less, more)
    requires a.entries == b.entries && DistinctTimes(a.entries) && (ReadsClock(e) ==> UsedBefore(a.entries, e.now))
    requires LruStep(less, a, e, a') && LruStep(more, b, e, b')
    ensures a'.entries == b'.entries
  {
    if e.Set? {
      var entry := NewEntry(e.value, e.ttl, e.now);
      var full := a.entries[e.key := entry];
      InsertKeepsDistinct(a.entries, e.key, entry);
      assert forall m: Entries :: Fits(less, m) <==> Fits(more, m);
      assert IsCut(less, full, b'.entries) by {
        if last :| IsLastEvicted(more, full, b'.entries, last) {
          assert IsLastEvicted(less, full, b'.entries, last);
        }
      }
      CutIsUnique(less, full, a'.entries, b'.entries);
    }
  }

  lemma SameLimitsNext(less: Limits, more: Limits, events: seq<Event>, i: nat, a: Cache, b: Cache,
                       a': Cache, b': Cache)
    requires less.maxSize == more.maxSize && SameItems(less, more) && i < |events| && Ticking(events)
    requires a.entries == b.entries && Stamped(events, i, a.entries)
    requires LruStep(less, a, events[i], a') && LruStep(more, b, events[i], b')
    ensures a'.entries == b'.entries && Stamped(events, i + 1, a'.entries)
  {
    if ReadsClock(events[i]) { StampedBefore(events, i, a.entries); }
    SameLimitsStep(less, more, events[i], a, b, a', b');
    StepKeepsStamps(less, events, i, a, a');
  }

  lemma {:induction false} SameLimitsRuns(less: Limits, more: Limits, events: seq<Event>,
                                          a: seq<Cache>, b: seq<Cache>, i: nat)
    requires less.maxSize == more.maxSize && SameItems(less, more)
    requires IsLruRun(less, events, a) && IsLruRun(more, events, b) && Ticking(events) && i <= |events|
    ensures a[i].entries == b[i].entries && Stamped(events, i, a[i].entries)
  {
    if i > 0 {
      SameLimitsRuns(less, more, events, a, b, i - 1);
      LruRunSteps(less, events, a, i - 1);
      LruRunSteps(more, events, b, i - 1);
      SameLimitsNext(less, more, events, i - 1, a[i - 1], b[i - 1], a[i], b[i]);
    }
  }

  // ---------- every run exists ----------

  lemma {:induction false} OldestExists(m: Entries) returns (oldest: string)
    requires m != map[]
    ensures IsOldest(m, oldest)
    decreases |m|
  {
    var k :| k in m;
    var rest := m - {k};
    RemoveKey(m, k);
    if rest == map[] {
      oldest := k;
    } else {
      var r := OldestExists(rest);
      oldest := if m[k].accessedAt <= m[r].accessedAt then k else r;
    }
    assert forall j :: j in m ==> j == k || j in rest;
  }

  lemma {:induction false} CutExists(limits: Limits, full: Entries, sofar: Entries) returns (kept: Entries)
    requires IsPartialCut(limits, full, sofar)
    ensures IsCut(limits, full, kept)
    decreases |sofar|
  {
    if Fits(limits, sofar) {
      kept := sofar;
    } else {
      var oldest := OldestExists(sofar);
      RemoveKey(sofar, oldest);
      EvictOneMore(limits, full, sofar, oldest);
      kept := CutExists(limits, full, sofar - {oldest});
    }
  }

  lemma LruStepExists(limits: Limits, c: Cache, e: Event) returns (c': Cache)
    ensures LruStep(limits, c, e, c')
  {
    match e
    case Set(key, value, ttl, now) =>
      var full := c.entries[key := NewEntry(value, ttl, now)];
      var kept := CutExists(limits, full, full);
      c' := Stored(c, key, NewEntry(value, ttl, now), kept);
    case Get(key, checked, now) => c' := GetStep(c, key, checked, now);
    case Delete(key) => c' := DeleteStep(c, key);
    case Clear => c' := ClearStep(c);
  }

  lemma LruRunGrows(limits: Limits, events: seq<Event>, states: seq<Cache>, e: Event, c: Cache)
    requires IsLruRun(limits, events, states) && LruStep(limits, states[|events|], e, c)
    ensures IsLruRun(limits, events + [e], states + [c])
  {
    forall i | 0 <= i < |events| + 1 ensures LruStepAt(limits, events + [e], states + [c], i) {
      if i < |events| { assert LruStepAt(limits, events, states, i); }
    }
  }

  lemma {:induction false} LruRunExists(limits: Limits, events: seq<Event>) returns (states: seq<Cache>)
    ensures IsLruRun(limits, events, states)
  {
    if events == [] {
      states := [Empty(limits)];
    } else {
      var front, last := events[..|events| - 1], events[|events| - 1];
      assert front + [last] == events;
      var before := LruRunExists(limits, front);
      var c := LruStepExists(limits, before[|front|], last);
      LruRunGrows(limits, front, before, last, c);
      states := before + [c];
    }
  }

  // ---------- a byte limit loses a key ----------

  function Key(i: nat): string {
    Dec(i)
  }

  /** Entry 0 has one byte, entries 1 to m none; each is stamped with its number. */
  function Piece(i: nat): Entry {
    NewEntry(if i == 0 then [0] else [], 0, i)
  }

  function Zeros(n: nat): Bytes {
    seq(n, _ => 0 as Byte)
  }

  /** Set 0 to m; use 0; delete m; then set a value as large as the byte limit. */
  function LosingCalls(m: nat, bytes: nat): seq<Event> {
    seq(m + 1, i requires 0 <= i <= m => Set(Key(i), Piece(i).value, 0, i))
    + [Get(Key(0), m + 1, m + 1), Delete(Key(m)), Set(Key(m + 1), Zeros(bytes), 0, m + 2)]
  }

  lemma LosingCallsTick(m: nat, bytes: nat)
    ensures Ticking(LosingCalls(m, bytes))
  {
  }

  /** The first `n` entries. */
  function Pieces(n: nat): Entries {
    if n == 0 then map[] else Pieces(n - 1)[Key(n - 1) := Piece(n - 1)]
  }

  lemma {:induction false} PiecesAre(n: nat)
    ensures forall i: nat :: Key(i) in Pieces(n) <==> i < n
    ensures forall i: nat :: i < n ==> Pieces(n)[Key(i)] == Piece(i)
    ensures |Pieces(n)| == n && TotalSize(Pieces(n)) == if n == 0 then 0 else 1
    ensures forall k :: k in Pieces(n) ==> exists i: nat :: i < n && k == Key(i)
  {
    if n > 0 {
      PiecesAre(n - 1);
      forall i: nat ensures Key(i) == Key(n - 1) <==> i == n - 1 {
        KeysDiffer(i, n - 1);
      }
      TotalSizeUpdate(Pieces(n - 1), Key(n - 1), Piece(n - 1));
    }
  }

  lemma KeysDiffer(i: nat, j: nat)
    ensures Key(i) == Key(j) <==> i == j
  {
    if Key(i) == Key(j) { DecInjective(i, j); }
  }

  lemma PiecesAreDistinct(n: nat)
    ensures DistinctTimes(Pieces(n))
  {
    PiecesAre(n);
  }

  lemma LosingCallsAre(m: nat, bytes: nat, i: nat)
    requires i < m + 4
    ensures |LosingCalls(m, bytes)| == m + 4
    ensures LosingCalls(m, bytes)[i]
         == if i <= m then Set(Key(i), Piece(i).value, 0, i)
            else if i == m + 1 then Get(Key(0), m + 1, m + 1)
            else if i == m + 2 then Delete(Key(m))
            else Set(Key(m + 1), Zeros(bytes), 0, m + 2)
  {
  }

  lemma PieceIsStored(limits: Limits, i: nat, c: Cache, c': Cache)
    requires c.entries == Pieces(i) && LruStep(limits, c, Set(Key(i), Piece(i).value, 0, i), c')
    ensures IsCut(limits, Pieces(i + 1), c'.entries)
  {
    assert NewEntry(Piece(i).value, 0, i) == Piece(i);
  }

  lemma PiecesFit(limits: Limits, n: nat)
    requires limits.maxSize >= 1 && ItemsFit(limits, n)
    ensures Fits(limits, Pieces(n))
  {
    PiecesAre(n);
  }

  lemma PieceFills(limits: Limits, i: nat, c: Cache, c': Cache)
    requires limits.maxSize >= 1 && ItemsFit(limits, i + 1)
    requires c.entries == Pieces(i) && LruStep(limits, c, Set(Key(i), Piece(i).value, 0, i), c')
    ensures c'.entries == Pieces(i + 1)
  {
    PieceIsStored(limits, i, c, c');
    PiecesFit(limits, i + 1);
    CutOfFittingIsAll(limits, Pieces(i + 1), c'.entries);
  }

  lemma LosingSet(limits: Limits, m: nat, bytes: nat, states: seq<Cache>, i: nat)
    requires IsLruRun(limits, LosingCalls(m, bytes), states) && i <= m
    ensures LruStep(limits, states[i], Set(Key(i), Piece(i).value, 0, i), states[i + 1])
  {
    LosingCallsAre(m, bytes, i);
    LruRunSteps(limits, LosingCalls(m, bytes), states, i);
  }

  /** While the limits allow it, the Sets fill the cache. */
  lemma {:induction false} SetsFill(limits: Limits, m: nat, bytes: nat, states: seq<Cache>, i: nat)
    requires IsLruRun(limits, LosingCalls(m, bytes), states) && i <= m + 1
    requires limits.maxSize >= 1 && ItemsFit(limits, i)
    ensures states[i].entries == Pieces(i)
  {
    if i > 0 {
      SetsFill(limits, m, bytes, states, i - 1);
      LosingSet(limits, m, bytes, states, i - 1);
      PieceFills(limits, i - 1, states[i - 1], states[i]);
    }
  }

  lemma PieceEvictsFirst(limits: Limits, m: nat, kept: Entries)
    requires limits.maxSize >= 1 && limits.maxItems == m >= 1 && IsCut(limits, Pieces(m + 1), kept)
    ensures kept == Pieces(m + 1) - {Key(0)}
  {
    var full := Pieces(m + 1);
    PiecesAre(m + 1);
    PiecesAreDistinct(m + 1);
    RemoveKey(full, Key(0));
    OldestEvicted(limits, full, Key(0));
    CutIsUnique(limits, full, kept, full - {Key(0)});
  }

  lemma LosingStep(limits: Limits, m: nat, bytes: nat, states: seq<Cache>, i: nat)
    requires IsLruRun(limits, LosingCalls(m, bytes), states) && m <= i < m + 4
    ensures |states| == m + 5
    ensures i == m ==> LruStep(limits, states[i], Set(Key(m), Piece(m).value, 0, m), states[i + 1])
    ensures i == m + 1 ==> LruStep(limits, states[i], Get(Key(0), m + 1, m + 1), states[i + 1])
    ensures i == m + 2 ==> LruStep(limits, states[i], Delete(Key(m)), states[i + 1])
    ensures i == m + 3 ==> LruStep(limits, states[i], Set(Key(m + 1), Zeros(bytes), 0, m + 2), states[i + 1])
  {
    LosingCallsAre(m, bytes, i);
    LruRunSteps(limits, LosingCalls(m, bytes), states, i);
  }

  lemma LosingMiddle(limits: Limits, m: nat, c1: Cache, c2: Cache, c3: Cache)
    requires LruStep(limits, c1, Get(Key(0), m + 1, m + 1), c2) && LruStep(limits, c2, Delete(Key(m)), c3)
    requires Key(0) in c1.entries ==> c1.entries[Key(0)] == Piece(0)
    ensures c3.entries == if Key(0) in c1.entries
                          then c1.entries[Key(0) := Piece(0).(accessedAt := m + 1)] - {Key(m)}
                          else c1.entries - {Key(m)}
  {
  }

  lemma WithoutTwo(full: Entries, x: string, y: string, kept: string, n: nat, size: nat)
    requires x in full && y in full && x != y && kept in full && kept != x && kept != y
    requires |full| == n + 2 && TotalSize(full) == size + full[x].size + full[y].size
    ensures |full - {x} - {y}| == n && TotalSize(full - {x} - {y}) == size && kept in full - {x} - {y}
  {
    RemoveKey(full, x);
    RemoveKey(full - {x}, y);
  }

  lemma OuterPieces(m: nat)
    requires m >= 2
    ensures var full := Pieces(m + 1);
            && |full| == m + 1 && TotalSize(full) == 1
            && Key(0) in full && full[Key(0)].size == 1 && Key(m) in full && full[Key(m)].size == 0
            && Key(1) in full && Key(0) != Key(m) && Key(1) != Key(0) && Key(1) != Key(m)
  {
    PiecesAre(m + 1);
    KeysDiffer(0, m);
    KeysDiffer(1, m);
    KeysDiffer(1, 0);
  }

  /** The entries between the smaller cache's last two calls. */
  lemma SmallMiddle(m: nat)
    requires m >= 2
    ensures var left := Pieces(m + 1) - {Key(0)} - {Key(m)};
            |left| == m - 1 && TotalSize(left) == 0 && Key(1) in left
  {
    OuterPieces(m);
    WithoutTwo(Pieces(m + 1), Key(0), Key(m), Key(1), m - 1, 0);
  }

  lemma LastFits(limits: Limits, bytes: nat, m: nat, left: Entries, e: Entry, kept: Entries)
    requires limits.maxSize == bytes >= 1 && limits.maxItems == m >= 2 && e.size == bytes
    requires |left| == m - 1 && TotalSize(left) == 0 && Key(m + 1) != Key(1) && Key(1) in left
    requires IsCut(limits, left[Key(m + 1) := e], kept)
    ensures Key(1) in kept
  {
    TotalSizeUpdate(left, Key(m + 1), e);
    CutOfFittingIsAll(limits, left[Key(m + 1) := e], kept);
  }

  lemma SmallLast(limits: Limits, m: nat, bytes: nat, kept: Entries)
    requires limits.maxSize == bytes >= 1 && limits.maxItems == m >= 2
    requires IsCut(limits, (Pieces(m + 1) - {Key(0)} - {Key(m)})[Key(m + 1) := NewEntry(Zeros(bytes), 0, m + 2)], kept)
    ensures Key(1) in kept
  {
    SmallMiddle(m);
    KeysDiffer(1, m + 1);
    LastFits(limits, bytes, m, Pieces(m + 1) - {Key(0)} - {Key(m)}, NewEntry(Zeros(bytes), 0, m + 2), kept);
  }

  lemma SmallKeepsOne(limits: Limits, m: nat, bytes: nat, states: seq<Cache>)
    requires IsLruRun(limits, LosingCalls(m, bytes), states)
    requires limits.maxSize == bytes >= 1 && limits.maxItems == m >= 2
    ensures |states| == m + 5 && Key(1) in states[m + 4].entries
  {
    SetsFill(limits, m, bytes, states, m);
    LosingStep(limits, m, bytes, states, m);
    PieceIsStored(limits, m, states[m], states[m + 1]);
    PieceEvictsFirst(limits, m, states[m + 1].entries);
    LosingStep(limits, m, bytes, states, m + 1);
    LosingStep(limits, m, bytes, states, m + 2);
    LosingMiddle(limits, m, states[m + 1], states[m + 2], states[m + 3]);
    LosingStep(limits, m, bytes, states, m + 3);
    SmallLast(limits, m, bytes, states[m + 4].entries);
  }

  /** A cut that keeps the oldest of three entries, when the two newer ones alone
      exceed the byte limit, is impossible. */
  lemma OldestOfThreeGoes(limits: Limits, full: Entries, kept: Entries, x: string, a: string, c: string)
    requires IsCut(limits, full, kept) && limits.maxSize >= 1
    requires x in full && a in full && c in full && a != c
    requires full[x].accessedAt < full[a].accessedAt && full[x].accessedAt < full[c].accessedAt
    requires full[a].size + full[c].size > limits.maxSize
    ensures x !in kept
  {
    if x in kept {
      assert a in kept && c in kept;
      RemoveKey(kept, a);
      RemoveKey(kept - {a}, c);
    }
  }

  lemma LargeMiddle(m: nat, e: Entry)
    requires m >= 2
    ensures var full := (Pieces(m + 1)[Key(0) := Piece(0).(accessedAt := m + 1)] - {Key(m)})[Key(m + 1) := e];
            && Key(0) in full && full[Key(0)] == Piece(0).(accessedAt := m + 1)
            && Key(1) in full && full[Key(1)] == Piece(1)
            && full[Key(m + 1)] == e && Key(0) != Key(m + 1)
  {
    PiecesAre(m + 1);
    KeysDiffer(0, m);
    KeysDiffer(1, m);
    KeysDiffer(1, 0);
    KeysDiffer(1, m + 1);
    KeysDiffer(0, m + 1);
  }

  lemma LargeLast(limits: Limits, m: nat, bytes: nat, kept: Entries)
    requires limits.maxSize == bytes >= 1 && m >= 2
    requires var e := NewEntry(Zeros(bytes), 0, m + 2);
             IsCut(limits, (Pieces(m + 1)[Key(0) := Piece(0).(accessedAt := m + 1)] - {Key(m)})[Key(m + 1) := e], kept)
    ensures Key(1) !in kept
  {
    var e := NewEntry(Zeros(bytes), 0, m + 2);
    var full := (Pieces(m + 1)[Key(0) := Piece(0).(accessedAt := m + 1)] - {Key(m)})[Key(m + 1) := e];
    LargeMiddle(m, e);
    OldestOfThreeGoes(limits, full, kept, Key(1), Key(0), Key(m + 1));
  }

  lemma FirstPiece(m: nat)
    ensures Key(0) in Pieces(m + 1) && Pieces(m + 1)[Key(0)] == Piece(0)
  {
    PiecesAre(m + 1);
  }

  lemma LargeLosesOne(limits: Limits, m: nat, bytes: nat, states: seq<Cache>)
    requires IsLruRun(limits, LosingCalls(m, bytes), states)
    requires limits.maxSize == bytes >= 1 && m >= 2 && ItemsFit(limits, m + 1)
    ensures |states| == m + 5 && Key(1) !in states[m + 4].entries
  {
    SetsFill(limits, m, bytes, states, m + 1);
    LosingStep(limits, m, bytes, states, m + 1);
    LosingStep(limits, m, bytes, states, m + 2);
    FirstPiece(m);
    LosingMiddle(limits, m, states[m + 1], states[m + 2], states[m + 3]);
    LosingStep(limits, m, bytes, states, m + 3);
    LargeLast(limits, m, bytes, states[m + 4].entries);
  }

  // ---------- interleaved calls ----------

  /** What a Get that has looked its key up still has to do: count a miss; delete
      the key and then count a miss; or stamp the entry and count a hit. */
  datatype Pending = WillMiss | WillExpire(key: string) | WillHit(key: string)

  /** The cache with the Gets in flight, and what an observer has counted: Gets
      finished, Sets of an absent key, and entries gone by Delete, expiry or Clear. */
  datatype Shared = Shared(cache: Cache, pending: multiset<Pending>, finished: int, inserted: int, removed: int)

  /** The parts of the calls that run under the lock; any goroutine may take the
      next one. `current` says whether the entry a hit stamps is still the one
      stored under its key. */
  datatype Section =
    | LookUp(key: string, checked: int)
    | CountMiss
    | Expire(key: string)
    | CountHit(key: string, now: int, current: bool)
    | SetEntry(key: string, entry: Entry)
    | DeleteKey(key: string)
    | ClearAll

  function Looked(c: Cache, key: string, checked: int): Pending {
    if key !in c.entries then WillMiss
    else if c.entries[key].Expired(checked) then WillExpire(key)
    else WillHit(key)
  }

  ghost predicate Next(limits: Limits, s: Shared, section: Section, s': Shared) {
    var c := s.cache;
    match section
    case LookUp(key, checked) =>
      s' == s.(pending := s.pending + multiset{Looked(c, key, checked)})
    case CountMiss =>
      && WillMiss in s.pending
      && s' == s.(cache := MissStep(c), pending := s.pending - multiset{WillMiss}, finished := s.finished + 1)
    case Expire(key) =>
      && WillExpire(key) in s.pending
      && s' == s.(cache := DeleteStep(c, key),
                  pending := s.pending - multiset{WillExpire(key)} + multiset{WillMiss},
                  removed := s.removed + if key in c.entries then 1 else 0)
    case CountHit(key, now, current) =>
      && WillHit(key) in s.pending && (current ==> key in c.entries)
      && s' == s.(cache := if current then HitStep(c, key, now) else c.(stats := c.stats.(hits := c.stats.hits + 1)),
                  pending := s.pending - multiset{WillHit(key)}, finished := s.finished + 1)
    case SetEntry(key, e) =>
      && e.size == |e.value|
      && StoreStep(limits, c, key, e, s'.cache)
      && s' == s.(cache := s'.cache, inserted := s.inserted + if key in c.entries then 0 else 1)
    case DeleteKey(key) =>
      s' == s.(cache := DeleteStep(c, key), removed := s.removed + if key in c.entries then 1 else 0)
    case ClearAll =>
      s' == s.(cache := ClearStep(c), removed := s.removed + |c.entries|)
  }

  ghost predicate NextAt(limits: Limits, sections: seq<Section>, states: seq<Shared>, i: nat)
    requires i < |sections| && |states| == |sections| + 1
  {
    Next(limits, states[i], sections[i], states[i + 1])
  }

  ghost predicate IsInterleaving(limits: Limits, sections: seq<Section>, states: seq<Shared>) {
    && |states| == |sections| + 1
    && states[0] == Shared(Empty(limits), multiset{}, 0, 0, 0)
    && forall i :: 0 <= i < |sections| ==> NextAt(limits, sections, states, i)
  }

  /** Counters, entries and limits agree; every finished Get was counted once; and
      every entry ever inserted is present, evicted or removed. */
  ghost predicate Accounted(limits: Limits, s: Shared) {
    && Balanced(limits, s.cache)
    && s.cache.stats.hits + s.cache.stats.misses == s.finished
    && s.inserted == s.cache.stats.itemCount + s.cache.stats.evictions + s.removed
  }

  lemma NextKeepsAccounts(limits: Limits, s: Shared, section: Section, s': Shared)
    requires Accounted(limits, s) && Next(limits, s, section, s')
    ensures Accounted(limits, s')
  {
    match section
    case LookUp(_, _) =>
    case CountMiss =>
    case Expire(key) =>
      DeleteKeepsBalanced(limits, s.cache, key);
      CountWithout(s.cache.entries, key);
    case CountHit(key, now, current) =>
      if current { TouchKeepsBalanced(limits, s.cache, key, now); }
    case SetEntry(key, e) =>
      StoreKeepsBalanced(limits, s.cache, key, e, s'.cache);
      CountWith(s.cache.entries, key, e);
    case DeleteKey(key) =>
      DeleteKeepsBalanced(limits, s.cache, key);
      CountWithout(s.cache.entries, key);
    case ClearAll =>
  }

  /** In every interleaving of the locked sections the accounts balance. */
  lemma {:induction false} InterleavingsBalance(limits: Limits, sections: seq<Section>, states: seq<Shared>, i: nat)
    requires IsInterleaving(limits, sections, states) && i <= |sections|
    ensures Accounted(limits, states[i])
  {
    if i > 0 {
      InterleavingsBalance(limits, sections, states, i - 1);
      assert NextAt(limits, sections, states, i - 1);
      NextKeepsAccounts(limits, states[i - 1], sections[i - 1], states[i]);
    }
  }

  // ---------- a Get as its sections ----------

  /** The sections a Get takes, as what it looks up decides. */
  function GetSections(c: Cache, key: string, checked: int, now: int): seq<Section> {
    [LookUp(key, checked)]
    + match Looked(c, key, checked)
      case WillMiss => [CountMiss]
      case WillExpire(_) => [Expire(key), CountMiss]
      case WillHit(_) => [CountHit(key, now, true)]
  }

  ghost predicate Follow(limits: Limits, sections: seq<Section>, states: seq<Shared>) {
    |states| == |sections| + 1 && forall i :: 0 <= i < |sections| ==> NextAt(limits, sections, states, i)
  }

  lemma TwoFollow(limits: Limits, a: Section, b: Section, s0: Shared, s1: Shared, s2: Shared)
    requires Next(limits, s0, a, s1) && Next(limits, s1, b, s2)
    ensures Follow(limits, [a, b], [s0, s1, s2])
  {
    forall i | 0 <= i < 2 ensures NextAt(limits, [a, b], [s0, s1, s2], i) {
      assert i == 0 || i == 1;
    }
  }

  lemma ThreeFollow(limits: Limits, a: Section, b: Section, c: Section, s0: Shared, s1: Shared, s2: Shared, s3: Shared)
    requires Next(limits, s0, a, s1) && Next(limits, s1, b, s2) && Next(limits, s2, c, s3)
    ensures Follow(limits, [a, b, c], [s0, s1, s2, s3])
  {
    forall i | 0 <= i < 3 ensures NextAt(limits, [a, b, c], [s0, s1, s2, s3], i) {
      assert i == 0 || i == 1 || i == 2;
    }
  }

  ghost predicate GetDone(s: Shared, s': Shared, key: string, checked: int, now: int) {
    && s'.cache == GetStep(s.cache, key, checked, now)
    && s'.pending == s.pending && s'.finished == s.finished + 1 && s'.inserted == s.inserted
  }

  lemma MissingGet(limits: Limits, s: Shared, key: string, checked: int, now: int) returns (states: seq<Shared>)
    requires key !in s.cache.entries
    ensures Follow(limits, [LookUp(key, checked), CountMiss], states)
    ensures states[0] == s && GetDone(s, states[2], key, checked, now)
  {
    var s1 := s.(pending := s.pending + multiset{WillMiss});
    var s2 := s1.(cache := MissStep(s.cache), pending := s1.pending - multiset{WillMiss}, finished := s.finished + 1);
    TwoFollow(limits, LookUp(key, checked), CountMiss, s, s1, s2);
    states := [s, s1, s2];
  }

  lemma HittingGet(limits: Limits, s: Shared, key: string, checked: int, now: int) returns (states: seq<Shared>)
    requires key in s.cache.entries && !s.cache.entries[key].Expired(checked)
    ensures Follow(limits, [LookUp(key, checked), CountHit(key, now, true)], states)
    ensures states[0] == s && GetDone(s, states[2], key, checked, now)
  {
    var s1 := s.(pending := s.pending + multiset{WillHit(key)});
    var s2 := s1.(cache := HitStep(s.cache, key, now), pending := s1.pending - multiset{WillHit(key)},
                  finished := s.finished + 1);
    TwoFollow(limits, LookUp(key, checked), CountHit(key, now, true), s, s1, s2);
    states := [s, s1, s2];
  }

  lemma ExpiringGet(limits: Limits, s: Shared, key: string, checked: int, now: int) returns (states: seq<Shared>)
    requires key in s.cache.entries && s.cache.entries[key].Expired(checked)
    ensures Follow(limits, [LookUp(key, checked), Expire(key), CountMiss], states)
    ensures states[0] == s && GetDone(s, states[3], key, checked, now)
  {
    var s1 := s.(pending := s.pending + multiset{WillExpire(key)});
    var s2 := s1.(cache := DeleteStep(s.cache, key),
                  pending := s1.pending - multiset{WillExpire(key)} + multiset{WillMiss}, removed := s.removed + 1);
    var s3 := s2.(cache := MissStep(s2.cache), pending := s2.pending - multiset{WillMiss}, finished := s.finished + 1);
    ThreeFollow(limits, LookUp(key, checked), Expire(key), CountMiss, s, s1, s2, s3);
    states := [s, s1, s2, s3];
  }

  /** A Get's own sections, taken in a row from any state, lead to the state of the
      uninterrupted Get and leave nothing pending. */
  lemma GetIsItsSections(limits: Limits, s: Shared, key: string, checked: int, now: int) returns (states: seq<Shared>)
    ensures Follow(limits, GetSections(s.cache, key, checked, now), states)
    ensures states[0] == s && GetDone(s, states[|states| - 1], key, checked, now)
  {
    if key !in s.cache.entries {
      states := MissingGet(limits, s, key, checked, now);
      assert [LookUp(key, checked)] + [CountMiss] == [LookUp(key, checked), CountMiss];
    } else if s.cache.entries[key].Expired(checked) {
      states := ExpiringGet(limits, s, key, checked, now);
      assert [LookUp(key, checked)] + [Expire(key), CountMiss] == [LookUp(key, checked), Expire(key), CountMiss];
    } else {
      states := HittingGet(limits, s, key, checked, now);
      assert [LookUp(key, checked)] + [CountHit(key, now, true)] == [LookUp(key, checked), CountHit(key, now, true)];
    }
  }
}
