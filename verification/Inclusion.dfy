/** What raising the item limit of a cache can lose: whole runs of the cache with the
    eviction loop as it is, under every iteration order and with any keys. */
module Inclusion {
  import opened Wrappers
  import opened Decimal
  import opened CacheSpec
  import opened Eviction
  import opened CacheRuns

  // ---------- runs ----------

  function Full(c: Cache, e: Event): Entries
    requires e.Set?
  {
    c.entries[e.key := NewEntry(e.value, e.ttl, e.now)]
  }

  /** A Set ends with what its eviction loop leaves under some iteration orders. */
  ghost predicate Step(limits: Limits, c: Cache, e: Event, c': Cache) {
    if e.Set? then
      && EndsWith(limits, Full(c, e), c'.entries)
      && c' == Stored(c, e.key, NewEntry(e.value, e.ttl, e.now), c'.entries)
    else LruStep(limits, c, e, c')
  }

  ghost predicate StepAt(limits: Limits, events: seq<Event>, states: seq<Cache>, i: nat)
    requires i < |events| && |states| == |events| + 1
  {
    Step(limits, states[i], events[i], states[i + 1])
  }

  ghost predicate IsRun(limits: Limits, events: seq<Event>, states: seq<Cache>) {
    && |states| == |events| + 1
    && states[0] == Empty(limits)
    && forall i :: 0 <= i < |events| ==> StepAt(limits, events, states, i)
  }

  /** No Set of the run puts its eviction loop where it might run for ever. */
  ghost predicate NeverStalls(limits: Limits, events: seq<Event>, states: seq<Cache>)
    requires |states| == |events| + 1
  {
    forall i :: 0 <= i < |events| ==> !MayStall(limits, states[i], events[i])
  }

  ghost predicate MayStall(limits: Limits, c: Cache, e: Event) {
    e.Set? && CanStall(limits, Full(c, e))
  }

  lemma RunSteps(limits: Limits, events: seq<Event>, states: seq<Cache>, i: nat)
    requires IsRun(limits, events, states) && i < |events|
    ensures Step(limits, states[i], events[i], states[i + 1])
  {
    assert StepAt(limits, events, states, i);
  }

  lemma RunGrows(limits: Limits, events: seq<Event>, states: seq<Cache>, e: Event, c: Cache)
    requires IsRun(limits, events, states) && Step(limits, states[|events|], e, c)
    ensures IsRun(limits, events + [e], states + [c])
  {
    forall i | 0 <= i < |events| + 1 ensures StepAt(limits, events + [e], states + [c], i) {
      if i < |events| { assert StepAt(limits, events, states, i); }
    }
  }

  // ---------- hits are Gets that find their key ----------

  /** The entry a Get looks for is there and its time-to-live has not run out. */
  predicate Finds(m: Entries, e: Event) {
    && e.Get? && e.key in m
    && (m[e.key].expiresAt.Some? ==> e.checked <= m[e.key].expiresAt.value)
  }

  function Finding(events: seq<Event>, states: seq<Cache>, i: nat): nat
    requires i <= |events| && |states| == |events| + 1
  {
    if i == 0 then 0
    else Finding(events, states, i - 1) + if Finds(states[i - 1].entries, events[i - 1]) then 1 else 0
  }

  function Gets(events: seq<Event>, i: nat): nat
    requires i <= |events|
  {
    if i == 0 then 0 else Gets(events, i - 1) + if events[i - 1].Get? then 1 else 0
  }

  lemma StepCounts(limits: Limits, c: Cache, e: Event, c': Cache)
    requires Step(limits, c, e, c')
    ensures c'.stats.hits == c.stats.hits + if Finds(c.entries, e) then 1 else 0
    ensures c'.stats.misses == c.stats.misses + if e.Get? && !Finds(c.entries, e) then 1 else 0
  {
    if e.Get? { GetLeaves(c, e.key, e.checked, e.now); }
  }

  /** In every run the hits are the Gets that found their key alive, and the misses all
      the others. */
  lemma {:induction false} HitsAreFinds(limits: Limits, events: seq<Event>, states: seq<Cache>, i: nat)
    requires IsRun(limits, events, states) && i <= |events|
    ensures states[i].stats.hits == Finding(events, states, i)
    ensures states[i].stats.misses == Gets(events, i) - Finding(events, states, i)
  {
    if i > 0 {
      HitsAreFinds(limits, events, states, i - 1);
      RunSteps(limits, events, states, i - 1);
      StepCounts(limits, states[i - 1], events[i - 1], states[i]);
    }
  }

  // ---------- runs that never stall evict least recently used entries ----------

  lemma SteadyStepCuts(limits: Limits, c: Cache, e: Event, c': Cache)
    requires Step(limits, c, e, c') && !MayStall(limits, c, e)
    ensures LruStep(limits, c, e, c')
  {
    if e.Set? {
      var full := Full(c, e);
      var orders :| Ends(limits, full, orders) && c'.entries == AfterScans(limits, full, orders);
      NoStallCuts(limits, full, orders);
    }
  }

  lemma SteadyRunCuts(limits: Limits, events: seq<Event>, states: seq<Cache>)
    requires IsRun(limits, events, states) && NeverStalls(limits, events, states)
    ensures IsLruRun(limits, events, states)
  {
    forall i | 0 <= i < |events| ensures LruStepAt(limits, events, states, i) {
      RunSteps(limits, events, states, i);
      SteadyStepCuts(limits, states[i], events[i], states[i + 1]);
    }
  }

  ghost predicate NoEmptyKey(events: seq<Event>) {
    forall i :: 0 <= i < |events| ==> !(events[i].Set? && events[i].key == "")
  }

  lemma {:induction false} EmptyKeyNeverThere(limits: Limits, events: seq<Event>, states: seq<Cache>, i: nat)
    requires IsLruRun(limits, events, states) && NoEmptyKey(events) && i <= |events|
    ensures "" !in states[i].entries
  {
    if i > 0 {
      EmptyKeyNeverThere(limits, events, states, i - 1);
      LruRunSteps(limits, events, states, i - 1);
    }
  }

  lemma CutIsReached(limits: Limits, c: Cache, e: Event, c': Cache)
    requires LruStep(limits, c, e, c') && !MayStall(limits, c, e) && (e.Set? ==> DistinctTimes(Full(c, e)))
    ensures Step(limits, c, e, c')
  {
    if e.Set? {
      var full := Full(c, e);
      var orders := NoStallCanEnd(limits, full);
      NoStallCuts(limits, full, orders);
      CutIsUnique(limits, full, c'.entries, AfterScans(limits, full, orders));
    }
  }

  lemma LruStepIsReal(limits: Limits, events: seq<Event>, states: seq<Cache>, i: nat)
    requires IsLruRun(limits, events, states) && Ticking(events) && NoEmptyKey(events) && i < |events|
    ensures Step(limits, states[i], events[i], states[i + 1]) && !MayStall(limits, states[i], events[i])
  {
    EmptyKeyNeverThere(limits, events, states, i);
    LruRunSteps(limits, events, states, i);
    SameLimitsRuns(limits, limits, events, states, states, i);
    if events[i].Set? {
      StampedBefore(events, i, states[i].entries);
      InsertKeepsDistinct(states[i].entries, events[i].key, NewEntry(events[i].value, events[i].ttl, events[i].now));
    }
    CutIsReached(limits, states[i], events[i], states[i + 1]);
  }

  /** Without the empty key, runs whose evictions are cuts are runs of the loop. */
  lemma LruRunIsReal(limits: Limits, events: seq<Event>, states: seq<Cache>)
    requires IsLruRun(limits, events, states) && Ticking(events) && NoEmptyKey(events)
    ensures IsRun(limits, events, states) && NeverStalls(limits, events, states)
  {
    forall i | 0 <= i < |events|
      ensures StepAt(limits, events, states, i) && !MayStall(limits, states[i], events[i])
    {
      LruStepIsReal(limits, events, states, i);
    }
  }

  // ---------- runs that never stall ----------

  /** Inclusion: of two caches without byte limit fed the same calls, neither of which
      can stall, the one allowed more items always holds everything the other holds,
      with the same values and access times, and has had at least as many hits. */
  lemma MoreItemsNeverLose(less: Limits, more: Limits, events: seq<Event>,
                           small: seq<Cache>, large: seq<Cache>, i: nat)
    requires less.maxSize <= 0 && more.maxSize <= 0 && AllowsMore(less, more)
    requires IsRun(less, events, small) && IsRun(more, events, large) && Ticking(events)
    requires NeverStalls(less, events, small) && NeverStalls(more, events, large)
    requires i <= |events|
    ensures Within(small[i].entries, large[i].entries)
    ensures small[i].stats.hits <= large[i].stats.hits
  {
    SteadyRunCuts(less, events, small);
    SteadyRunCuts(more, events, large);
    LruRunsInclude(less, more, events, small, large, i);
  }

  /** In particular no Get that finds its key in the smaller cache misses, or finds
      another value, in the larger. */
  lemma HitsStayHits(less: Limits, more: Limits, events: seq<Event>, small: seq<Cache>, large: seq<Cache>, i: nat)
    requires less.maxSize <= 0 && more.maxSize <= 0 && AllowsMore(less, more)
    requires IsRun(less, events, small) && IsRun(more, events, large) && Ticking(events)
    requires NeverStalls(less, events, small) && NeverStalls(more, events, large)
    requires i < |events| && events[i].Get?
    ensures var found := Found(small[i], events[i].key, events[i].checked);
            found.Some? ==> Found(large[i], events[i].key, events[i].checked) == found
  {
    MoreItemsNeverLose(less, more, events, small, large, i);
  }

  ghost predicate AllWithin(small: seq<Cache>, large: seq<Cache>) {
    forall i :: 0 <= i < |small| && i < |large| ==> Within(small[i].entries, large[i].entries)
  }

  /** In every run in which neither cache can stall, the cache allowed more items holds
      all the other holds. */
  ghost predicate AlwaysIncludes(less: Limits, more: Limits) {
    forall events, small, large ::
      && IsRun(less, events, small) && IsRun(more, events, large) && Ticking(events)
      && NeverStalls(less, events, small) && NeverStalls(more, events, large)
      ==> AllWithin(small, large)
  }

  lemma ByteLimitLosesKey(less: Limits, more: Limits)
    requires AllowsMore(less, more) && less.maxSize == more.maxSize >= 1
    requires less.maxItems >= 2 && !SameItems(less, more)
    ensures !AlwaysIncludes(less, more)
  {
    var m, bytes := less.maxItems, less.maxSize;
    var calls := LosingCalls(m, bytes);
    LosingCallsTick(m, bytes);
    LosingCallsHaveKeys(m, bytes);
    var small := LruRunExists(less, calls);
    var large := LruRunExists(more, calls);
    LruRunIsReal(less, calls, small);
    LruRunIsReal(more, calls, large);
    SmallKeepsOne(less, m, bytes, small);
    LargeLosesOne(more, m, bytes, large);
    assert !Within(small[m + 4].entries, large[m + 4].entries);
    assert !AllWithin(small, large);
  }

  lemma LosingCallsHaveKeys(m: nat, bytes: nat)
    ensures NoEmptyKey(LosingCalls(m, bytes))
  {
    forall i | 0 <= i < |LosingCalls(m, bytes)|
      ensures !(LosingCalls(m, bytes)[i].Set? && LosingCalls(m, bytes)[i].key == "")
    {
      LosingCallsAre(m, bytes, if i < m + 4 then i else 0);
    }
  }

  lemma IncludesWhenGuarded(less: Limits, more: Limits, events: seq<Event>, small: seq<Cache>, large: seq<Cache>)
    requires AllowsMore(less, more) && less.maxSize == more.maxSize
    requires less.maxSize <= 0 || less.maxItems == 1 || SameItems(less, more)
    requires IsLruRun(less, events, small) && IsLruRun(more, events, large) && Ticking(events)
    ensures AllWithin(small, large)
  {
    forall i | 0 <= i < |small| ensures Within(small[i].entries, large[i].entries) {
      if less.maxSize <= 0 {
        LruRunsInclude(less, more, events, small, large, i);
      } else if less.maxItems == 1 {
        OneItemRuns(less, more, events, small, large, i);
      } else {
        SameLimitsRuns(less, more, events, small, large, i);
      }
    }
  }

  /** Of two caches that share a byte limit, the one allowed more items always
      includes the other, in runs that cannot stall, exactly when there is no byte
      limit, or the other is allowed one item, or both are allowed the same. */
  lemma MoreItemsNeverLoseIff(less: Limits, more: Limits)
    requires AllowsMore(less, more) && less.maxSize == more.maxSize
    ensures AlwaysIncludes(less, more) <==>
              less.maxSize <= 0 || less.maxItems == 1 || SameItems(less, more)
  {
    if less.maxSize <= 0 || less.maxItems == 1 || SameItems(less, more) {
      forall events, small, large | IsRun(less, events, small) && IsRun(more, events, large) && Ticking(events)
                                    && NeverStalls(less, events, small) && NeverStalls(more, events, large)
        ensures AllWithin(small, large)
      {
        SteadyRunCuts(less, events, small);
        SteadyRunCuts(more, events, large);
        IncludesWhenGuarded(less, more, events, small, large);
      }
    } else {
      ByteLimitLosesKey(less, more);
    }
  }

  // ---------- runs with any keys: when they still include ----------

  /** In every run that goes on, whatever the keys and the iteration orders. */
  ghost predicate AlwaysIncludesAnyKey(less: Limits, more: Limits) {
    forall events, small, large ::
      IsRun(less, events, small) && IsRun(more, events, large) && Ticking(events) ==> AllWithin(small, large)
  }

  lemma StepKeepsAllStamps(limits: Limits, events: seq<Event>, i: nat, c: Cache, c': Cache)
    requires i < |events| && Ticking(events) && Stamped(events, i, c.entries) && Step(limits, c, events[i], c')
    ensures Stamped(events, i + 1, c'.entries)
  {
    var e := events[i];
    if e.Set? {
      SetLeaves(limits, c, e, c');
      InsertKeepsStamps(events, i, c.entries, e.key, NewEntry(e.value, e.ttl, e.now));
      WithinKeepsStamps(events, i + 1, Full(c, e), c'.entries);
    } else {
      StepKeepsStamps(limits, events, i, c, c');
    }
  }

  lemma SetLeaves(limits: Limits, c: Cache, e: Event, c': Cache)
    requires e.Set? && Step(limits, c, e, c')
    ensures Within(c'.entries, Full(c, e)) && Fits(limits, c'.entries)
    ensures "" in Full(c, e) ==> "" in c'.entries
    ensures Fits(limits, Full(c, e)) ==> c'.entries == Full(c, e)
  {
    var orders :| Ends(limits, Full(c, e), orders) && c'.entries == AfterScans(limits, Full(c, e), orders);
    ScansLeave(limits, Full(c, e), orders);
  }

  lemma UnlimitedStep(less: Limits, more: Limits, e: Event, small: Cache, large: Cache, small': Cache, large': Cache)
    requires more.maxSize <= 0 && more.maxItems <= 0 && Within(small.entries, large.entries)
    requires Step(less, small, e, small') && Step(more, large, e, large')
    ensures Within(small'.entries, large'.entries)
  {
    if e.Set? {
      SetLeaves(less, small, e, small');
      SetLeaves(more, large, e, large');
    } else {
      OtherStepKeepsWithin(less, more, e, small, large, small', large');
    }
  }

  lemma {:induction false} UnlimitedRuns(less: Limits, more: Limits, events: seq<Event>,
                                         small: seq<Cache>, large: seq<Cache>, i: nat)
    requires more.maxSize <= 0 && more.maxItems <= 0 && i <= |events|
    requires IsRun(less, events, small) && IsRun(more, events, large)
    ensures Within(small[i].entries, large[i].entries)
  {
    if i > 0 {
      UnlimitedRuns(less, more, events, small, large, i - 1);
      RunSteps(less, events, small, i - 1);
      RunSteps(more, events, large, i - 1);
      UnlimitedStep(less, more, events[i - 1], small[i - 1], large[i - 1], small[i], large[i]);
    }
  }

  /** What a cache allowed one item and a larger one have in common. */
  ghost predicate OneItemTracks(small: Entries, large: Entries) {
    Within(small, large) && ("" in large ==> "" in small)
  }

  lemma OnlyEmptyKeyStays(limits: Limits, left: Entries)
    requires limits.maxItems == 1 && Fits(limits, left) && "" in left
    ensures forall k :: k in left ==> k == ""
  {
    forall k | k in left ensures k == "" {
      if k != "" {
        RemoveKey(left, "");
        RemoveKey(left - {""}, k);
      }
    }
  }

  lemma OneItemSetAnyKey(less: Limits, more: Limits, e: Event, small: Cache, large: Cache,
                         small': Cache, large': Cache)
    requires less.maxItems == 1 && less.maxSize == more.maxSize && AllowsMore(less, more) && e.Set?
    requires OneItemTracks(small.entries, large.entries) && UsedBefore(large.entries, e.now)
    requires Step(less, small, e, small') && Step(more, large, e, large')
    ensures OneItemTracks(small'.entries, large'.entries)
  {
    SetLeaves(less, small, e, small');
    SetLeaves(more, large, e, large');
    if "" in Full(small, e) {
      OnlyEmptyKeyStays(less, small'.entries);
    } else {
      SteadyStepCuts(less, small, e, small');
      SteadyStepCuts(more, large, e, large');
      OneItemSet(less, more, small.entries, large.entries, e.key, NewEntry(e.value, e.ttl, e.now),
                 small'.entries, large'.entries);
    }
  }

  lemma OneItemOtherStep(limits: Limits, less: Limits, e: Event, small: Cache, large: Cache,
                         small': Cache, large': Cache)
    requires !e.Set? && OneItemTracks(small.entries, large.entries)
    requires Step(less, small, e, small') && Step(limits, large, e, large')
    ensures OneItemTracks(small'.entries, large'.entries)
  {
    OtherStepKeepsWithin(less, limits, e, small, large, small', large');
  }

  lemma OneItemStepAnyKey(less: Limits, more: Limits, events: seq<Event>, i: nat, small: Cache, large: Cache,
                          small': Cache, large': Cache)
    requires less.maxItems == 1 && less.maxSize == more.maxSize && AllowsMore(less, more)
    requires i < |events| && Ticking(events) && Stamped(events, i, large.entries)
    requires OneItemTracks(small.entries, large.entries)
    requires Step(less, small, events[i], small') && Step(more, large, events[i], large')
    ensures OneItemTracks(small'.entries, large'.entries) && Stamped(events, i + 1, large'.entries)
  {
    StepKeepsAllStamps(more, events, i, large, large');
    if events[i].Set? {
      StampedBefore(events, i, large.entries);
      OneItemSetAnyKey(less, more, events[i], small, large, small', large');
    } else {
      OneItemOtherStep(more, less, events[i], small, large, small', large');
    }
  }

  lemma {:induction false} OneItemRunsAnyKey(less: Limits, more: Limits, events: seq<Event>,
                                             small: seq<Cache>, large: seq<Cache>, i: nat)
    requires less.maxItems == 1 && less.maxSize == more.maxSize && AllowsMore(less, more)
    requires IsRun(less, events, small) && IsRun(more, events, large) && Ticking(events) && i <= |events|
    ensures OneItemTracks(small[i].entries, large[i].entries) && Stamped(events, i, large[i].entries)
  {
    if i > 0 {
      OneItemRunsAnyKey(less, more, events, small, large, i - 1);
      RunSteps(less, events, small, i - 1);
      RunSteps(more, events, large, i - 1);
      OneItemStepAnyKey(less, more, events, i - 1, small[i - 1], large[i - 1], small[i], large[i]);
    }
  }

  // ---------- runs with any keys: how they lose ----------

  lemma FittingStays(limits: Limits, m: Entries)
    requires Fits(limits, m)
    ensures EndsWith(limits, m, m)
  {
    assert Ends(limits, m, []) && m == AfterScans(limits, m, []);
  }

  lemma RunSets(limits: Limits, events: seq<Event>, states: seq<Cache>, e: Event, left: Entries)
    returns (longer: seq<Cache>)
    requires IsRun(limits, events, states) && e.Set? && EndsWith(limits, Full(states[|events|], e), left)
    ensures IsRun(limits, events + [e], longer) && longer[|events| + 1].entries == left
  {
    var next := Stored(states[|events|], e.key, NewEntry(e.value, e.ttl, e.now), left);
    RunGrows(limits, events, states, e, next);
    longer := states + [next];
  }

  /** The run goes on with a Set after which everything fits. */
  lemma RunKeepsAll(limits: Limits, events: seq<Event>, states: seq<Cache>, e: Event, full: Entries)
    returns (longer: seq<Cache>)
    requires IsRun(limits, events, states) && e.Set? && full == Full(states[|events|], e) && Fits(limits, full)
    ensures IsRun(limits, events + [e], longer) && longer[|events| + 1].entries == full
  {
    FittingStays(limits, full);
    longer := RunSets(limits, events, states, e, full);
  }

  /** The run goes on with a Set that evicts one key, while the empty key is oldest. */
  lemma RunEvicts(limits: Limits, events: seq<Event>, states: seq<Cache>, e: Event, full: Entries, victim: string)
    returns (longer: seq<Cache>)
    requires IsRun(limits, events, states) && e.Set? && full == Full(states[|events|], e)
    requires OldestIsEmptyKey(full) && victim in full && victim != ""
    requires !Fits(limits, full) && Fits(limits, full - {victim})
    ensures IsRun(limits, events + [e], longer) && longer[|events| + 1].entries == full - {victim}
  {
    AnyKeyMayGo(limits, full, victim);
    longer := RunSets(limits, events, states, e, full - {victim});
  }

  /** The empty key, then keys 1, 2 and so on, each with an empty value. */
  function Name(i: nat): string {
    if i == 0 then "" else Dec(i)
  }

  function Blank(i: nat): Event {
    Set(Name(i), [], 0, i)
  }

  function Blanks(n: nat): seq<Event> {
    seq(n, i requires 0 <= i < n => Blank(i))
  }

  function First(n: nat): Entries {
    if n == 0 then map[] else First(n - 1)[Name(n - 1) := NewEntry([], 0, n - 1)]
  }

  lemma NamesDiffer(i: nat, j: nat)
    ensures Name(i) == Name(j) <==> i == j
    ensures Name(i) == "" <==> i == 0
  {
    if i > 0 && j > 0 && Name(i) == Name(j) { DecInjective(i, j); }
  }

  lemma {:induction false} FirstKeys(n: nat)
    ensures forall i: nat :: Name(i) in First(n) <==> i < n
    ensures forall k :: k in First(n) ==> exists i: nat :: i < n && k == Name(i) && First(n)[k] == NewEntry([], 0, i)
  {
    if n > 0 {
      FirstKeys(n - 1);
      forall i: nat ensures Name(i) == Name(n - 1) <==> i == n - 1 {
        NamesDiffer(i, n - 1);
      }
    }
  }

  lemma {:induction false} FirstSizes(n: nat)
    ensures |First(n)| == n && TotalSize(First(n)) == 0
  {
    if n > 0 {
      FirstSizes(n - 1);
      FirstKeys(n - 1);
      TotalSizeUpdate(First(n - 1), Name(n - 1), NewEntry([], 0, n - 1));
    }
  }

  lemma FirstOldest(n: nat)
    requires n > 0
    ensures OldestIsEmptyKey(First(n)) && First(n)[""] == NewEntry([], 0, 0)
  {
    FirstKeys(n);
    assert Name(0) in First(n);
    forall k | k in First(n) ensures k == "" <==> First(n)[k].accessedAt == 0 {
      var i: nat :| i < n && k == Name(i) && First(n)[k] == NewEntry([], 0, i);
      NamesDiffer(i, 0);
    }
  }

  lemma BlankFits(limits: Limits, j: nat)
    requires limits.maxSize <= 0 && ItemsFit(limits, j)
    ensures Fits(limits, First(j))
  {
    FirstSizes(j);
  }

  /** A key stored in a full cache may be evicted at once. */
  lemma BlankOverflows(limits: Limits, k: nat, j: nat, full: Entries)
    requires limits.maxSize <= 0 && limits.maxItems == k && 1 <= k <= j
    requires full == First(k)[Name(j) := NewEntry([], 0, j)]
    ensures OldestIsEmptyKey(full) && Name(j) in full && Name(j) != ""
    ensures !Fits(limits, full) && full - {Name(j)} == First(k)
  {
    FirstKeys(k);
    FirstOldest(k);
    NamesDiffer(j, 0);
    assert full - {Name(j)} == First(k);
    BlankIsOneTooMany(limits, k, full, Name(j));
  }

  lemma BlankIsOneTooMany(limits: Limits, k: nat, full: Entries, key: string)
    requires limits.maxItems == k >= 1 && key in full && full - {key} == First(k)
    ensures !Fits(limits, full)
  {
    FirstSizes(k);
    RemoveKey(full, key);
  }

  function Least(a: nat, b: nat): nat {
    if a <= b then a else b
  }

  lemma BlanksNext(j: nat)
    ensures Blanks(j) + [Blank(j)] == Blanks(j + 1)
  {
  }

  lemma BlankIsNext(c: Cache, j: nat)
    requires c.entries == First(j)
    ensures Full(c, Blank(j)) == First(j + 1)
  {
  }

  lemma BlankKept(limits: Limits, j: nat, before: seq<Cache>) returns (states: seq<Cache>)
    requires limits.maxSize <= 0 && ItemsFit(limits, j + 1)
    requires IsRun(limits, Blanks(j), before) && before[j].entries == First(j)
    ensures IsRun(limits, Blanks(j + 1), states) && states[j + 1].entries == First(j + 1)
  {
    BlankFits(limits, j + 1);
    BlankIsNext(before[j], j);
    states := RunKeepsAll(limits, Blanks(j), before, Blank(j), First(j + 1));
    BlanksNext(j);
  }

  lemma BlankDropped(limits: Limits, k: nat, j: nat, before: seq<Cache>) returns (states: seq<Cache>)
    requires limits.maxSize <= 0 && limits.maxItems == k && 1 <= k <= j
    requires IsRun(limits, Blanks(j), before) && before[j].entries == First(k)
    ensures IsRun(limits, Blanks(j + 1), states) && states[j + 1].entries == First(k)
  {
    BlanksNext(j);
    var full := First(k)[Name(j) := NewEntry([], 0, j)];
    BlankOverflows(limits, k, j, full);
    BlankFits(limits, k);
    states := RunEvicts(limits, Blanks(j), before, Blank(j), full, Name(j));
  }

  /** Once the cache is full each Set may evict the entry it has just stored. */
  lemma {:induction false} BlanksMayFill(limits: Limits, k: nat, j: nat) returns (states: seq<Cache>)
    requires limits.maxSize <= 0 && limits.maxItems == k >= 1
    ensures IsRun(limits, Blanks(j), states) && states[j].entries == First(Least(j, k))
  {
    if j == 0 {
      states := [Empty(limits)];
    } else {
      var before := BlanksMayFill(limits, k, j - 1);
      if j <= k {
        states := BlankKept(limits, j - 1, before);
      } else {
        states := BlankDropped(limits, k, j - 1, before);
      }
    }
  }

  lemma BlanksMayKeepFirst(limits: Limits, k: nat, j: nat) returns (states: seq<Cache>)
    requires limits.maxSize <= 0 && limits.maxItems == k >= 2 && j >= 2
    ensures IsRun(limits, Blanks(j), states) && Name(1) in states[j].entries
  {
    states := BlanksMayFill(limits, k, j);
    FirstKeys(Least(j, k));
  }

  lemma FullWithoutFirst(limits: Limits, n: nat)
    requires limits.maxSize <= 0 && limits.maxItems == n >= 2
    ensures OldestIsEmptyKey(First(n + 1)) && Name(1) in First(n + 1) && Name(1) != ""
    ensures !Fits(limits, First(n + 1)) && Fits(limits, First(n + 1) - {Name(1)})
  {
    FirstKeys(n + 1);
    FirstSizes(n + 1);
    FirstOldest(n + 1);
    NamesDiffer(1, 0);
    RemoveKey(First(n + 1), Name(1));
  }

  lemma BlanksMayLoseFirst(limits: Limits, n: nat) returns (states: seq<Cache>)
    requires limits.maxSize <= 0 && limits.maxItems == n >= 2
    ensures IsRun(limits, Blanks(n + 1), states) && Name(1) !in states[n + 1].entries
  {
    var before := BlanksMayFill(limits, n, n);
    FullWithoutFirst(limits, n);
    BlanksNext(n);
    states := RunEvicts(limits, Blanks(n), before, Blank(n), First(n + 1), Name(1));
  }

  lemma BlanksTick(n: nat)
    ensures Ticking(Blanks(n))
  {
  }

  /** Without a byte limit the empty key alone makes a bounded cache lose what a
      smaller one keeps: each evicts what its iteration orders say. */
  lemma EmptyKeyLosesKey(less: Limits, more: Limits)
    requires less.maxSize <= 0 && more.maxSize <= 0 && 2 <= less.maxItems <= more.maxItems
    ensures !AlwaysIncludesAnyKey(less, more)
  {
    var k, n := less.maxItems, more.maxItems;
    var small := BlanksMayKeepFirst(less, k, n + 1);
    var large := BlanksMayLoseFirst(more, n);
    BlanksTick(n + 1);
    assert !Within(small[n + 1].entries, large[n + 1].entries);
    assert !AllWithin(small, large);
  }

  /** The empty key with nothing, then two values as large as the byte limit. */
  function TwoLarge(bytes: nat): seq<Event> {
    [Set("", [], 0, 0), Set("a", Zeros(bytes), 0, 1), Set("b", Zeros(bytes), 0, 2)]
  }

  const NOTHING: Entries := map["" := NewEntry([], 0, 0)]

  function LargeEntry(bytes: nat, now: int): Entry {
    NewEntry(Zeros(bytes), 0, now)
  }

  function ThreeEntries(bytes: nat): Entries {
    NOTHING["a" := LargeEntry(bytes, 1)]["b" := LargeEntry(bytes, 2)]
  }

  lemma NothingSize()
    ensures TotalSize(NOTHING) == 0 && |NOTHING| == 1
  {
    var none: Entries := map[];
    assert none["" := NewEntry([], 0, 0)] == NOTHING;
    TotalSizeUpdate(none, "", NewEntry([], 0, 0));
  }

  lemma OneLargeFits(limits: Limits, bytes: nat, key: string, now: int)
    requires limits.maxSize == bytes >= 1 && limits.maxItems != 1 && key != ""
    ensures Fits(limits, NOTHING) && Fits(limits, NOTHING[key := LargeEntry(bytes, now)])
  {
    NothingSize();
    TotalSizeUpdate(NOTHING, key, LargeEntry(bytes, now));
  }

  lemma TwoLargeOverflow(limits: Limits, bytes: nat)
    requires limits.maxSize == bytes >= 1
    ensures !Fits(limits, ThreeEntries(bytes)) && OldestIsEmptyKey(ThreeEntries(bytes))
  {
    NothingSize();
    TotalSizeUpdate(NOTHING, "a", LargeEntry(bytes, 1));
    TotalSizeUpdate(NOTHING["a" := LargeEntry(bytes, 1)], "b", LargeEntry(bytes, 2));
  }

  lemma EitherMayGo(limits: Limits, bytes: nat, victim: string)
    requires limits.maxSize == bytes >= 1 && limits.maxItems != 1 && (victim == "a" || victim == "b")
    ensures victim in ThreeEntries(bytes) && Fits(limits, ThreeEntries(bytes) - {victim})
  {
    OneLargeFits(limits, bytes, "a", 1);
    OneLargeFits(limits, bytes, "b", 2);
    assert ThreeEntries(bytes) - {"a"} == NOTHING["b" := LargeEntry(bytes, 2)];
    assert ThreeEntries(bytes) - {"b"} == NOTHING["a" := LargeEntry(bytes, 1)];
  }

  lemma OneLargeRun(limits: Limits, bytes: nat) returns (states: seq<Cache>)
    requires limits.maxSize == bytes >= 1 && limits.maxItems != 1
    ensures IsRun(limits, TwoLarge(bytes)[..2], states)
    ensures states[2].entries == NOTHING["a" := LargeEntry(bytes, 1)]
  {
    var e0, e1 := Set("", [], 0, 0), Set("a", Zeros(bytes), 0, 1);
    OneLargeFits(limits, bytes, "a", 1);
    var s1 := RunKeepsAll(limits, [], [Empty(limits)], e0, NOTHING);
    states := RunKeepsAll(limits, [] + [e0], s1, e1, NOTHING["a" := LargeEntry(bytes, 1)]);
    assert [] + [e0] + [e1] == TwoLarge(bytes)[..2];
  }

  lemma TwoLargeRun(limits: Limits, bytes: nat, victim: string) returns (states: seq<Cache>)
    requires limits.maxSize == bytes >= 1 && limits.maxItems != 1 && (victim == "a" || victim == "b")
    ensures IsRun(limits, TwoLarge(bytes), states) && states[3].entries == ThreeEntries(bytes) - {victim}
  {
    var before := OneLargeRun(limits, bytes);
    TwoLargeOverflow(limits, bytes);
    EitherMayGo(limits, bytes, victim);
    states := RunEvicts(limits, TwoLarge(bytes)[..2], before, TwoLarge(bytes)[2], ThreeEntries(bytes), victim);
    assert TwoLarge(bytes)[..2] + [TwoLarge(bytes)[2]] == TwoLarge(bytes);
  }

  lemma EmptyKeyAndBytesLoseKey(less: Limits, more: Limits)
    requires less.maxSize == more.maxSize >= 1 && less.maxItems != 1 && more.maxItems != 1
    ensures !AlwaysIncludesAnyKey(less, more)
  {
    var bytes := less.maxSize;
    var small := TwoLargeRun(less, bytes, "b");
    var large := TwoLargeRun(more, bytes, "a");
    assert Ticking(TwoLarge(bytes));
    assert "a" in small[3].entries && "a" !in large[3].entries;
    assert !AllWithin(small, large);
  }

  lemma IncludesAnyKey(less: Limits, more: Limits, events: seq<Event>, small: seq<Cache>, large: seq<Cache>)
    requires AllowsMore(less, more) && less.maxSize == more.maxSize
    requires less.maxItems == 1 || (more.maxSize <= 0 && more.maxItems <= 0)
    requires IsRun(less, events, small) && IsRun(more, events, large) && Ticking(events)
    ensures AllWithin(small, large)
  {
    forall i | 0 <= i < |small| ensures Within(small[i].entries, large[i].entries) {
      if less.maxItems == 1 {
        OneItemRunsAnyKey(less, more, events, small, large, i);
      } else {
        UnlimitedRuns(less, more, events, small, large, i);
      }
    }
  }

  /** With any keys, of two caches that share a byte limit the one allowed more items
      always includes the other exactly when the other is allowed one item or the one
      allowed more has no limit at all. */
  lemma AnyKeyNeverLosesIff(less: Limits, more: Limits)
    requires AllowsMore(less, more) && less.maxSize == more.maxSize
    ensures AlwaysIncludesAnyKey(less, more) <==>
              less.maxItems == 1 || (more.maxSize <= 0 && more.maxItems <= 0)
  {
    if less.maxItems == 1 || (more.maxSize <= 0 && more.maxItems <= 0) {
      forall events, small, large | IsRun(less, events, small) && IsRun(more, events, large) && Ticking(events)
        ensures AllWithin(small, large)
      {
        IncludesAnyKey(less, more, events, small, large);
      }
    } else if less.maxSize <= 0 {
      EmptyKeyLosesKey(less, more);
    } else {
      EmptyKeyAndBytesLoseKey(less, more);
    }
  }
}
