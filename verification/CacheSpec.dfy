/** The in-memory cache as a value: what each of its lock-protected sections does
    to the entries and counters, and what eviction may keep. */
module CacheSpec {
  import opened Wrappers

  newtype Byte = x: int | 0 <= x < 256
  type Bytes = seq<Byte>

  /** Times and durations are in nanoseconds; an entry without an expiry time
      never expires. */
  datatype Entry = Entry(value: Bytes, expiresAt: Option<int>, accessedAt: int, createdAt: int, size: nat)
  {
    predicate Expired(now: int) {
      expiresAt.Some? && now > expiresAt.value
    }
  }

  type Entries = map<string, Entry>

  datatype Stats = Stats(hits: int, misses: int, evictions: int, size: int, maxSize: int,
                         itemCount: int, maxItems: int)

  datatype Cache = Cache(entries: Entries, currentSize: int, stats: Stats)

  /** A limit of zero or less means no limit. */
  datatype Limits = Limits(maxSize: int, maxItems: int)
  {
    predicate Exceeded(size: int, items: int) {
      (maxSize > 0 && size > maxSize) || (maxItems > 0 && items > maxItems)
    }
  }

  function NewEntry(value: Bytes, ttl: int, now: int): Entry {
    Entry(value, if ttl > 0 then Some(now + ttl) else None, now, now, |value|)
  }

  function Empty(limits: Limits): Cache {
    Cache(map[], 0, Stats(0, 0, 0, 0, limits.maxSize, 0, limits.maxItems))
  }

  // ---------- total size ----------

  ghost function TotalSize(m: Entries): nat
    decreases |m|
  {
    if m == map[] then 0
    else
      var k :| k in m;
      assert (m - {k}).Keys == m.Keys - {k};
      m[k].size + TotalSize(m - {k})
  }

  lemma {:induction false} TotalSizeSplit(m: Entries, k: string)
    requires k in m
    ensures TotalSize(m) == m[k].size + TotalSize(m - {k})
    decreases |m|
  {
    var j :| j in m && TotalSize(m) == m[j].size + TotalSize(m - {j});
    if j != k {
      assert (m - {j}).Keys == m.Keys - {j} && (m - {k}).Keys == m.Keys - {k};
      TotalSizeSplit(m - {j}, k);
      TotalSizeSplit(m - {k}, j);
      assert m - {j} - {k} == m - {k} - {j};
    }
  }

  lemma TotalSizeUpdate(m: Entries, k: string, e: Entry)
    ensures TotalSize(m[k := e]) == TotalSize(m) - (if k in m then m[k].size else 0) + e.size
    ensures |m[k := e]| == |m| + if k in m then 0 else 1
  {
    var m' := m[k := e];
    RemoveKey(m', k);
    if k in m {
      RemoveKey(m, k);
      assert m' - {k} == m - {k};
    } else {
      assert m' - {k} == m;
    }
  }

  lemma RemoveKey(m: Entries, k: string)
    requires k in m
    ensures |m - {k}| == |m| - 1 && TotalSize(m - {k}) == TotalSize(m) - m[k].size
  {
    TotalSizeSplit(m, k);
    assert (m - {k}).Keys == m.Keys - {k};
  }

  ghost predicate Within(sub: Entries, m: Entries) {
    forall k :: k in sub ==> k in m && sub[k] == m[k]
  }

  lemma {:induction false} WithinIsSmaller(sub: Entries, m: Entries)
    requires Within(sub, m)
    ensures |sub| <= |m| && TotalSize(sub) <= TotalSize(m)
    ensures |sub| == |m| ==> sub == m
    decreases |m|
  {
    if sub == map[] {
      assert |m| == 0 ==> m == map[];
    } else {
      var k :| k in sub;
      RemoveKey(sub, k);
      RemoveKey(m, k);
      WithinIsSmaller(sub - {k}, m - {k});
      if |sub| == |m| {
        assert sub == (sub - {k})[k := sub[k]] && m == (m - {k})[k := m[k]];
      }
    }
  }

  // ---------- eviction ----------

  ghost predicate Fits(limits: Limits, m: Entries) {
    !limits.Exceeded(TotalSize(m), |m|)
  }

  /** `kept` is what eviction may leave of `full`: it fits, nothing evicted was
      used after anything kept, and putting the last evicted entry back would no
      longer fit. */
  ghost predicate IsCut(limits: Limits, full: Entries, kept: Entries) {
    Fits(limits, kept) && IsPartialCut(limits, full, kept)
  }

  ghost predicate IsPartialCut(limits: Limits, full: Entries, kept: Entries) {
    && Within(kept, full)
    && (forall a, b :: a in full && a !in kept && b in kept ==> full[a].accessedAt <= full[b].accessedAt)
    && (kept == full || exists last :: IsLastEvicted(limits, full, kept, last))
  }

  ghost predicate IsLastEvicted(limits: Limits, full: Entries, kept: Entries, last: string) {
    && last in full && last !in kept
    && (forall a :: a in full && a !in kept ==> full[a].accessedAt <= full[last].accessedAt)
    && !Fits(limits, kept[last := full[last]])
  }

  /** Evicting a least recently used entry of a set that does not fit. */
  lemma EvictOneMore(limits: Limits, full: Entries, kept: Entries, oldest: string)
    requires IsPartialCut(limits, full, kept) && !Fits(limits, kept)
    requires oldest in kept && forall k :: k in kept ==> kept[oldest].accessedAt <= kept[k].accessedAt
    ensures IsPartialCut(limits, full, kept - {oldest})
  {
    var less := kept - {oldest};
    assert less[oldest := full[oldest]] == kept;
    assert IsLastEvicted(limits, full, less, oldest);
  }

  // ---------- the sections ----------

  /** The cache after an entry was put under its key and eviction left `left`. */
  ghost function Stored(c: Cache, key: string, e: Entry, left: Entries): Cache {
    var full := c.entries[key := e];
    Cache(left, TotalSize(left),
          c.stats.(evictions := c.stats.evictions + |full| - |left|, size := TotalSize(left), itemCount := |left|))
  }

  ghost predicate SetStep(limits: Limits, c: Cache, key: string, e: Entry, c': Cache) {
    IsCut(limits, c.entries[key := e], c'.entries) && c' == Stored(c, key, e, c'.entries)
  }

  /** A Set that says nothing of which entries were evicted. */
  ghost predicate StoreStep(limits: Limits, c: Cache, key: string, e: Entry, c': Cache) {
    && Within(c'.entries, c.entries[key := e]) && Fits(limits, c'.entries)
    && c' == Stored(c, key, e, c'.entries)
  }

  ghost function DeleteStep(c: Cache, key: string): Cache {
    var left := c.entries - {key};
    Cache(left, TotalSize(left), c.stats.(size := TotalSize(left), itemCount := |left|))
  }

  function ClearStep(c: Cache): Cache {
    Cache(map[], 0, c.stats.(size := 0, itemCount := 0))
  }

  function MissStep(c: Cache): Cache {
    c.(stats := c.stats.(misses := c.stats.misses + 1))
  }

  function HitStep(c: Cache, key: string, now: int): Cache
    requires key in c.entries
  {
    c.(entries := c.entries[key := c.entries[key].(accessedAt := now)],
       stats := c.stats.(hits := c.stats.hits + 1))
  }

  /** A Get that no other call interrupts: `checked` is the clock reading of the
      expiry test, `now` that of the access. */
  ghost function GetStep(c: Cache, key: string, checked: int, now: int): Cache {
    if key !in c.entries then MissStep(c)
    else if c.entries[key].Expired(checked) then MissStep(DeleteStep(c, key))
    else HitStep(c, key, now)
  }

  function Found(c: Cache, key: string, checked: int): Option<Bytes> {
    if key in c.entries && !c.entries[key].Expired(checked) then Some(c.entries[key].value) else None
  }

  /** What a Get does, in terms of the entries and counts alone: the key stays exactly
      if it was there and its time-to-live had not run out, every other entry stays as
      it is, and the counts move by one hit or one miss. */
  lemma GetLeaves(c: Cache, key: string, checked: int, now: int)
    ensures var c' := GetStep(c, key, checked, now);
            var live := key in c.entries
                        && (c.entries[key].expiresAt.Some? ==> checked <= c.entries[key].expiresAt.value);
            && (key in c'.entries <==> live)
            && (live ==> c'.entries[key] == c.entries[key].(accessedAt := now))
            && (forall k :: k != key ==> (k in c'.entries <==> k in c.entries))
            && (forall k :: k != key && k in c.entries ==> c'.entries[k] == c.entries[k])
            && c'.stats.hits == c.stats.hits + (if live then 1 else 0)
            && c'.stats.misses == c.stats.misses + (if live then 0 else 1)
            && c'.stats.evictions == c.stats.evictions
            && (Found(c, key, checked) == if live then Some(c.entries[key].value) else None)
  {
  }

  /** The counters agree with the entries and the limits hold. */
  ghost predicate Balanced(limits: Limits, c: Cache) {
    && c.currentSize == c.stats.size == TotalSize(c.entries)
    && c.stats.itemCount == |c.entries|
    && c.stats.maxSize == limits.maxSize && c.stats.maxItems == limits.maxItems
    && Fits(limits, c.entries)
    && forall k :: k in c.entries ==> c.entries[k].size == |c.entries[k].value|
  }

  lemma DeleteKeepsBalanced(limits: Limits, c: Cache, key: string)
    requires Balanced(limits, c)
    ensures Balanced(limits, DeleteStep(c, key))
  {
    WithinIsSmaller(c.entries - {key}, c.entries);
  }

  lemma TouchKeepsBalanced(limits: Limits, c: Cache, key: string, now: int)
    requires Balanced(limits, c) && key in c.entries
    ensures Balanced(limits, HitStep(c, key, now))
  {
    TotalSizeUpdate(c.entries, key, c.entries[key].(accessedAt := now));
  }

  lemma StoreKeepsBalanced(limits: Limits, c: Cache, key: string, e: Entry, c': Cache)
    requires Balanced(limits, c) && e.size == |e.value| && StoreStep(limits, c, key, e, c')
    ensures Balanced(limits, c')
  {
  }

  // ---------- Set and the recency list ----------

  ghost predicate DistinctTimes(m: Entries) {
    forall a, b :: a in m && b in m && a != b ==> m[a].accessedAt != m[b].accessedAt
  }

  ghost predicate UsedBefore(m: Entries, now: int) {
    forall k :: k in m ==> m[k].accessedAt < now
  }

  /** `order` lists the keys of `m` from least to most recently used. */
  ghost predicate Lists(order: seq<string>, m: Entries) {
    && (forall k :: k in order <==> k in m)
    && (forall i, j :: 0 <= i < j < |order| ==> order[i] != order[j])
    && (forall i, j :: 0 <= i < j < |order| ==> m[order[i]].accessedAt < m[order[j]].accessedAt)
  }

  function Restrict(m: Entries, keys: seq<string>): Entries {
    map k | k in m && k in keys :: m[k]
  }

  /** The longest most recently used part of the list that fits. */
  ghost function FittingSuffix(limits: Limits, order: seq<string>, m: Entries): seq<string> {
    if order == [] || Fits(limits, Restrict(m, order)) then order
    else FittingSuffix(limits, order[1..], m)
  }

  function MoveToEnd(order: seq<string>, key: string): seq<string> {
    Drop(order, key) + [key]
  }

  function Drop(order: seq<string>, key: string): seq<string> {
    if order == [] then []
    else if order[0] == key then Drop(order[1..], key)
    else [order[0]] + Drop(order[1..], key)
  }

  lemma {:induction false} DropListed(order: seq<string>, m: Entries, key: string)
    requires Lists(order, m)
    ensures Lists(Drop(order, key), m - {key})
    decreases |order|
  {
    if order != [] {
      var rest := m - {order[0]};
      TailListed(order, m);
      OldestIsOldest(order, m);
      DropListed(order[1..], rest, key);
      if order[0] == key {
        assert rest - {key} == m - {key};
      } else {
        assert rest - {key} == m - {key} - {order[0]};
        ConsListed(order[0], Drop(order[1..], key), m - {key});
      }
    }
  }

  lemma ConsListed(first: string, tail: seq<string>, m: Entries)
    requires first in m && Lists(tail, m - {first})
    requires forall k :: k in m && k != first ==> m[first].accessedAt < m[k].accessedAt
    ensures Lists([first] + tail, m)
  {
    forall j | 0 <= j < |tail| ensures tail[j] in m && tail[j] != first {
      var t := tail[j];
      assert t in tail;
    }
    forall k ensures k in [first] + tail <==> k in m {
      assert k in tail <==> k in m - {first};
    }
  }

  lemma MoveToEndListed(order: seq<string>, m: Entries, key: string, e: Entry)
    requires Lists(order, m) && UsedBefore(m, e.accessedAt)
    ensures Lists(MoveToEnd(order, key), m[key := e])
  {
    DropListed(order, m, key);
    var tail, full := Drop(order, key), m[key := e];
    forall i | 0 <= i < |tail| ensures tail[i] in m && tail[i] != key {
      assert tail[i] in m - {key};
    }
    forall k ensures k in tail + [key] <==> k in full {
      assert k in tail <==> k in m - {key};
    }
  }

  lemma {:induction false} CutIsSuffix(limits: Limits, order: seq<string>, full: Entries, kept: Entries)
    requires Lists(order, full) && IsCut(limits, full, kept)
    ensures kept == Restrict(full, FittingSuffix(limits, order, full))
    ensures Lists(FittingSuffix(limits, order, full), kept)
    decreases |order|
  {
    assert Restrict(full, order) == full;
    if order == [] || Fits(limits, full) {
      CutOfFittingIsAll(limits, full, kept);
    } else {
      var oldest, rest := order[0], order[1..];
      assert oldest in order && oldest in full;
      OldestIsOldest(order, full);
      OldestGoesFirst(limits, full, kept, oldest);
      TailListed(order, full);
      CutIsSuffix(limits, rest, full - {oldest}, kept);
      FittingSuffixIgnores(limits, rest, full, oldest);
    }
  }

  lemma CutOfFittingIsAll(limits: Limits, full: Entries, kept: Entries)
    requires IsCut(limits, full, kept) && (Fits(limits, full) || full == map[])
    ensures kept == full
  {
    if kept != full {
      var last :| IsLastEvicted(limits, full, kept, last);
      WithinIsSmaller(kept[last := full[last]], full);
    }
  }

  lemma OldestIsOldest(order: seq<string>, m: Entries)
    requires Lists(order, m) && order != []
    ensures order[0] in m && forall k :: k in m && k != order[0] ==> m[order[0]].accessedAt < m[k].accessedAt
  {
  }

  lemma TailListed(order: seq<string>, m: Entries)
    requires Lists(order, m) && order != []
    ensures Lists(order[1..], m - {order[0]})
  {
  }

  lemma OldestGoesFirst(limits: Limits, full: Entries, kept: Entries, oldest: string)
    requires IsCut(limits, full, kept) && !Fits(limits, full)
    requires oldest in full && forall k :: k in full && k != oldest ==> full[oldest].accessedAt < full[k].accessedAt
    ensures oldest !in kept && IsCut(limits, full - {oldest}, kept)
  {
    var less := full - {oldest};
    var last :| IsLastEvicted(limits, full, kept, last);
    if oldest in kept {
      assert false;
    }
    if last == oldest {
      assert forall k :: k in less ==> k in kept;
      assert kept == less;
    } else {
      assert IsLastEvicted(limits, less, kept, last);
    }
  }

  lemma {:induction false} FittingSuffixIgnores(limits: Limits, order: seq<string>, m: Entries, gone: string)
    requires gone !in order
    ensures FittingSuffix(limits, order, m) == FittingSuffix(limits, order, m - {gone})
    ensures Restrict(m, FittingSuffix(limits, order, m)) == Restrict(m - {gone}, FittingSuffix(limits, order, m))
  {
    assert Restrict(m, order) == Restrict(m - {gone}, order);
    if order != [] {
      FittingSuffixIgnores(limits, order[1..], m, gone);
    }
  }

  /** Set refines a recency list: move the key to the most recent end, then keep
      the longest recent part that fits both limits. */
  lemma SetRefinesRecencyList(limits: Limits, c: Cache, order: seq<string>, key: string, e: Entry, c': Cache)
    requires Lists(order, c.entries) && UsedBefore(c.entries, e.accessedAt)
    requires SetStep(limits, c, key, e, c')
    ensures var full := c.entries[key := e];
            var order' := FittingSuffix(limits, MoveToEnd(order, key), full);
            Lists(order', c'.entries) && c'.entries == Restrict(full, order')
  {
    MoveToEndListed(order, c.entries, key, e);
    CutIsSuffix(limits, MoveToEnd(order, key), c.entries[key := e], c'.entries);
  }

  /** A value is present after its own Set exactly when it does not by itself exceed the
      byte limit, if there is one. */
  lemma SetValueStaysIffItFits(limits: Limits, c: Cache, key: string, e: Entry, c': Cache)
    requires UsedBefore(c.entries, e.accessedAt) && SetStep(limits, c, key, e, c')
    ensures key in c'.entries <==> limits.maxSize <= 0 || e.size <= limits.maxSize
    ensures key in c'.entries ==> c'.entries[key] == e
  {
    var full, kept := c.entries[key := e], c'.entries;
    TotalSizeUpdate(map[], key, e);
    assert map[][key := e] == map[key := e];
    if key in kept {
      WithinIsSmaller(map[key := e], kept);
    } else {
      var last :| IsLastEvicted(limits, full, kept, last);
      assert full[key].accessedAt <= full[last].accessedAt;
      assert last == key;
      assert kept.Keys == {};
    }
  }

  // ---------- building concrete runs ----------

  lemma NothingEvicted(limits: Limits, m: Entries)
    requires Fits(limits, m)
    ensures IsCut(limits, m, m)
  {
  }

  lemma OldestEvicted(limits: Limits, full: Entries, oldest: string)
    requires oldest in full && forall k :: k in full ==> full[oldest].accessedAt <= full[k].accessedAt
    requires !Fits(limits, full) && Fits(limits, full - {oldest})
    ensures IsCut(limits, full, full - {oldest})
  {
    var kept := full - {oldest};
    assert kept[oldest := full[oldest]] == full;
    assert IsLastEvicted(limits, full, kept, oldest);
  }
}
