/** The in-memory cache as an object whose map and counters are updated in place.
    Every method that takes the lock is one section of CacheSpec. */
module MemoryCache {
  import opened Wrappers
  import opened CacheSpec
  import opened Eviction

  datatype CacheError = KeyNotFound | KeyExpired

  // ---------- the cache ----------

  class MemoryCache {
    const maxSize: int
    const maxItems: int
    var entries: Entries
    var currentSize: int
    var stats: Stats

    ghost function Bounds(): Limits {
      Limits(maxSize, maxItems)
    }

    ghost function View(): Cache
      reads this
    {
      Cache(entries, currentSize, stats)
    }

    ghost predicate Valid()
      reads this
    {
      Balanced(Bounds(), View())
    }

    constructor (maxSize: int, maxItems: int)
      ensures Valid() && Bounds() == Limits(maxSize, maxItems)
      ensures View() == Empty(Bounds())
    {
      this.maxSize, this.maxItems := maxSize, maxItems;
      entries, currentSize := map[], 0;
      stats := Stats(0, 0, 0, 0, maxSize, 0, maxItems);
    }

    // ----- sections -----

    /** The first section of Get. */
    method LookUp(key: string) returns (entry: Option<Entry>)
      ensures entry == if key in entries then Some(entries[key]) else None
    {
      entry := if key in entries then Some(entries[key]) else None;
    }

    method CountMiss()
      requires Valid()
      modifies this
      ensures Valid() && View() == MissStep(old(View()))
    {
      stats := stats.(misses := stats.misses + 1);
    }

    /** The last section of a hit. When the entry found has meanwhile been replaced
        or removed (`current` is false), only the counter changes. */
    method CountHit(key: string, now: int, current: bool)
      requires Valid() && (current ==> key in entries)
      modifies this
      ensures Valid()
      ensures View() == if current then HitStep(old(View()), key, now)
                        else old(View()).(stats := old(stats).(hits := old(stats).hits + 1))
    {
      if current {
        TouchKeepsBalanced(Bounds(), View(), key, now);
        entries := entries[key := entries[key].(accessedAt := now)];
      }
      stats := stats.(hits := stats.hits + 1);
    }

    method Delete(key: string)
      requires Valid()
      modifies this
      ensures Valid() && View() == DeleteStep(old(View()), key)
    {
      DeleteKeepsBalanced(Bounds(), View(), key);
      DeletedInPlace(Bounds(), View(), key);
      if key in entries {
        currentSize := currentSize - entries[key].size;
        stats := stats.(itemCount := stats.itemCount - 1);
        entries := entries - {key};
      }
      stats := stats.(size := currentSize);
    }

    lemma DeletedInPlace(limits: Limits, c: Cache, key: string)
      requires Balanced(limits, c)
      ensures DeleteStep(c, key)
           == if key in c.entries
              then var size := c.currentSize - c.entries[key].size;
                   Cache(c.entries - {key}, size,
                         c.stats.(itemCount := c.stats.itemCount - 1).(size := size))
              else c
    {
      if key in c.entries {
        RemoveKey(c.entries, key);
      } else {
        assert c.entries - {key} == c.entries;
      }
    }

    method Clear()
      requires Valid()
      modifies this
      ensures Valid() && View() == ClearStep(old(View()))
    {
      entries := map[];
      currentSize := 0;
      stats := stats.(itemCount := 0, size := 0);
    }

    // ----- eviction -----

    /** currentSize and itemCount agree with the entries; stats.size may lag. */
    ghost predicate Counted()
      reads this
    {
      currentSize == TotalSize(entries) && stats.itemCount == |entries|
    }

    /** The scan for the oldest entry, in this order. */
    method FindOldest(order: seq<string>) returns (oldestKey: string)
      requires forall i :: 0 <= i < |order| ==> order[i] in entries
      ensures oldestKey == Scan(entries, order)
    {
      oldestKey := "";
      var oldestTime := 0;
      for i := 0 to |order|
        invariant oldestKey == Scan(entries, order[..i])
        invariant oldestKey != "" ==> oldestTime == entries[oldestKey].accessedAt
      {
        assert order[..i + 1][..i] == order[..i];
        var key := order[i];
        if oldestKey == "" || entries[key].accessedAt < oldestTime {
          oldestKey, oldestTime := key, entries[key].accessedAt;
        }
      }
      assert order[..|order|] == order;
    }

    /** Removes what the scan finds, if anything, when it visits the keys in this
        order. */
    method EvictLRU(order: seq<string>)
      requires Counted() && IsOrder(order, entries)
      modifies this
      ensures Counted() && entries == Left(old(entries), order)
      ensures stats == if Scan(old(entries), order) == "" then old(stats)
                       else old(stats).(itemCount := old(stats).itemCount - 1,
                                        evictions := old(stats).evictions + 1)
    {
      var oldestKey := FindOldest(order);
      if oldestKey != "" {
        RemoveKey(entries, oldestKey);
        currentSize := currentSize - entries[oldestKey].size;
        stats := stats.(itemCount := stats.itemCount - 1, evictions := stats.evictions + 1);
        entries := entries - {oldestKey};
      }
    }

    /** Evicts until both limits hold, the scans visiting the keys in the given orders:
        any orders under which the loop ends. */
    method EvictIfNeeded(orders: seq<seq<string>>)
      requires Counted() && Ends(Bounds(), entries, orders)
      modifies this
      ensures Counted() && entries == AfterScans(Bounds(), old(entries), orders)
      ensures stats == old(stats).(itemCount := |entries|,
                                   evictions := old(stats).evictions + |old(entries)| - |entries|)
    {
      ghost var full := entries;
      assert orders[0..] == orders;
      var i := 0;
      while (maxSize > 0 && currentSize > maxSize) || (maxItems > 0 && stats.itemCount > maxItems)
        invariant i <= |orders| && Counted() && Ends(Bounds(), entries, orders[i..])
        invariant AfterScans(Bounds(), entries, orders[i..]) == AfterScans(Bounds(), full, orders)
        invariant stats == old(stats).(itemCount := |entries|,
                                       evictions := old(stats).evictions + |full| - |entries|)
        decreases |orders| - i
      {
        NextScan(Bounds(), entries, orders, i);
        EvictLRU(orders[i]);
        i := i + 1;
      }
    }

    // ----- calls -----

    /** Puts an entry under its key, without evicting. */
    method Put(key: string, entry: Entry)
      requires Counted()
      modifies this
      ensures Counted() && entries == old(entries)[key := entry] && stats == old(stats).(itemCount := |entries|)
    {
      TotalSizeUpdate(entries, key, entry);
      if key in entries {
        currentSize := currentSize - entries[key].size;
      } else {
        stats := stats.(itemCount := stats.itemCount + 1);
      }
      currentSize := currentSize + entry.size;
      entries := entries[key := entry];
    }

    /** Stores a value, then evicts, the scans visiting the keys in the given orders.
        Unless the eviction could stall, what is left is a cut. */
    method Set(key: string, value: Bytes, ttl: int, now: int, orders: seq<seq<string>>)
      requires Valid() && Ends(Bounds(), entries[key := NewEntry(value, ttl, now)], orders)
      modifies this
      ensures Valid()
      ensures View() == AfterSet(Bounds(), old(View()), key, NewEntry(value, ttl, now), orders)
      ensures !CanStall(Bounds(), old(entries)[key := NewEntry(value, ttl, now)]) ==>
                SetStep(Bounds(), old(View()), key, NewEntry(value, ttl, now), View())
    {
      var size := |value|;
      var entry := Entry(value, if ttl > 0 then Some(now + ttl) else None, now, now, size);
      AfterSetStores(Bounds(), View(), key, entry, orders);
      StoreKeepsBalanced(Bounds(), View(), key, entry, AfterSet(Bounds(), View(), key, entry, orders));
      Put(key, entry);
      EvictIfNeeded(orders);
      stats := stats.(size := currentSize);
    }

    /** A Get that no other call interrupts. */
    method Get(key: string, checked: int, now: int) returns (r: Result<Bytes, CacheError>)
      requires Valid()
      modifies this
      ensures Valid() && View() == GetStep(old(View()), key, checked, now)
      ensures r == if key !in old(entries) then Failure(KeyNotFound)
                   else match Found(old(View()), key, checked)
                        case None => Failure(KeyExpired)
                        case Some(value) => Success(value)
    {
      var entry := LookUp(key);
      if entry.None? {
        CountMiss();
        return Failure(KeyNotFound);
      }
      if entry.value.Expired(checked) {
        Delete(key);
        CountMiss();
        return Failure(KeyExpired);
      }
      CountHit(key, now, true);
      r := Success(entry.value.value);
    }
  }
}
