/** Interleaved calls on two caches in series: the locked sections of each level, and
    which write the values in each level come from. */
module TieredSections {
  import opened Wrappers
  import opened CacheSpec
  import C = CacheRuns
  import T = TieredCache

  /** A second-level hit of a Get that has not yet copied the value: what it read and
      at which step. */
  datatype Read = Read(key: string, value: Bytes, at: nat)

  datatype Shared = Shared(l1: C.Shared, l2: C.Shared, pending: map<nat, Read>)

  /** A locked section of the numbered call on the first or the second level, or the
      section that copies what the call has read to the first level; any goroutine may
      take the next. */
  datatype Section =
    | At1(call: nat, part: C.Section)
    | At2(call: nat, part: C.Section)
    | Promote(call: nat, promoted: int)

  function ReadsAfter(s: Shared, call: nat, part: C.Section, i: nat): map<nat, Read> {
    if !part.LookUp? then s.pending
    else match Found(s.l2.cache, part.key, part.checked)
         case None => s.pending
         case Some(value) => s.pending[call := Read(part.key, value, i)]
  }

  ghost predicate Next(b1: Limits, b2: Limits, i: nat, s: Shared, section: Section, s': Shared) {
    match section
    case At1(_, part) => C.Next(b1, s.l1, part, s'.l1) && s' == s.(l1 := s'.l1)
    case At2(call, part) =>
      && (part.LookUp? ==> call !in s.pending)
      && C.Next(b2, s.l2, part, s'.l2) && s' == s.(l2 := s'.l2, pending := ReadsAfter(s, call, part, i))
    case Promote(call, promoted) =>
      && call in s.pending
      && C.Next(b1, s.l1, C.SetEntry(s.pending[call].key, NewEntry(s.pending[call].value, T.HOUR, promoted)), s'.l1)
      && s' == s.(l1 := s'.l1, pending := s.pending - {call})
  }

  ghost predicate NextAt(b1: Limits, b2: Limits, sections: seq<Section>, states: seq<Shared>, i: nat)
    requires i < |sections| && |states| == |sections| + 1
  {
    Next(b1, b2, i, states[i], sections[i], states[i + 1])
  }

  function Start(limits: Limits): C.Shared {
    C.Shared(Empty(limits), multiset{}, 0, 0, 0)
  }

  ghost predicate IsInterleaving(b1: Limits, b2: Limits, sections: seq<Section>, states: seq<Shared>) {
    && |states| == |sections| + 1
    && states[0] == Shared(Start(b1), Start(b2), map[])
    && forall i :: 0 <= i < |sections| ==> NextAt(b1, b2, sections, states, i)
  }

  // ---------- where values come from ----------

  predicate Removes(part: C.Section, key: string) {
    ((part.Expire? || part.DeleteKey?) && part.key == key) || part.ClearAll?
  }

  /** The section changes what the second level was last told about the key. */
  predicate Overwrites(section: Section, key: string) {
    section.At2? && ((section.part.SetEntry? && section.part.key == key) || Removes(section.part, key))
  }

  /** The section among the first `i` that last stored the key in the second level,
      unless it was removed since. */
  function Source2(sections: seq<Section>, i: nat, key: string): (r: Option<nat>)
    requires i <= |sections|
    ensures r.Some? ==> r.value < i && sections[r.value].At2? && sections[r.value].part.SetEntry?
  {
    if i == 0 then None
    else if !Overwrites(sections[i - 1], key) then Source2(sections, i - 1, key)
    else if sections[i - 1].part.SetEntry? then Some(i - 1)
    else None
  }

  /** The last second-level look-up of the call among the first `i` sections. */
  function LookedUp(sections: seq<Section>, i: nat, call: nat): (r: Option<nat>)
    requires i <= |sections|
    ensures r.Some? ==> r.value < i && sections[r.value].At2? && sections[r.value].part.LookUp?
  {
    if i == 0 then None
    else if sections[i - 1].At2? && sections[i - 1].call == call && sections[i - 1].part.LookUp? then Some(i - 1)
    else LookedUp(sections, i - 1, call)
  }

  /** The section whose value the first level was last given: one of its own, or the
      second-level one that the promoting call had read. */
  function Source1(sections: seq<Section>, i: nat, key: string): (r: Option<nat>)
    requires i <= |sections|
    ensures r.Some? ==> r.value < i && !sections[r.value].Promote? && sections[r.value].part.SetEntry?
  {
    if i == 0 then None
    else
      match sections[i - 1]
      case At1(_, part) =>
        if part.SetEntry? && part.key == key then Some(i - 1)
        else if Removes(part, key) then None
        else Source1(sections, i - 1, key)
      case At2(_, _) => Source1(sections, i - 1, key)
      case Promote(call, _) =>
        var read := LookedUp(sections, i - 1, call);
        if read.Some? && sections[read.value].part.key == key then Source2(sections, read.value, key)
        else Source1(sections, i - 1, key)
  }

  ghost predicate Gave(sections: seq<Section>, source: Option<nat>, value: Bytes) {
    && source.Some? && source.value < |sections|
    && !sections[source.value].Promote? && sections[source.value].part.SetEntry?
    && sections[source.value].part.entry.value == value
  }

  ghost predicate SecondHolds(sections: seq<Section>, i: nat, m: Entries)
    requires i <= |sections|
  {
    forall k :: k in m ==> Gave(sections, Source2(sections, i, k), m[k].value)
  }

  ghost predicate FirstHolds(sections: seq<Section>, i: nat, m: Entries)
    requires i <= |sections|
  {
    forall k :: k in m ==> Gave(sections, Source1(sections, i, k), m[k].value)
  }

  /** Each pending value is what the last write before its look-up had stored. */
  ghost predicate ReadHolds(sections: seq<Section>, i: nat, call: nat, read: Read)
    requires i <= |sections|
  {
    && LookedUp(sections, i, call) == Some(read.at) && sections[read.at].part.key == read.key
    && Gave(sections, Source2(sections, read.at, read.key), read.value)
  }

  ghost predicate ReadsHold(sections: seq<Section>, i: nat, pending: map<nat, Read>)
    requires i <= |sections|
  {
    forall call :: call in pending ==> ReadHolds(sections, i, call, pending[call])
  }

  ghost predicate KeepsValues(m: Entries, m': Entries) {
    forall k :: k in m' ==> k in m && m'[k].value == m[k].value
  }

  lemma OtherPartKeepsValues(limits: Limits, s: C.Shared, part: C.Section, s': C.Shared)
    requires C.Next(limits, s, part, s') && !part.SetEntry?
    ensures KeepsValues(s.cache.entries, s'.cache.entries)
    ensures forall k :: k in s'.cache.entries ==> !Removes(part, k)
  {
  }

  lemma SetPartStores(limits: Limits, s: C.Shared, part: C.Section, s': C.Shared)
    requires C.Next(limits, s, part, s') && part.SetEntry?
    ensures forall k :: k in s'.cache.entries && k != part.key ==>
              k in s.cache.entries && s'.cache.entries[k] == s.cache.entries[k]
    ensures part.key in s'.cache.entries ==> s'.cache.entries[part.key] == part.entry
  {
  }

  lemma SecondQuiet(sections: seq<Section>, i: nat, m: Entries, m': Entries)
    requires i < |sections| && SecondHolds(sections, i, m) && KeepsValues(m, m')
    requires forall k :: k in m' ==> !Overwrites(sections[i], k)
    ensures SecondHolds(sections, i + 1, m')
  {
    forall k | k in m' ensures Gave(sections, Source2(sections, i + 1, k), m'[k].value) {
      assert Gave(sections, Source2(sections, i, k), m[k].value);
    }
  }

  lemma SecondStores(sections: seq<Section>, i: nat, m: Entries, m': Entries)
    requires i < |sections| && SecondHolds(sections, i, m) && sections[i].At2? && sections[i].part.SetEntry?
    requires forall k :: k in m' && k != sections[i].part.key ==> k in m && m'[k] == m[k]
    requires sections[i].part.key in m' ==> m'[sections[i].part.key] == sections[i].part.entry
    ensures SecondHolds(sections, i + 1, m')
  {
    forall k | k in m' ensures Gave(sections, Source2(sections, i + 1, k), m'[k].value) {
      if k != sections[i].part.key {
        assert Gave(sections, Source2(sections, i, k), m[k].value);
      }
    }
  }

  lemma NextSecondHolds(b1: Limits, b2: Limits, sections: seq<Section>, i: nat, s: Shared, s': Shared)
    requires i < |sections| && Next(b1, b2, i, s, sections[i], s') && SecondHolds(sections, i, s.l2.cache.entries)
    ensures SecondHolds(sections, i + 1, s'.l2.cache.entries)
  {
    var m, m' := s.l2.cache.entries, s'.l2.cache.entries;
    if sections[i].At2? {
      if sections[i].part.SetEntry? {
        SetPartStores(b2, s.l2, sections[i].part, s'.l2);
        SecondStores(sections, i, m, m');
      } else {
        OtherPartKeepsValues(b2, s.l2, sections[i].part, s'.l2);
        SecondQuiet(sections, i, m, m');
      }
    } else {
      SecondQuiet(sections, i, m, m');
    }
  }

  lemma FirstQuiet(sections: seq<Section>, i: nat, m: Entries, m': Entries)
    requires i < |sections| && FirstHolds(sections, i, m) && KeepsValues(m, m')
    requires sections[i].At2? || (sections[i].At1? && !sections[i].part.SetEntry?)
    requires sections[i].At1? ==> forall k :: k in m' ==> !Removes(sections[i].part, k)
    ensures FirstHolds(sections, i + 1, m')
  {
    forall k | k in m' ensures Gave(sections, Source1(sections, i + 1, k), m'[k].value) {
      assert Gave(sections, Source1(sections, i, k), m[k].value);
    }
  }

  lemma FirstStores(sections: seq<Section>, i: nat, m: Entries, m': Entries)
    requires i < |sections| && FirstHolds(sections, i, m) && sections[i].At1? && sections[i].part.SetEntry?
    requires forall k :: k in m' && k != sections[i].part.key ==> k in m && m'[k] == m[k]
    requires sections[i].part.key in m' ==> m'[sections[i].part.key] == sections[i].part.entry
    ensures FirstHolds(sections, i + 1, m')
  {
    forall k | k in m' ensures Gave(sections, Source1(sections, i + 1, k), m'[k].value) {
      if k != sections[i].part.key {
        assert Gave(sections, Source1(sections, i, k), m[k].value);
      }
    }
  }

  lemma FirstPromotes(sections: seq<Section>, i: nat, m: Entries, m': Entries, read: Read)
    requires i < |sections| && FirstHolds(sections, i, m) && sections[i].Promote?
    requires ReadHolds(sections, i, sections[i].call, read)
    requires forall k :: k in m' && k != read.key ==> k in m && m'[k] == m[k]
    requires read.key in m' ==> m'[read.key].value == read.value
    ensures FirstHolds(sections, i + 1, m')
  {
    forall k | k in m' ensures Gave(sections, Source1(sections, i + 1, k), m'[k].value) {
      if k != read.key {
        assert Gave(sections, Source1(sections, i, k), m[k].value);
      }
    }
  }

  lemma NextFirstHolds(b1: Limits, b2: Limits, sections: seq<Section>, i: nat, s: Shared, s': Shared)
    requires i < |sections| && Next(b1, b2, i, s, sections[i], s')
    requires FirstHolds(sections, i, s.l1.cache.entries) && ReadsHold(sections, i, s.pending)
    ensures FirstHolds(sections, i + 1, s'.l1.cache.entries)
  {
    var m, m' := s.l1.cache.entries, s'.l1.cache.entries;
    match sections[i]
    case At1(_, part) =>
      if part.SetEntry? {
        SetPartStores(b1, s.l1, part, s'.l1);
        FirstStores(sections, i, m, m');
      } else {
        OtherPartKeepsValues(b1, s.l1, part, s'.l1);
        FirstQuiet(sections, i, m, m');
      }
    case At2(_, _) => FirstQuiet(sections, i, m, m');
    case Promote(call, promoted) =>
      var read := s.pending[call];
      assert ReadHolds(sections, i, call, read);
      SetPartStores(b1, s.l1, C.SetEntry(read.key, NewEntry(read.value, T.HOUR, promoted)), s'.l1);
      FirstPromotes(sections, i, m, m', read);
  }

  lemma ReadStillHolds(sections: seq<Section>, i: nat, call: nat, read: Read)
    requires i < |sections| && ReadHolds(sections, i, call, read)
    requires !(sections[i].At2? && sections[i].call == call && sections[i].part.LookUp?)
    ensures ReadHolds(sections, i + 1, call, read)
  {
  }

  lemma NextReadsHold(b1: Limits, b2: Limits, sections: seq<Section>, i: nat, s: Shared, s': Shared)
    requires i < |sections| && Next(b1, b2, i, s, sections[i], s')
    requires SecondHolds(sections, i, s.l2.cache.entries) && ReadsHold(sections, i, s.pending)
    ensures ReadsHold(sections, i + 1, s'.pending)
  {
    forall call | call in s'.pending ensures ReadHolds(sections, i + 1, call, s'.pending[call]) {
      if call in s.pending {
        assert ReadHolds(sections, i, call, s.pending[call]);
        ReadStillHolds(sections, i, call, s.pending[call]);
      }
    }
  }

  ghost predicate Holds(sections: seq<Section>, i: nat, s: Shared)
    requires i <= |sections|
  {
    && FirstHolds(sections, i, s.l1.cache.entries) && SecondHolds(sections, i, s.l2.cache.entries)
    && ReadsHold(sections, i, s.pending)
  }

  lemma NextHolds(b1: Limits, b2: Limits, sections: seq<Section>, states: seq<Shared>, i: nat)
    requires IsInterleaving(b1, b2, sections, states) && i < |sections| && Holds(sections, i, states[i])
    ensures Holds(sections, i + 1, states[i + 1])
  {
    assert NextAt(b1, b2, sections, states, i);
    NextFirstHolds(b1, b2, sections, i, states[i], states[i + 1]);
    NextSecondHolds(b1, b2, sections, i, states[i], states[i + 1]);
    NextReadsHold(b1, b2, sections, i, states[i], states[i + 1]);
  }

  /** After every section each level holds, for every key, the value of the section
      that its history names. */
  lemma {:induction false} LevelsHoldSources(b1: Limits, b2: Limits, sections: seq<Section>, states: seq<Shared>,
                                             i: nat)
    requires IsInterleaving(b1, b2, sections, states) && i <= |sections|
    ensures Holds(sections, i, states[i])
  {
    if i > 0 {
      LevelsHoldSources(b1, b2, sections, states, i - 1);
      NextHolds(b1, b2, sections, states, i - 1);
    }
  }

  // ---------- when a promotion is current ----------

  /** The source stays the same over a stretch of steps exactly when none of them
      overwrites the key. */
  lemma {:induction false} SourceStaysIff(sections: seq<Section>, at: nat, i: nat, key: string)
    requires at <= i <= |sections| && Source2(sections, at, key).Some?
    ensures Source2(sections, i, key) == Source2(sections, at, key)
       <==> forall j :: at <= j < i ==> !Overwrites(sections[j], key)
    ensures Source2(sections, i, key).Some? ==>
              Source2(sections, i, key) == Source2(sections, at, key) || Source2(sections, i, key).value >= at
    decreases i
  {
    if at < i {
      SourceStaysIff(sections, at, i - 1, key);
    }
  }

  /** In every interleaving a promotion stores what the last second-level write before
      its look-up had stored; and that is still the last write when it is stored
      exactly when no Set, Delete or expiry of the key and no Clear ran on the second
      level between the look-up and the promotion. */
  lemma PromotionIsCurrentIff(b1: Limits, b2: Limits, sections: seq<Section>, states: seq<Shared>, i: nat)
    requires IsInterleaving(b1, b2, sections, states) && i < |sections| && sections[i].Promote?
    ensures sections[i].call in states[i].pending
    ensures var read := states[i].pending[sections[i].call];
            && read.at < i && Gave(sections, Source2(sections, read.at, read.key), read.value)
            && (read.key in states[i + 1].l1.cache.entries ==>
                  states[i + 1].l1.cache.entries[read.key].value == read.value)
            && (Source2(sections, i, read.key) == Source2(sections, read.at, read.key)
                <==> forall j :: read.at <= j < i ==> !Overwrites(sections[j], read.key))
  {
    assert NextAt(b1, b2, sections, states, i);
    LevelsHoldSources(b1, b2, sections, states, i);
    var read := states[i].pending[sections[i].call];
    assert ReadHolds(sections, i, sections[i].call, read);
    SourceStaysIff(sections, read.at, i, read.key);
  }

  // ---------- when the levels agree ----------

  /** Each call stores one value, and different calls different ones. */
  ghost predicate OneValuePerCall(sections: seq<Section>) {
    forall i, j :: 0 <= i < |sections| && 0 <= j < |sections| && Stores(sections[i]) && Stores(sections[j]) ==>
      (sections[i].part.entry.value == sections[j].part.entry.value <==> sections[i].call == sections[j].call)
  }

  predicate Stores(section: Section) {
    !section.Promote? && section.part.SetEntry?
  }

  /** The call whose Set gave the level its value of the key. */
  function Giver(sections: seq<Section>, source: Option<nat>): Option<nat>
    requires source.Some? ==> source.value < |sections|
  {
    if source.Some? then Some(sections[source.value].call) else None
  }

  /** In every interleaving of calls that store values of their own, a key held by
      both levels has one value in them exactly when both were last given it by the
      same Set. */
  lemma LevelsAgreeIff(b1: Limits, b2: Limits, sections: seq<Section>, states: seq<Shared>, i: nat, key: string)
    requires IsInterleaving(b1, b2, sections, states) && i <= |sections| && OneValuePerCall(sections)
    requires key in states[i].l1.cache.entries && key in states[i].l2.cache.entries
    ensures states[i].l1.cache.entries[key].value == states[i].l2.cache.entries[key].value
       <==> Giver(sections, Source1(sections, i, key)) == Giver(sections, Source2(sections, i, key))
  {
    LevelsHoldSources(b1, b2, sections, states, i);
    var m1, m2 := states[i].l1.cache.entries, states[i].l2.cache.entries;
    assert Gave(sections, Source1(sections, i, key), m1[key].value);
    assert Gave(sections, Source2(sections, i, key), m2[key].value);
    var one, two := sections[Source1(sections, i, key).value], sections[Source2(sections, i, key).value];
    assert Stores(one) && Stores(two);
  }

  // ---------- a Delete undone ----------

  /** Call 0, a Get, misses the first level; call 1 sets the key; the Get looks it up
      on the second level; call 2 deletes the key from both; the Get promotes. */
  function UndoneSection(key: string, value: Bytes, i: nat): Section {
    if i == 0 then At1(0, C.LookUp(key, 0))
    else if i == 1 then At1(0, C.CountMiss)
    else if i == 2 then At1(1, C.SetEntry(key, NewEntry(value, 0, 1)))
    else if i == 3 then At2(1, C.SetEntry(key, NewEntry(value, 0, 2)))
    else if i == 4 then At2(0, C.LookUp(key, 3))
    else if i == 5 then At2(0, C.CountHit(key, 3, true))
    else if i == 6 then At1(2, C.DeleteKey(key))
    else if i == 7 then At2(2, C.DeleteKey(key))
    else Promote(0, 4)
  }

  function UndoneDelete(key: string, value: Bytes): seq<Section> {
    seq(9, i requires 0 <= i < 9 => UndoneSection(key, value, i))
  }

  ghost function StoredOnly(c: Cache, key: string, e: Entry): Cache {
    Stored(c, key, e, map[key := e])
  }

  /** The first level as its five sections leave it. */
  ghost function UndoneFirst(b1: Limits, key: string, value: Bytes, j: nat): C.Shared {
    var missed := MissStep(Empty(b1));
    var set1 := StoredOnly(missed, key, NewEntry(value, 0, 1));
    if j == 0 then Start(b1)
    else if j == 1 then C.Shared(Empty(b1), multiset{C.WillMiss}, 0, 0, 0)
    else if j == 2 then C.Shared(missed, multiset{}, 1, 0, 0)
    else if j == 3 then C.Shared(set1, multiset{}, 1, 1, 0)
    else if j == 4 then C.Shared(DeleteStep(set1, key), multiset{}, 1, 1, 1)
    else C.Shared(StoredOnly(DeleteStep(set1, key), key, NewEntry(value, T.HOUR, 4)), multiset{}, 1, 2, 1)
  }

  /** The second level as its four sections leave it. */
  ghost function UndoneSecond(b2: Limits, key: string, value: Bytes, j: nat): C.Shared {
    var set2 := StoredOnly(Empty(b2), key, NewEntry(value, 0, 2));
    if j == 0 then Start(b2)
    else if j == 1 then C.Shared(set2, multiset{}, 0, 1, 0)
    else if j == 2 then C.Shared(set2, multiset{C.WillHit(key)}, 0, 1, 0)
    else if j == 3 then C.Shared(HitStep(set2, key, 3), multiset{}, 1, 1, 0)
    else C.Shared(DeleteStep(HitStep(set2, key, 3), key), multiset{}, 1, 1, 1)
  }

  ghost function UndoneState(b1: Limits, b2: Limits, key: string, value: Bytes, i: nat): Shared {
    var pending := if 5 <= i < 9 then map[0 := Read(key, value, 4)] else map[];
    var j1 := if i <= 3 then i else if i <= 6 then 3 else if i <= 8 then 4 else 5;
    var j2 := if i <= 3 then 0 else if i <= 6 then i - 3 else if i == 7 then 3 else 4;
    Shared(UndoneFirst(b1, key, value, j1), UndoneSecond(b2, key, value, j2), pending)
  }

  lemma StoredAlone(b: Limits, c: Cache, key: string, e: Entry)
    requires Fits(b, map[key := e]) && (forall k :: k in c.entries ==> k == key)
    ensures StoreStep(b, c, key, e, StoredOnly(c, key, e))
  {
  }

  lemma SizeDecidesFit(b: Limits, key: string, e: Entry, e': Entry)
    requires e.size == e'.size
    ensures Fits(b, map[key := e]) <==> Fits(b, map[key := e'])
  {
    var none: Entries := map[];
    assert none[key := e] == map[key := e] && none[key := e'] == map[key := e'];
    TotalSizeUpdate(none, key, e);
    TotalSizeUpdate(none, key, e');
  }

  lemma FirstStarts(b1: Limits, key: string, value: Bytes)
    ensures C.Next(b1, UndoneFirst(b1, key, value, 0), C.LookUp(key, 0), UndoneFirst(b1, key, value, 1))
    ensures C.Next(b1, UndoneFirst(b1, key, value, 1), C.CountMiss, UndoneFirst(b1, key, value, 2))
  {
  }

  lemma FirstSets(b1: Limits, key: string, value: Bytes)
    requires Fits(b1, map[key := NewEntry(value, 0, 1)])
    ensures C.Next(b1, UndoneFirst(b1, key, value, 2), C.SetEntry(key, NewEntry(value, 0, 1)),
                   UndoneFirst(b1, key, value, 3))
  {
    StoredAlone(b1, MissStep(Empty(b1)), key, NewEntry(value, 0, 1));
  }

  lemma NextDeletes(limits: Limits, s: C.Shared, key: string)
    requires key in s.cache.entries
    ensures C.Next(limits, s, C.DeleteKey(key), s.(cache := DeleteStep(s.cache, key), removed := s.removed + 1))
  {
  }

  lemma FirstDeletes(b1: Limits, key: string, value: Bytes)
    ensures C.Next(b1, UndoneFirst(b1, key, value, 3), C.DeleteKey(key), UndoneFirst(b1, key, value, 4))
  {
    NextDeletes(b1, UndoneFirst(b1, key, value, 3), key);
  }

  lemma FirstSetsAgain(b1: Limits, key: string, value: Bytes)
    requires Fits(b1, map[key := NewEntry(value, 0, 1)])
    ensures C.Next(b1, UndoneFirst(b1, key, value, 4), C.SetEntry(key, NewEntry(value, T.HOUR, 4)),
                   UndoneFirst(b1, key, value, 5))
  {
    SizeDecidesFit(b1, key, NewEntry(value, 0, 1), NewEntry(value, T.HOUR, 4));
    StoredAlone(b1, UndoneFirst(b1, key, value, 4).cache, key, NewEntry(value, T.HOUR, 4));
  }

  lemma SecondSets(b2: Limits, key: string, value: Bytes)
    requires Fits(b2, map[key := NewEntry(value, 0, 2)])
    ensures C.Next(b2, UndoneSecond(b2, key, value, 0), C.SetEntry(key, NewEntry(value, 0, 2)),
                   UndoneSecond(b2, key, value, 1))
  {
    StoredAlone(b2, Empty(b2), key, NewEntry(value, 0, 2));
  }

  lemma SecondLooksUp(b2: Limits, key: string, value: Bytes)
    ensures C.Next(b2, UndoneSecond(b2, key, value, 1), C.LookUp(key, 3), UndoneSecond(b2, key, value, 2))
    ensures Found(UndoneSecond(b2, key, value, 1).cache, key, 3) == Some(value)
  {
  }

  lemma SecondHits(b2: Limits, key: string, value: Bytes)
    ensures C.Next(b2, UndoneSecond(b2, key, value, 2), C.CountHit(key, 3, true), UndoneSecond(b2, key, value, 3))
  {
  }

  lemma SecondDeletes(b2: Limits, key: string, value: Bytes)
    ensures C.Next(b2, UndoneSecond(b2, key, value, 3), C.DeleteKey(key), UndoneSecond(b2, key, value, 4))
  {
    NextDeletes(b2, UndoneSecond(b2, key, value, 3), key);
  }

  lemma NextAtFirst(b1: Limits, b2: Limits, i: nat, s: Shared, call: nat, part: C.Section, l1: C.Shared)
    requires C.Next(b1, s.l1, part, l1)
    ensures Next(b1, b2, i, s, At1(call, part), s.(l1 := l1))
  {
  }

  lemma NextAtSecond(b1: Limits, b2: Limits, i: nat, s: Shared, call: nat, part: C.Section, l2: C.Shared)
    requires C.Next(b2, s.l2, part, l2) && (part.LookUp? ==> call !in s.pending)
    ensures Next(b1, b2, i, s, At2(call, part), s.(l2 := l2, pending := ReadsAfter(s, call, part, i)))
  {
  }

  lemma UndoneAtFirst(b1: Limits, b2: Limits, key: string, value: Bytes, i: nat)
    requires (i < 3 || i == 6) && Fits(b1, map[key := NewEntry(value, 0, 1)])
    ensures Next(b1, b2, i, UndoneState(b1, b2, key, value, i), UndoneSection(key, value, i),
                 UndoneState(b1, b2, key, value, i + 1))
  {
    var s, section := UndoneState(b1, b2, key, value, i), UndoneSection(key, value, i);
    if i < 2 {
      FirstStarts(b1, key, value);
      NextAtFirst(b1, b2, i, s, section.call, section.part, UndoneFirst(b1, key, value, i + 1));
    } else if i == 2 {
      FirstSets(b1, key, value);
      NextAtFirst(b1, b2, i, s, section.call, section.part, UndoneFirst(b1, key, value, 3));
    } else {
      FirstDeletes(b1, key, value);
      NextAtFirst(b1, b2, i, s, section.call, section.part, UndoneFirst(b1, key, value, 4));
    }
  }

  lemma UndoneLooksUp(b1: Limits, b2: Limits, key: string, value: Bytes)
    ensures Next(b1, b2, 4, UndoneState(b1, b2, key, value, 4), UndoneSection(key, value, 4),
                 UndoneState(b1, b2, key, value, 5))
  {
    SecondLooksUp(b2, key, value);
    var s := UndoneState(b1, b2, key, value, 4);
    NextAtSecond(b1, b2, 4, s, 0, C.LookUp(key, 3), UndoneSecond(b2, key, value, 2));
  }

  lemma UndoneAtSecond(b1: Limits, b2: Limits, key: string, value: Bytes, i: nat)
    requires (i == 3 || i == 5 || i == 7) && Fits(b2, map[key := NewEntry(value, 0, 2)])
    ensures Next(b1, b2, i, UndoneState(b1, b2, key, value, i), UndoneSection(key, value, i),
                 UndoneState(b1, b2, key, value, i + 1))
  {
    if i == 3 {
      SecondSets(b2, key, value);
    } else if i == 5 {
      SecondHits(b2, key, value);
    } else {
      SecondDeletes(b2, key, value);
    }
    var s, section := UndoneState(b1, b2, key, value, i), UndoneSection(key, value, i);
    NextAtSecond(b1, b2, i, s, section.call, section.part, UndoneState(b1, b2, key, value, i + 1).l2);
  }

  lemma UndonePromotes(b1: Limits, b2: Limits, key: string, value: Bytes)
    requires Fits(b1, map[key := NewEntry(value, 0, 1)])
    ensures Next(b1, b2, 8, UndoneState(b1, b2, key, value, 8), UndoneSection(key, value, 8),
                 UndoneState(b1, b2, key, value, 9))
  {
    FirstSetsAgain(b1, key, value);
    assert map[0 := Read(key, value, 4)] - {0} == map[];
  }

  lemma UndoneServes(b1: Limits, b2: Limits, key: string, value: Bytes)
    ensures var gone := UndoneState(b1, b2, key, value, 8);
            Found(gone.l1.cache, key, 4) == None && Found(gone.l2.cache, key, 4) == None
    ensures var back := UndoneState(b1, b2, key, value, 9);
            Found(back.l1.cache, key, 4) == Some(value) && Found(back.l2.cache, key, 4) == None
  {
  }

  lemma UndoneSource(key: string, value: Bytes)
    ensures Source2(UndoneDelete(key, value), 9, key) == None
  {
    var sections := UndoneDelete(key, value);
    assert Overwrites(sections[7], key) && Source2(sections, 8, key) == None;
  }

  /** From empty caches, for any value that fits both levels: after the Delete has
      run on both levels the promotion brings the value back, and the first level
      serves it though no write of it stands. */
  lemma PromotionUndoesDelete(b1: Limits, b2: Limits, key: string, value: Bytes) returns (states: seq<Shared>)
    requires Fits(b1, map[key := NewEntry(value, 0, 1)]) && Fits(b2, map[key := NewEntry(value, 0, 2)])
    ensures IsInterleaving(b1, b2, UndoneDelete(key, value), states)
    ensures Found(states[8].l1.cache, key, 4) == None && Found(states[8].l2.cache, key, 4) == None
    ensures Found(states[9].l1.cache, key, 4) == Some(value) && Found(states[9].l2.cache, key, 4) == None
    ensures Source2(UndoneDelete(key, value), 9, key) == None
  {
    states := seq(10, i requires 0 <= i < 10 => UndoneState(b1, b2, key, value, i));
    forall i | 0 <= i < 9 ensures NextAt(b1, b2, UndoneDelete(key, value), states, i) {
      if i == 8 {
        UndonePromotes(b1, b2, key, value);
      } else if i < 3 || i == 6 {
        UndoneAtFirst(b1, b2, key, value, i);
      } else if i == 4 {
        UndoneLooksUp(b1, b2, key, value);
      } else {
        UndoneAtSecond(b1, b2, key, value, i);
      }
    }
    UndoneServes(b1, b2, key, value);
    UndoneSource(key, value);
  }

  // ---------- overlapping Sets ----------

  /** Call 0 sets `a` and call 1 sets `b`; they reach the levels in opposite orders. */
  function OverlappingSets(key: string, a: Bytes, b: Bytes): seq<Section> {
    [At1(0, C.SetEntry(key, NewEntry(a, 0, 0))), At1(1, C.SetEntry(key, NewEntry(b, 0, 1))),
     At2(1, C.SetEntry(key, NewEntry(b, 0, 1))), At2(0, C.SetEntry(key, NewEntry(a, 0, 0)))]
  }

  ghost function SetTwice(limits: Limits, key: string, one: Entry, two: Entry, j: nat): C.Shared {
    var once := StoredOnly(Empty(limits), key, one);
    if j == 0 then Start(limits)
    else if j == 1 then C.Shared(once, multiset{}, 0, 1, 0)
    else C.Shared(StoredOnly(once, key, two), multiset{}, 0, 1, 0)
  }

  lemma SetTwiceSteps(limits: Limits, key: string, one: Entry, two: Entry)
    requires one.size == |one.value| && two.size == |two.value|
    requires Fits(limits, map[key := one]) && Fits(limits, map[key := two])
    ensures C.Next(limits, SetTwice(limits, key, one, two, 0), C.SetEntry(key, one), SetTwice(limits, key, one, two, 1))
    ensures C.Next(limits, SetTwice(limits, key, one, two, 1), C.SetEntry(key, two), SetTwice(limits, key, one, two, 2))
  {
    StoredAlone(limits, Empty(limits), key, one);
    StoredAlone(limits, SetTwice(limits, key, one, two, 1).cache, key, two);
  }

  ghost function OverlapState(b1: Limits, b2: Limits, key: string, a: Bytes, b: Bytes, i: nat): Shared {
    var ea, eb := NewEntry(a, 0, 0), NewEntry(b, 0, 1);
    var j1, j2 := if i < 2 then i else 2, if i < 2 then 0 else i - 2;
    Shared(SetTwice(b1, key, ea, eb, j1), SetTwice(b2, key, eb, ea, j2), map[])
  }

  lemma OverlapStep(b1: Limits, b2: Limits, key: string, a: Bytes, b: Bytes, i: nat)
    requires i < 4
    requires Fits(b1, map[key := NewEntry(a, 0, 0)]) && Fits(b1, map[key := NewEntry(b, 0, 1)])
    requires Fits(b2, map[key := NewEntry(a, 0, 0)]) && Fits(b2, map[key := NewEntry(b, 0, 1)])
    ensures Next(b1, b2, i, OverlapState(b1, b2, key, a, b, i), OverlappingSets(key, a, b)[i],
                 OverlapState(b1, b2, key, a, b, i + 1))
  {
    var ea, eb := NewEntry(a, 0, 0), NewEntry(b, 0, 1);
    var s := OverlapState(b1, b2, key, a, b, i);
    if i < 2 {
      SetTwiceSteps(b1, key, ea, eb);
      NextAtFirst(b1, b2, i, s, i, C.SetEntry(key, if i == 0 then ea else eb), SetTwice(b1, key, ea, eb, i + 1));
    } else {
      SetTwiceSteps(b2, key, eb, ea);
      NextAtSecond(b1, b2, i, s, 3 - i, C.SetEntry(key, if i == 2 then eb else ea), SetTwice(b2, key, eb, ea, i - 1));
    }
  }

  /** From empty caches: two whole overlapping Sets of a key leave its two values in
      the two levels. */
  lemma OverlappingSetsDiffer(b1: Limits, b2: Limits, key: string, a: Bytes, b: Bytes) returns (states: seq<Shared>)
    requires Fits(b1, map[key := NewEntry(a, 0, 0)]) && Fits(b1, map[key := NewEntry(b, 0, 1)])
    requires Fits(b2, map[key := NewEntry(a, 0, 0)]) && Fits(b2, map[key := NewEntry(b, 0, 1)])
    ensures IsInterleaving(b1, b2, OverlappingSets(key, a, b), states)
    ensures Found(states[4].l1.cache, key, 2) == Some(b) && Found(states[4].l2.cache, key, 2) == Some(a)
    ensures Source1(OverlappingSets(key, a, b), 4, key) == Some(1)
    ensures Source2(OverlappingSets(key, a, b), 4, key) == Some(3)
  {
    states := seq(5, i requires 0 <= i < 5 => OverlapState(b1, b2, key, a, b, i));
    forall i | 0 <= i < 4 ensures NextAt(b1, b2, OverlappingSets(key, a, b), states, i) {
      OverlapStep(b1, b2, key, a, b, i);
    }
    assert Source1(OverlappingSets(key, a, b), 2, key) == Some(1);
    assert Source1(OverlappingSets(key, a, b), 3, key) == Some(1);
  }
}
