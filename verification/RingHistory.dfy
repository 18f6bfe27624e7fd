/** The ring as single additions and removals leave it, whichever calls make them: what
    a removal takes after any history, and what overlapping updates leave. */
module RingHistory {
  import opened Wrappers
  import opened RingSpec
  import opened BalancerSpec

  /** One AddNode or RemoveNode, made by the numbered call. */
  datatype Touch = Touch(call: nat, add: bool, name: string)

  function Touched(h: Hash, replicas: int, nodes: Nodes, t: Touch): Nodes {
    if t.add then Add(h, replicas, nodes, t.name) else Remove(h, replicas, nodes, t.name)
  }

  function RingRun(h: Hash, replicas: int, nodes: Nodes, touches: seq<Touch>): Nodes {
    if touches == [] then nodes
    else Touched(h, replicas, RingRun(h, replicas, nodes, touches[..|touches| - 1]), touches[|touches| - 1])
  }

  lemma {:induction false} RingRunAppend(h: Hash, replicas: int, nodes: Nodes, a: seq<Touch>, b: seq<Touch>)
    ensures RingRun(h, replicas, nodes, a + b) == RingRun(h, replicas, RingRun(h, replicas, nodes, a), b)
  {
    if b == [] {
      assert a + b == a;
    } else {
      var front := b[..|b| - 1];
      assert (a + b)[..|a + b| - 1] == a + front;
      RingRunAppend(h, replicas, nodes, a, front);
    }
  }

  // ---------- what a removal takes ----------

  /** The last operation on a node one of whose labels is the point. */
  function LastTouch(h: Hash, replicas: int, touches: seq<Touch>, p: Point): Option<Touch> {
    if touches == [] then None
    else if p in Points(h, replicas, touches[|touches| - 1].name) then Some(touches[|touches| - 1])
    else LastTouch(h, replicas, touches[..|touches| - 1], p)
  }

  lemma {:induction false} OwnerIsLastAdded(h: Hash, replicas: int, touches: seq<Touch>, p: Point)
    ensures var ring, last := RingRun(h, replicas, map[], touches), LastTouch(h, replicas, touches, p);
            && (p in ring <==> last.Some? && last.value.add)
            && (p in ring ==> ring[p] == last.value.name)
  {
    if touches != [] {
      OwnerIsLastAdded(h, replicas, touches[..|touches| - 1], p);
    }
  }

  lemma {:induction false} RingRunIsLabelled(h: Hash, replicas: int, touches: seq<Touch>)
    ensures Labelled(h, replicas, RingRun(h, replicas, map[], touches))
  {
    if touches != [] {
      RingRunIsLabelled(h, replicas, touches[..|touches| - 1]);
    }
  }

  /** No label point of the node was last touched by the addition of another. */
  ghost predicate Untaken(h: Hash, replicas: int, touches: seq<Touch>, node: string) {
    forall p :: p in Points(h, replicas, node) ==>
      var last := LastTouch(h, replicas, touches, p);
      last.Some? && last.value.add ==> last.value.name == node
  }

  /** After any additions and removals, removing a node takes away exactly the points
      it owns if and only if no label point of it was last touched by the addition of
      another node. */
  lemma RemoveIsExactAfterIff(h: Hash, replicas: int, touches: seq<Touch>, node: string)
    ensures var ring := RingRun(h, replicas, map[], touches);
            Remove(h, replicas, ring, node) == Without(ring, node) <==> Untaken(h, replicas, touches, node)
  {
    RingRunIsLabelled(h, replicas, touches);
    RemoveTakesOnlyOwnPoints(h, replicas, RingRun(h, replicas, map[], touches), node);
    forall p ensures var ring, last := RingRun(h, replicas, map[], touches), LastTouch(h, replicas, touches, p);
                     && (p in ring <==> last.Some? && last.value.add)
                     && (p in ring ==> ring[p] == last.value.name)
    {
      OwnerIsLastAdded(h, replicas, touches, p);
    }
  }

  // ---------- the operations of a call ----------

  function Adds(call: nat, names: seq<string>): seq<Touch> {
    seq(|names|, i requires 0 <= i < |names| => Touch(call, true, names[i]))
  }

  function Removes(call: nat, names: seq<string>): seq<Touch> {
    seq(|names|, i requires 0 <= i < |names| => Touch(call, false, names[i]))
  }

  /** What an update does to the ring that found the names in `current`: it adds, then
      removes what is gone in some order. */
  ghost predicate IsUpdate(call: nat, current: set<string>, backends: seq<string>, touches: seq<Touch>) {
    exists removed :: AsSet(removed) == current - AsSet(backends)
                   && touches == Adds(call, Surplus(current, backends)) + Removes(call, removed)
  }

  ghost predicate IsOp(call: nat, nodes: Nodes, op: Op, touches: seq<Touch>) {
    match op
    case AddBackend(b) => touches == [Touch(call, true, b)]
    case RemoveBackend(b) => touches == [Touch(call, false, b)]
    case UpdateBackends(bs) => IsUpdate(call, nodes.Values, bs, touches)
  }

  lemma {:induction false} AddsAddAll(h: Hash, replicas: int, call: nat, nodes: Nodes, names: seq<string>)
    ensures RingRun(h, replicas, nodes, Adds(call, names)) == AddAll(h, replicas, nodes, names)
  {
    if names != [] {
      var front := names[..|names| - 1];
      AddsAddAll(h, replicas, call, nodes, front);
      assert Adds(call, names)[..|names| - 1] == Adds(call, front);
    }
  }

  lemma {:induction false} RemovesRemoveAll(h: Hash, replicas: int, call: nat, nodes: Nodes, names: seq<string>)
    ensures RingRun(h, replicas, nodes, Removes(call, names)) == RemoveAll(h, replicas, nodes, AsSet(names))
  {
    if names == [] {
      assert RemoveAll(h, replicas, nodes, AsSet(names)) == nodes;
    } else {
      var front, last := names[..|names| - 1], names[|names| - 1];
      RemovesRemoveAll(h, replicas, call, nodes, front);
      assert Removes(call, names)[..|names| - 1] == Removes(call, front);
      assert names == front + [last];
      RemoveOneMore(h, replicas, nodes, AsSet(front), last);
      assert AsSet(names) == AsSet(front) + {last};
    }
  }

  lemma OpTouches(h: Hash, replicas: int, call: nat, nodes: Nodes, op: Op, touches: seq<Touch>)
    requires IsOp(call, nodes, op, touches)
    ensures RingRun(h, replicas, nodes, touches) == Apply(h, replicas, nodes, op)
  {
    match op
    case AddBackend(b) => assert touches[..0] == [];
    case RemoveBackend(b) => assert touches[..0] == [];
    case UpdateBackends(bs) =>
      var removed :| AsSet(removed) == nodes.Values - AsSet(bs)
                  && touches == Adds(call, Surplus(nodes.Values, bs)) + Removes(call, removed);
      var added := Surplus(nodes.Values, bs);
      RingRunAppend(h, replicas, nodes, Adds(call, added), Removes(call, removed));
      AddsAddAll(h, replicas, call, nodes, added);
      RemovesRemoveAll(h, replicas, call, AddAll(h, replicas, nodes, added), removed);
  }

  function Joined(parts: seq<seq<Touch>>): seq<Touch> {
    if parts == [] then [] else Joined(parts[..|parts| - 1]) + parts[|parts| - 1]
  }

  ghost predicate OpAt(h: Hash, replicas: int, ops: seq<Op>, parts: seq<seq<Touch>>, i: nat)
    requires i < |ops| == |parts|
  {
    IsOp(i, Run(h, replicas, ops[..i]), ops[i], parts[i])
  }

  /** Each part is what one call does to the ring when the calls run one by one. */
  ghost predicate IsSerial(h: Hash, replicas: int, ops: seq<Op>, parts: seq<seq<Touch>>) {
    |parts| == |ops| && forall i :: 0 <= i < |ops| ==> OpAt(h, replicas, ops, parts, i)
  }

  lemma SerialStep(h: Hash, replicas: int, ops: seq<Op>, parts: seq<seq<Touch>>, i: nat)
    requires IsSerial(h, replicas, ops, parts) && i < |ops|
    requires RingRun(h, replicas, map[], Joined(parts[..i])) == Run(h, replicas, ops[..i])
    ensures RingRun(h, replicas, map[], Joined(parts[..i + 1])) == Run(h, replicas, ops[..i + 1])
  {
    assert OpAt(h, replicas, ops, parts, i);
    OpTouches(h, replicas, i, Run(h, replicas, ops[..i]), ops[i], parts[i]);
    assert parts[..i + 1][..i] == parts[..i] && ops[..i + 1][..i] == ops[..i];
    RingRunAppend(h, replicas, map[], Joined(parts[..i]), parts[i]);
  }

  lemma {:induction false} SerialRun(h: Hash, replicas: int, ops: seq<Op>, parts: seq<seq<Touch>>, i: nat)
    requires IsSerial(h, replicas, ops, parts) && i <= |ops|
    ensures RingRun(h, replicas, map[], Joined(parts[..i])) == Run(h, replicas, ops[..i])
  {
    if i > 0 {
      SerialRun(h, replicas, ops, parts, i - 1);
      SerialStep(h, replicas, ops, parts, i - 1);
    }
  }

  lemma {:induction false} Listed(names: set<string>) returns (list: seq<string>)
    ensures AsSet(list) == names
  {
    if names == {} {
      list := [];
    } else {
      var name :| name in names;
      var rest := Listed(names - {name});
      list := rest + [name];
      assert AsSet(list) == AsSet(rest) + {name};
    }
  }

  lemma OpHasTouches(call: nat, nodes: Nodes, op: Op) returns (touches: seq<Touch>)
    ensures IsOp(call, nodes, op, touches)
  {
    match op
    case AddBackend(b) => touches := [Touch(call, true, b)];
    case RemoveBackend(b) => touches := [Touch(call, false, b)];
    case UpdateBackends(bs) =>
      var removed := Listed(nodes.Values - AsSet(bs));
      touches := Adds(call, Surplus(nodes.Values, bs)) + Removes(call, removed);
  }

  /** Every run of the balancer is such operations on the ring. */
  lemma {:induction false} RunHasTouches(h: Hash, replicas: int, ops: seq<Op>) returns (parts: seq<seq<Touch>>)
    ensures IsSerial(h, replicas, ops, parts)
    ensures RingRun(h, replicas, map[], Joined(parts)) == Run(h, replicas, ops)
  {
    if ops == [] {
      parts := [];
    } else {
      var front, last := ops[..|ops| - 1], ops[|ops| - 1];
      var before := RunHasTouches(h, replicas, front);
      var touches := OpHasTouches(|front|, Run(h, replicas, front), last);
      parts := before + [touches];
      forall i | 0 <= i < |ops| ensures OpAt(h, replicas, ops, parts, i) {
        if i < |front| {
          assert OpAt(h, replicas, front, before, i);
          assert front[..i] == ops[..i];
        }
      }
    }
    SerialRun(h, replicas, ops, parts, |ops|);
    assert parts[..|ops|] == parts && ops[..|ops|] == ops;
  }

  /** The same for every run of the balancer. */
  lemma RunRemoveIsExactIff(h: Hash, replicas: int, ops: seq<Op>, parts: seq<seq<Touch>>, node: string)
    requires IsSerial(h, replicas, ops, parts)
    ensures var ring := Run(h, replicas, ops);
            Remove(h, replicas, ring, node) == Without(ring, node) <==> Untaken(h, replicas, Joined(parts), node)
  {
    SerialRun(h, replicas, ops, parts, |ops|);
    assert parts[..|ops|] == parts && ops[..|ops|] == ops;
    RemoveIsExactAfterIff(h, replicas, Joined(parts), node);
  }

  // ---------- overlapping updates ----------

  function LastOn(touches: seq<Touch>, name: string): (r: Option<Touch>)
    ensures r.Some? ==> r.value in touches && r.value.name == name
    ensures r.None? ==> forall t :: t in touches ==> t.name != name
  {
    if touches == [] then None
    else
      var front, last := touches[..|touches| - 1], touches[|touches| - 1];
      assert touches == front + [last];
      if last.name == name then Some(last) else LastOn(front, name)
  }

  function NamesAfter(names: set<string>, touches: seq<Touch>): set<string> {
    if touches == [] then names
    else
      var before, t := NamesAfter(names, touches[..|touches| - 1]), touches[|touches| - 1];
      if t.add then before + {t.name} else before - {t.name}
  }

  lemma {:induction false} NameStaysIff(names: set<string>, touches: seq<Touch>, name: string)
    ensures name in NamesAfter(names, touches)
       <==> match LastOn(touches, name)
            case None => name in names
            case Some(t) => t.add
  {
    if touches != [] {
      NameStaysIff(names, touches[..|touches| - 1], name);
    }
  }

  ghost predicate MentionedIn(touches: seq<Touch>, universe: set<string>) {
    forall t :: t in touches ==> t.name in universe
  }

  lemma {:induction false} RingRunIsPointMap(h: Hash, replicas: int, universe: set<string>, names: set<string>,
                                             nodes: Nodes, touches: seq<Touch>)
    requires CollisionFree(h, replicas, universe) && names <= universe && MentionedIn(touches, universe)
    requires IsPointMap(h, replicas, names, nodes)
    ensures NamesAfter(names, touches) <= universe
    ensures IsPointMap(h, replicas, NamesAfter(names, touches), RingRun(h, replicas, nodes, touches))
  {
    if touches != [] {
      var front, t := touches[..|touches| - 1], touches[|touches| - 1];
      assert t in touches && forall u :: u in front ==> u in touches;
      RingRunIsPointMap(h, replicas, universe, names, nodes, front);
      var before, ring := NamesAfter(names, front), RingRun(h, replicas, nodes, front);
      if t.add {
        assert before + {t.name} <= universe;
        PointMapAdd(h, replicas, before, ring, t.name);
      } else {
        RemoveIsRemoveAll(h, replicas, ring, t.name);
        PointMapRemoveAll(h, replicas, universe, before, ring, {t.name});
      }
    }
  }

  /** The touches of one call among those of several, in order. */
  function Own(touches: seq<Touch>, call: nat): (own: seq<Touch>)
    ensures forall t :: t in own <==> t in touches && t.call == call
  {
    if touches == [] then []
    else
      var front, last := touches[..|touches| - 1], touches[|touches| - 1];
      assert touches == front + [last];
      if last.call == call then Own(front, call) + [last] else Own(front, call)
  }

  /** Wherever another call touched a name last, it left it as the list has it. */
  ghost predicate Undisturbed(touches: seq<Touch>, call: nat, backends: seq<string>) {
    forall name :: var last := LastOn(touches, name);
      last.Some? && last.value.call != call ==> (last.value.add <==> name in backends)
  }

  lemma UpdateTouches(call: nat, current: set<string>, backends: seq<string>, own: seq<Touch>, name: string)
    requires IsUpdate(call, current, backends, own)
    ensures Touch(call, true, name) in own ==> name in backends
    ensures Touch(call, false, name) in own ==> name in current && name !in backends
    ensures name in backends && name !in current ==> Touch(call, true, name) in own
    ensures name in current && name !in backends ==> Touch(call, false, name) in own
  {
    var removed :| AsSet(removed) == current - AsSet(backends)
                && own == Adds(call, Surplus(current, backends)) + Removes(call, removed);
    var added := Surplus(current, backends);
    AddsAre(call, added, name);
    RemovesAre(call, removed, name);
    assert name in backends <==> name in AsSet(backends);
    assert name in added <==> name in AsSet(added);
    assert name in removed <==> name in AsSet(removed);
    assert forall t :: t in own <==> t in Adds(call, added) || t in Removes(call, removed);
  }

  lemma AddsAre(call: nat, names: seq<string>, name: string)
    ensures Touch(call, true, name) in Adds(call, names) <==> name in names
    ensures Touch(call, false, name) !in Adds(call, names)
  {
    if name in names {
      var i :| 0 <= i < |names| && names[i] == name;
      assert Adds(call, names)[i] == Touch(call, true, name);
    }
  }

  lemma RemovesAre(call: nat, names: seq<string>, name: string)
    ensures Touch(call, false, name) in Removes(call, names) <==> name in names
    ensures Touch(call, true, name) !in Removes(call, names)
  {
    if name in names {
      var i :| 0 <= i < |names| && names[i] == name;
      assert Removes(call, names)[i] == Touch(call, false, name);
    }
  }

  /** Where the update had the last word, or nobody had one, the name is as the list
      has it. */
  lemma NameAsListed(current: set<string>, touches: seq<Touch>, call: nat, backends: seq<string>, name: string)
    requires IsUpdate(call, current, backends, Own(touches, call))
    ensures var last := LastOn(touches, name);
            (name in NamesAfter(current, touches) <==> name in backends)
            <==> (last.Some? && last.value.call != call ==> (last.value.add <==> name in backends))
  {
    NameStaysIff(current, touches, name);
    UpdateTouches(call, current, backends, Own(touches, call), name);
    var last := LastOn(touches, name);
    if last.Some? && last.value.call == call {
      assert last.value in Own(touches, call);
      assert last.value == Touch(call, last.value.add, name);
    }
  }

  lemma NamesAsListedIff(current: set<string>, touches: seq<Touch>, call: nat, backends: seq<string>)
    requires IsUpdate(call, current, backends, Own(touches, call))
    ensures NamesAfter(current, touches) == AsSet(backends) <==> Undisturbed(touches, call, backends)
  {
    var after := NamesAfter(current, touches);
    forall name
      ensures var last := LastOn(touches, name);
              (name in after <==> name in AsSet(backends))
              <==> (last.Some? && last.value.call != call ==> (last.value.add <==> name in backends))
    {
      NameAsListed(current, touches, call, backends, name);
    }
    if after == AsSet(backends) {
      forall name ensures var last := LastOn(touches, name);
        last.Some? && last.value.call != call ==> (last.value.add <==> name in backends)
      {
        assert name in after <==> name in AsSet(backends);
      }
    }
  }

  /** An update holds no lock across its ring operations. On a collision-free hash it
      leaves, among the operations of any other calls that overlap it, what a fresh
      build of its list gives exactly when every name that another call touched last
      was left as the list has it; so it does when no call overlaps it. */
  lemma UpdateIsRebuildIff(h: Hash, replicas: int, universe: set<string>, current: set<string>, nodes: Nodes,
                           touches: seq<Touch>, call: nat, backends: seq<string>)
    requires replicas > 0 && CollisionFree(h, replicas, universe) && MentionedIn(touches, universe)
    requires current + AsSet(backends) <= universe && IsPointMap(h, replicas, current, nodes)
    requires IsUpdate(call, current, backends, Own(touches, call))
    ensures RingRun(h, replicas, nodes, touches) == AddAll(h, replicas, map[], backends)
       <==> Undisturbed(touches, call, backends)
  {
    RingRunIsPointMap(h, replicas, universe, current, nodes, touches);
    assert {} + AsSet(backends) == AsSet(backends);
    PointMapAddAll(h, replicas, {}, map[], backends);
    PointMapValues(h, replicas, NamesAfter(current, touches), RingRun(h, replicas, nodes, touches));
    PointMapValues(h, replicas, AsSet(backends), AddAll(h, replicas, map[], backends));
    if NamesAfter(current, touches) == AsSet(backends) {
      PointMapIsUnique(h, replicas, AsSet(backends), RingRun(h, replicas, nodes, touches),
                       AddAll(h, replicas, map[], backends));
    }
    NamesAsListedIff(current, touches, call, backends);
  }

  function TwoUpdates(a: string, b: string): seq<Touch> {
    [Touch(0, true, a), Touch(1, true, b)]
  }

  lemma OneNameUpdate(call: nat, name: string)
    ensures IsUpdate(call, {}, [name], [Touch(call, true, name)])
  {
    assert [name][..0] == [];
    assert Surplus({}, [name]) == [name];
    assert AsSet([]) == {} - AsSet([name]);
    assert [Touch(call, true, name)] == Adds(call, [name]) + Removes(call, []);
  }

  lemma TwoUpdatesAre(a: string, b: string)
    ensures IsUpdate(0, {}, [a], Own(TwoUpdates(a, b), 0)) && IsUpdate(1, {}, [b], Own(TwoUpdates(a, b), 1))
  {
    var both, one := TwoUpdates(a, b), [Touch(0, true, a)];
    assert both[..1] == one && one[..0] == [];
    assert Own(one, 0) == Own([], 0) + one && Own(one, 1) == Own([], 1);
    assert Own(both, 0) == one && Own(both, 1) == [Touch(1, true, b)];
    OneNameUpdate(0, a);
    OneNameUpdate(1, b);
  }

  lemma TwoUpdatesLeave(h: Hash, replicas: int, a: string, b: string)
    ensures RingRun(h, replicas, map[], TwoUpdates(a, b)) == AddAll(h, replicas, map[], [a, b])
  {
    var first := Add(h, replicas, map[], a);
    var both, one, names, name := TwoUpdates(a, b), [Touch(0, true, a)], [a, b], [a];
    assert both[..1] == one && one[..0] == [] && names[..1] == name && name[..0] == [];
    assert RingRun(h, replicas, map[], one) == Touched(h, replicas, RingRun(h, replicas, map[], []), one[0]) == first;
    assert AddAll(h, replicas, map[], name) == Add(h, replicas, AddAll(h, replicas, map[], []), a) == first;
  }

  lemma TwoUpdatesDisturb(a: string, b: string)
    requires a != b
    ensures !Undisturbed(TwoUpdates(a, b), 0, [a]) && !Undisturbed(TwoUpdates(a, b), 1, [b])
  {
    var both, one := TwoUpdates(a, b), [Touch(0, true, a)];
    assert both[..1] == one;
    assert LastOn(both, b) == Some(Touch(1, true, b));
    assert LastOn(one, a) == Some(Touch(0, true, a)) && LastOn(both, a) == LastOn(one, a);
  }

  /** Two updates that both find the ring empty leave both lists in it, which is a
      rebuild of neither. */
  lemma OverlappingUpdatesMerge(h: Hash, replicas: int, a: string, b: string)
    requires replicas > 0 && a != b && CollisionFree(h, replicas, {a, b})
    ensures IsUpdate(0, {}, [a], Own(TwoUpdates(a, b), 0)) && IsUpdate(1, {}, [b], Own(TwoUpdates(a, b), 1))
    ensures var ring := RingRun(h, replicas, map[], TwoUpdates(a, b));
            && ring == AddAll(h, replicas, map[], [a, b])
            && ring != AddAll(h, replicas, map[], [a]) && ring != AddAll(h, replicas, map[], [b])
  {
    TwoUpdatesAre(a, b);
    TwoUpdatesLeave(h, replicas, a, b);
    TwoUpdatesDisturb(a, b);
    UpdateIsRebuildIff(h, replicas, {a, b}, {}, map[], TwoUpdates(a, b), 0, [a]);
    UpdateIsRebuildIff(h, replicas, {a, b}, {}, map[], TwoUpdates(a, b), 1, [b]);
  }
}
