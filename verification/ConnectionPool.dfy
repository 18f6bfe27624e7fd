/** The TCP connection pool: per host, a stack of idle connections and a count of
    the connections lent out. Connections are known by an identity, and host pools
    by their place in a list, since a call keeps the host pool it looked up while
    other calls run. */
module ConnectionPool {
  import opened Wrappers

  type Conn = nat

  datatype PoolError = Exhausted | DialFailed | CloseFailed | ExcessCloseFailed

  /** `capacity` is that of the idle slice, fixed when the host is first used and
      zero once the pool was closed. */
  datatype Host = Host(idle: seq<Conn>, capacity: nat, active: int, maxConns: int)

  function NewHost(maxConns: nat): Host {
    Host([], maxConns, 0, maxConns)
  }

  function ClosedHost(h: Host): Host {
    h.(idle := [], capacity := 0)
  }

  /** The locked part of GetConnection. `dialed` is the connection a dial would
      yield, if it succeeds. */
  function Acquire(h: Host, dialed: Option<Conn>): (Host, Result<Conn, PoolError>) {
    if |h.idle| > 0 then
      (h.(idle := h.idle[..|h.idle| - 1], active := h.active + 1), Success(h.idle[|h.idle| - 1]))
    else if h.active >= h.maxConns then (h, Failure(Exhausted))
    else match dialed
         case None => (h, Failure(DialFailed))
         case Some(conn) => (h.(active := h.active + 1), Success(conn))
  }

  /** The locked part of ReleaseConnection, and whether the connection is closed as
      an excess one. */
  function Release(h: Host, conn: Conn): (Host, bool) {
    var less := h.(active := h.active - 1);
    if |h.idle| < h.capacity then (less.(idle := h.idle + [conn]), false) else (less, true)
  }

  /** Every host pool ever made, and which of them each address has now. */
  datatype Pools = Pools(hosts: seq<Host>, current: map<string, nat>)
  {
    ghost predicate Valid() {
      && (forall a :: a in current ==> current[a] < |hosts|)
      && (forall a, b :: a in current && b in current && current[a] == current[b] ==> a == b)
    }

    function Of(address: string): Host
      requires Valid() && address in current
    {
      hosts[current[address]]
    }

    function With(i: nat, h: Host): Pools
      requires i < |hosts|
    {
      this.(hosts := hosts[i := h])
    }

    function Opened(maxConns: nat, address: string): Pools {
      if address in current then this
      else Pools(hosts + [NewHost(maxConns)], current[address := |hosts|])
    }

    function Emptied(): Pools {
      Pools(seq(|hosts|, i requires 0 <= i < |hosts| =>
                  if i in current.Values then ClosedHost(hosts[i]) else hosts[i]), map[])
    }
  }

  // ---------- runs ----------

  /** A Get that has looked up its host pool, and a Release that has. */
  datatype Wait = Wait(address: string, pool: nat)
  datatype Return = Return(conn: Conn, pool: nat)

  /** `lent` tells to which host each borrowed connection belongs. */
  datatype World = World(pools: Pools, waiting: map<nat, Wait>, returning: map<nat, Return>,
                         lent: map<Conn, string>, dialed: set<Conn>)
  {
    ghost predicate Valid() {
      && pools.Valid()
      && (forall id :: id in waiting ==> waiting[id].pool < |pools.hosts|)
      && (forall id :: id in returning ==> returning[id].pool < |pools.hosts|)
    }
  }

  const START: World := World(Pools([], map[]), map[], map[], map[], {})

  /** One locked section: the two of a Get, the two of a Release, and Close. */
  datatype Action =
    | LookUp(id: nat, address: string)
    | Get(id: nat, dial: Option<Conn>)
    | Find(id: nat, conn: Conn, address: string)
    | Put(id: nat)
    | Close

  /** What can run: a call's sections in order, and dials that give new connections. */
  predicate Possible(w: World, action: Action) {
    match action
    case LookUp(id, _) => id !in w.waiting
    case Get(id, dial) => id in w.waiting && (dial.Some? ==> dial.value !in w.dialed)
    case Find(id, conn, _) => id !in w.returning
    case Put(id) => id in w.returning
    case Close => true
  }

  /** What callers must respect: only a borrowed connection is returned, to its host
      and once, and Close runs with nothing lent and no Get under way. */
  ghost predicate Careful(w: World, action: Action) {
    match action
    case Find(_, conn, address) =>
      && conn in w.lent && w.lent[conn] == address
      && forall id :: id in w.returning ==> w.returning[id].conn != conn
    case Close => w.lent == map[] && w.waiting == map[]
    case _ => true
  }

  /** What the second section of a Get returns. */
  function Handed(w: World, id: nat, dial: Option<Conn>): Result<Conn, PoolError>
    requires w.Valid() && id in w.waiting
  {
    Acquire(w.pools.hosts[w.waiting[id].pool], dial).1
  }

  function Do(maxConns: nat, w: World, action: Action): (w': World)
    requires w.Valid() && Possible(w, action)
    ensures w'.Valid()
  {
    match action
    case LookUp(id, address) =>
      var pools := w.pools.Opened(maxConns, address);
      w.(pools := pools, waiting := w.waiting[id := Wait(address, pools.current[address])])
    case Get(id, dial) =>
      var i := w.waiting[id].pool;
      var pools, waiting := w.pools.With(i, Acquire(w.pools.hosts[i], dial).0), w.waiting - {id};
      (match Handed(w, id, dial)
       case Failure(_) => w.(pools := pools, waiting := waiting)
       case Success(conn) =>
         w.(pools := pools, waiting := waiting, lent := w.lent[conn := w.waiting[id].address],
            dialed := w.dialed + {conn}))
    case Find(id, conn, address) =>
      if address in w.pools.current
      then w.(returning := w.returning[id := Return(conn, w.pools.current[address])])
      else w.(lent := w.lent - {conn})
    case Put(id) =>
      var Return(conn, i) := w.returning[id];
      w.(pools := w.pools.With(i, Release(w.pools.hosts[i], conn).0), returning := w.returning - {id},
         lent := w.lent - {conn})
    case Close => w.(pools := w.pools.Emptied())
  }

  ghost predicate IsRun(maxConns: nat, start: World, actions: seq<Action>, worlds: seq<World>) {
    && |worlds| == |actions| + 1 && worlds[0] == start
    && forall i :: 0 <= i < |actions| ==> DoneAt(maxConns, actions, worlds, i)
  }

  ghost predicate DoneAt(maxConns: nat, actions: seq<Action>, worlds: seq<World>, i: nat)
    requires i < |actions| && |worlds| == |actions| + 1
  {
    worlds[i].Valid() && Possible(worlds[i], actions[i]) && worlds[i + 1] == Do(maxConns, worlds[i], actions[i])
  }

  ghost predicate IsCarefulRun(maxConns: nat, start: World, actions: seq<Action>, worlds: seq<World>) {
    && IsRun(maxConns, start, actions, worlds)
    && forall i :: 0 <= i < |actions| ==> Careful(worlds[i], actions[i])
  }

  // ---------- conservation and exclusivity ----------

  ghost function LentTo(lent: map<Conn, string>, address: string): set<Conn> {
    set c | c in lent && lent[c] == address
  }

  ghost predicate Distinct(s: seq<Conn>) {
    forall i, j :: 0 <= i < j < |s| ==> s[i] != s[j]
  }

  /** One host: as many active as lent, within the limit, and its idle connections
      distinct, known and not lent. */
  ghost predicate HostSound(maxConns: nat, h: Host, address: string, lent: map<Conn, string>, dialed: set<Conn>) {
    && h.maxConns == h.capacity == maxConns
    && h.active == |LentTo(lent, address)|
    && |h.idle| + h.active <= maxConns
    && Distinct(h.idle)
    && forall c :: c in h.idle ==> c in dialed && c !in lent
  }

  ghost predicate HostsSound(maxConns: nat, w: World)
    requires w.pools.Valid()
  {
    forall a :: a in w.pools.current ==> HostSound(maxConns, w.pools.Of(a), a, w.lent, w.dialed)
  }

  /** No connection is idle at two hosts. */
  ghost predicate Apart(p: Pools)
    requires p.Valid()
  {
    forall a, b, c :: a in p.current && b in p.current && c in p.Of(a).idle && c in p.Of(b).idle ==> a == b
  }

  ghost predicate Conserved(maxConns: nat, w: World) {
    w.pools.Valid() && HostsSound(maxConns, w) && Apart(w.pools)
  }

  ghost predicate LoansLinked(p: Pools, lent: map<Conn, string>, dialed: set<Conn>) {
    forall c :: c in lent ==> c in dialed && lent[c] in p.current
  }

  ghost predicate WaitsLinked(p: Pools, waiting: map<nat, Wait>) {
    forall id :: id in waiting ==>
      waiting[id].address in p.current && waiting[id].pool == p.current[waiting[id].address]
  }

  ghost predicate ReturnLinked(p: Pools, lent: map<Conn, string>, r: Return) {
    r.conn in lent && lent[r.conn] in p.current && r.pool == p.current[lent[r.conn]]
  }

  ghost predicate ReturnsLinked(p: Pools, lent: map<Conn, string>, returning: map<nat, Return>) {
    && (forall id :: id in returning ==> ReturnLinked(p, lent, returning[id]))
    && (forall i, j :: i in returning && j in returning && returning[i].conn == returning[j].conn ==> i == j)
  }

  /** Loans and calls under way are known and belong to the host pools in use. */
  ghost predicate Linked(w: World) {
    && LoansLinked(w.pools, w.lent, w.dialed) && WaitsLinked(w.pools, w.waiting)
    && ReturnsLinked(w.pools, w.lent, w.returning)
  }

  ghost predicate Sound(maxConns: nat, w: World) {
    w.Valid() && Conserved(maxConns, w) && Linked(w)
  }

  lemma LendOne(lent: map<Conn, string>, conn: Conn, address: string, other: string)
    requires conn !in lent
    ensures |LentTo(lent[conn := address], other)| == |LentTo(lent, other)| + if other == address then 1 else 0
  {
    if other == address {
      assert LentTo(lent[conn := address], other) == LentTo(lent, other) + {conn};
    } else {
      assert LentTo(lent[conn := address], other) == LentTo(lent, other);
    }
  }

  lemma ReturnOne(lent: map<Conn, string>, conn: Conn, other: string)
    requires conn in lent
    ensures |LentTo(lent - {conn}, other)| == |LentTo(lent, other)| - if other == lent[conn] then 1 else 0
  {
    if other == lent[conn] {
      assert LentTo(lent, other) == LentTo(lent - {conn}, other) + {conn};
    } else {
      assert LentTo(lent - {conn}, other) == LentTo(lent, other);
    }
  }

  /** What a successful Get hands out was free: not lent, and idle nowhere after. */
  lemma GetHandsOutFree(maxConns: nat, w: World, id: nat, dial: Option<Conn>)
    requires Sound(maxConns, w) && Possible(w, Get(id, dial)) && Handed(w, id, dial).Success?
    ensures var conn := Handed(w, id, dial).value;
            && conn !in w.lent
            && forall a :: a in w.pools.current ==> conn !in Do(maxConns, w, Get(id, dial)).pools.Of(a).idle
  {
    var address, conn := w.waiting[id].address, Handed(w, id, dial).value;
    assert HostSound(maxConns, w.pools.Of(address), address, w.lent, w.dialed);
    forall a | a in w.pools.current ensures conn !in Do(maxConns, w, Get(id, dial)).pools.Of(a).idle {
      assert HostSound(maxConns, w.pools.Of(a), a, w.lent, w.dialed);
    }
  }

  lemma AcquireKeepsSound(maxConns: nat, h: Host, address: string, lent: map<Conn, string>, dialed: set<Conn>,
                          dial: Option<Conn>)
    requires HostSound(maxConns, h, address, lent, dialed) && (dial.Some? ==> dial.value !in dialed)
    requires forall c :: c in lent ==> c in dialed
    ensures var (h', r) := Acquire(h, dial);
            match r
            case Failure(_) => h' == h
            case Success(conn) => HostSound(maxConns, h', address, lent[conn := address], dialed + {conn})
  {
    var r := Acquire(h, dial).1;
    if r.Success? {
      LendOne(lent, r.value, address, address);
    }
  }

  lemma OtherKeepsSound(maxConns: nat, h: Host, a: string, lent: map<Conn, string>, dialed: set<Conn>,
                        conn: Conn, address: string)
    requires HostSound(maxConns, h, a, lent, dialed) && a != address && conn !in h.idle && conn !in lent
    ensures HostSound(maxConns, h, a, lent[conn := address], dialed + {conn})
  {
    LendOne(lent, conn, address, a);
  }

  lemma GetKeepsHostsSound(maxConns: nat, w: World, id: nat, dial: Option<Conn>)
    requires Sound(maxConns, w) && Possible(w, Get(id, dial))
    ensures HostsSound(maxConns, Do(maxConns, w, Get(id, dial)))
  {
    var w', address := Do(maxConns, w, Get(id, dial)), w.waiting[id].address;
    forall a | a in w'.pools.current ensures HostSound(maxConns, w'.pools.Of(a), a, w'.lent, w'.dialed) {
      assert HostSound(maxConns, w.pools.Of(a), a, w.lent, w.dialed);
      if a == address {
        AcquireKeepsSound(maxConns, w.pools.Of(a), a, w.lent, w.dialed, dial);
      } else if Handed(w, id, dial).Success? {
        GetHandsOutFree(maxConns, w, id, dial);
        OtherKeepsSound(maxConns, w.pools.Of(a), a, w.lent, w.dialed, Handed(w, id, dial).value, address);
      }
    }
  }

  /** Hosts whose idle connections were theirs before stay apart. */
  lemma ShrunkStayApart(p: Pools, p': Pools)
    requires p.Valid() && p'.Valid() && p'.current == p.current && Apart(p)
    requires forall a, c :: a in p'.current && c in p'.Of(a).idle ==> c in p.Of(a).idle
    ensures Apart(p')
  {
    forall a, b, c | a in p'.current && b in p'.current && c in p'.Of(a).idle && c in p'.Of(b).idle ensures a == b {
      assert c in p.Of(a).idle && c in p.Of(b).idle;
    }
  }

  lemma AcquireShrinks(h: Host, dial: Option<Conn>, c: Conn)
    ensures c in Acquire(h, dial).0.idle ==> c in h.idle
  {
  }

  lemma GetKeepsApart(maxConns: nat, w: World, id: nat, dial: Option<Conn>)
    requires w.Valid() && Apart(w.pools) && Possible(w, Get(id, dial))
    ensures Apart(Do(maxConns, w, Get(id, dial)).pools)
  {
    var p, p', i := w.pools, Do(maxConns, w, Get(id, dial)).pools, w.waiting[id].pool;
    forall a, c | a in p'.current && c in p'.Of(a).idle ensures c in p.Of(a).idle {
      AcquireShrinks(p.hosts[i], dial, c);
      assert p'.Of(a) == if p.current[a] == i then Acquire(p.hosts[i], dial).0 else p.Of(a);
    }
    ShrunkStayApart(p, p');
  }

  lemma LendKeepsReturnsLinked(p: Pools, p': Pools, lent: map<Conn, string>, returning: map<nat, Return>,
                               conn: Conn, address: string)
    requires ReturnsLinked(p, lent, returning) && p'.current == p.current && conn !in lent
    ensures ReturnsLinked(p', lent[conn := address], returning)
  {
    forall id | id in returning ensures ReturnLinked(p', lent[conn := address], returning[id]) {
      assert ReturnLinked(p, lent, returning[id]);
    }
  }

  lemma GetKeepsWaitsLinked(p: Pools, p': Pools, waiting: map<nat, Wait>, id: nat)
    requires WaitsLinked(p, waiting) && p'.current == p.current
    ensures WaitsLinked(p', waiting - {id})
  {
  }

  lemma GetKeepsLinked(maxConns: nat, w: World, id: nat, dial: Option<Conn>)
    requires Sound(maxConns, w) && Possible(w, Get(id, dial))
    ensures Linked(Do(maxConns, w, Get(id, dial)))
  {
    var p' := Do(maxConns, w, Get(id, dial)).pools;
    GetKeepsWaitsLinked(w.pools, p', w.waiting, id);
    if Handed(w, id, dial).Success? {
      GetHandsOutFree(maxConns, w, id, dial);
      LendKeepsReturnsLinked(w.pools, p', w.lent, w.returning, Handed(w, id, dial).value, w.waiting[id].address);
    }
  }

  /** A returned connection always finds room: the excess branch is never taken. */
  lemma PutHasRoom(maxConns: nat, w: World, id: nat)
    requires Sound(maxConns, w) && Possible(w, Put(id))
    ensures !Release(w.pools.hosts[w.returning[id].pool], w.returning[id].conn).1
  {
    var conn := w.returning[id].conn;
    assert ReturnLinked(w.pools, w.lent, w.returning[id]);
    assert HostSound(maxConns, w.pools.Of(w.lent[conn]), w.lent[conn], w.lent, w.dialed);
    assert conn in LentTo(w.lent, w.lent[conn]);
    assert LentTo(w.lent, w.lent[conn]) != {};
  }

  lemma ReleaseKeepsSound(maxConns: nat, h: Host, a: string, lent: map<Conn, string>, dialed: set<Conn>, conn: Conn)
    requires HostSound(maxConns, h, a, lent, dialed) && conn in lent && conn in dialed
    ensures conn !in h.idle
    ensures HostSound(maxConns, if lent[conn] == a then Release(h, conn).0 else h, a, lent - {conn}, dialed)
  {
    ReturnOne(lent, conn, a);
    if lent[conn] == a {
      assert conn in LentTo(lent, a);
      assert LentTo(lent, a) != {};
    }
  }

  lemma PutKeepsHostsSound(maxConns: nat, w: World, id: nat)
    requires Sound(maxConns, w) && Possible(w, Put(id))
    ensures HostsSound(maxConns, Do(maxConns, w, Put(id)))
  {
    var w', conn := Do(maxConns, w, Put(id)), w.returning[id].conn;
    assert ReturnLinked(w.pools, w.lent, w.returning[id]);
    forall a | a in w'.pools.current ensures HostSound(maxConns, w'.pools.Of(a), a, w'.lent, w'.dialed) {
      assert HostSound(maxConns, w.pools.Of(a), a, w.lent, w.dialed);
      ReleaseKeepsSound(maxConns, w.pools.Of(a), a, w.lent, w.dialed, conn);
    }
  }

  /** Hosts stay apart when one of them gains a connection that was idle nowhere. */
  lemma GrownStayApart(p: Pools, p': Pools, conn: Conn, owner: string)
    requires p.Valid() && p'.Valid() && p'.current == p.current && Apart(p)
    requires forall a :: a in p.current ==> conn !in p.Of(a).idle
    requires forall a, c :: a in p'.current && c in p'.Of(a).idle ==>
               if c == conn then a == owner else c in p.Of(a).idle
    ensures Apart(p')
  {
    forall a, b, c | a in p'.current && b in p'.current && c in p'.Of(a).idle && c in p'.Of(b).idle ensures a == b {
      if c != conn { assert c in p.Of(a).idle && c in p.Of(b).idle; }
    }
  }

  lemma ReleaseGrows(h: Host, conn: Conn, c: Conn)
    ensures c in Release(h, conn).0.idle ==> c == conn || c in h.idle
  {
  }

  lemma PutKeepsApart(maxConns: nat, w: World, id: nat)
    requires Sound(maxConns, w) && Possible(w, Put(id))
    ensures Apart(Do(maxConns, w, Put(id)).pools)
  {
    var p, p' := w.pools, Do(maxConns, w, Put(id)).pools;
    var Return(conn, i) := w.returning[id];
    assert ReturnLinked(p, w.lent, w.returning[id]);
    forall a | a in p.current ensures conn !in p.Of(a).idle {
      assert HostSound(maxConns, p.Of(a), a, w.lent, w.dialed);
    }
    forall a, c | a in p'.current && c in p'.Of(a).idle
      ensures if c == conn then a == w.lent[conn] else c in p.Of(a).idle
    {
      ReleaseGrows(p.hosts[i], conn, c);
      assert p'.Of(a) == if p.current[a] == i then Release(p.hosts[i], conn).0 else p.Of(a);
    }
    GrownStayApart(p, p', conn, w.lent[conn]);
  }

  lemma PutKeepsLinked(maxConns: nat, w: World, id: nat)
    requires Sound(maxConns, w) && Possible(w, Put(id))
    ensures Linked(Do(maxConns, w, Put(id)))
  {
    var w' := Do(maxConns, w, Put(id));
    forall i | i in w'.returning ensures ReturnLinked(w'.pools, w'.lent, w'.returning[i]) {
      assert ReturnLinked(w.pools, w.lent, w.returning[i]);
    }
  }

  lemma LookUpKeepsHostsSound(maxConns: nat, w: World, id: nat, address: string)
    requires Sound(maxConns, w) && Possible(w, LookUp(id, address))
    ensures HostsSound(maxConns, Do(maxConns, w, LookUp(id, address)))
  {
    var w' := Do(maxConns, w, LookUp(id, address));
    forall a | a in w'.pools.current ensures HostSound(maxConns, w'.pools.Of(a), a, w'.lent, w'.dialed) {
      if a in w.pools.current {
        assert HostSound(maxConns, w.pools.Of(a), a, w.lent, w.dialed);
      } else {
        assert LentTo(w.lent, a) == {};
      }
    }
  }

  lemma LookUpKeepsApart(maxConns: nat, p: Pools, address: string)
    requires p.Valid() && Apart(p)
    ensures Apart(p.Opened(maxConns, address))
  {
    var p' := p.Opened(maxConns, address);
    forall a, c | a in p'.current && c in p'.Of(a).idle ensures a in p.current && c in p.Of(a).idle {
    }
  }

  lemma LookUpKeepsLinked(maxConns: nat, w: World, id: nat, address: string)
    requires w.Valid() && Linked(w) && Possible(w, LookUp(id, address))
    ensures Linked(Do(maxConns, w, LookUp(id, address)))
  {
    var w' := Do(maxConns, w, LookUp(id, address));
    forall i | i in w'.returning ensures ReturnLinked(w'.pools, w'.lent, w'.returning[i]) {
      assert ReturnLinked(w.pools, w.lent, w.returning[i]);
    }
  }

  lemma FindKeepsSound(maxConns: nat, w: World, id: nat, conn: Conn, address: string)
    requires Sound(maxConns, w) && Possible(w, Find(id, conn, address)) && Careful(w, Find(id, conn, address))
    ensures Sound(maxConns, Do(maxConns, w, Find(id, conn, address)))
  {
    var w' := Do(maxConns, w, Find(id, conn, address));
    forall i | i in w'.returning ensures ReturnLinked(w'.pools, w'.lent, w'.returning[i]) {
      assert i != id ==> ReturnLinked(w.pools, w.lent, w.returning[i]);
    }
  }

  lemma CloseKeepsSound(maxConns: nat, w: World)
    requires Sound(maxConns, w) && Careful(w, Close)
    ensures Sound(maxConns, Do(maxConns, w, Close))
  {
    forall id ensures id !in w.returning {
      assert id in w.returning ==> ReturnLinked(w.pools, w.lent, w.returning[id]);
    }
  }

  lemma ActionKeepsSound(maxConns: nat, w: World, action: Action)
    requires Sound(maxConns, w) && Possible(w, action) && Careful(w, action)
    ensures Sound(maxConns, Do(maxConns, w, action))
  {
    match action
    case LookUp(id, address) =>
      LookUpKeepsHostsSound(maxConns, w, id, address);
      LookUpKeepsApart(maxConns, w.pools, address);
      LookUpKeepsLinked(maxConns, w, id, address);
    case Get(id, dial) =>
      GetKeepsHostsSound(maxConns, w, id, dial);
      GetKeepsApart(maxConns, w, id, dial);
      GetKeepsLinked(maxConns, w, id, dial);
    case Find(id, conn, address) => FindKeepsSound(maxConns, w, id, conn, address);
    case Put(id) =>
      PutKeepsHostsSound(maxConns, w, id);
      PutKeepsApart(maxConns, w, id);
      PutKeepsLinked(maxConns, w, id);
    case Close => CloseKeepsSound(maxConns, w);
  }

  lemma {:induction false} CarefulRunsStaySound(maxConns: nat, start: World, actions: seq<Action>, worlds: seq<World>,
                                                i: nat)
    requires Sound(maxConns, start) && IsCarefulRun(maxConns, start, actions, worlds) && i <= |actions|
    ensures Sound(maxConns, worlds[i])
  {
    if i > 0 {
      CarefulRunsStaySound(maxConns, start, actions, worlds, i - 1);
      assert DoneAt(maxConns, actions, worlds, i - 1);
      ActionKeepsSound(maxConns, worlds[i - 1], actions[i - 1]);
    }
  }

  /** In every interleaving in which callers behave, each host's count is its loans,
      idle and lent stay within the limit, and no connection is held twice. */
  lemma RunsConserve(maxConns: nat, actions: seq<Action>, worlds: seq<World>, i: nat)
    requires IsCarefulRun(maxConns, START, actions, worlds) && i <= |actions|
    ensures Sound(maxConns, worlds[i])
  {
    CarefulRunsStaySound(maxConns, START, actions, worlds, i);
  }

  // ---------- what a Get returns and what a Release keeps ----------

  lemma LoansAndIdle(maxConns: nat, w: World, address: string)
    requires Sound(maxConns, w) && address in w.pools.current
    ensures |LentTo(w.lent, address)| + |w.pools.Of(address).idle| <= maxConns
    ensures w.pools.Of(address).active == |LentTo(w.lent, address)| && w.pools.Of(address).maxConns == maxConns
  {
    assert HostSound(maxConns, w.pools.Of(address), address, w.lent, w.dialed);
  }

  /** After every careful run, a Get that has looked up its host fails as exhausted
      exactly when the loans to its address are as many as the limit; with fewer, it
      hands out the last idle connection if there is one, else the one the dial gives,
      and fails as the dial does exactly when nothing is idle and the dial fails. */
  lemma GetOutcome(maxConns: nat, actions: seq<Action>, worlds: seq<World>, id: nat, dial: Option<Conn>)
    requires IsCarefulRun(maxConns, START, actions, worlds) && id in worlds[|actions|].waiting
    ensures var w := worlds[|actions|];
            && w.Valid() && w.waiting[id].address in w.pools.current
            && var r, loans := Handed(w, id, dial), |LentTo(w.lent, w.waiting[id].address)|;
               var idle := w.pools.Of(w.waiting[id].address).idle;
               && loans <= maxConns
               && (r == Failure(Exhausted) <==> loans == maxConns)
               && (r == Failure(DialFailed) <==> loans < maxConns && idle == [] && dial == None)
               && (loans < maxConns && idle != [] ==> r == Success(idle[|idle| - 1]))
               && (loans < maxConns && idle == [] && dial.Some? ==> r == Success(dial.value))
  {
    RunsConserve(maxConns, actions, worlds, |actions|);
    var w := worlds[|actions|];
    LoansAndIdle(maxConns, w, w.waiting[id].address);
  }

  /** A Get that takes an idle connection leaves the others as they lay, one that does
      not leaves all of them, and a connection handed out is lent to the address. */
  lemma GetTakesTop(maxConns: nat, actions: seq<Action>, worlds: seq<World>, id: nat, dial: Option<Conn>)
    requires IsCarefulRun(maxConns, START, actions, worlds) && Possible(worlds[|actions|], Get(id, dial))
    ensures var w := worlds[|actions|];
            && w.Valid() && w.waiting[id].address in w.pools.current
            && var w', address, r := Do(maxConns, w, Get(id, dial)), w.waiting[id].address, Handed(w, id, dial);
               var idle := w.pools.Of(address).idle;
               && w'.pools.current == w.pools.current
               && w'.pools.Of(address).idle == (if idle == [] then [] else idle[..|idle| - 1])
               && w'.lent == (if r.Success? then w.lent[r.value := address] else w.lent)
               && (idle != [] ==> r.Success?)
  {
    RunsConserve(maxConns, actions, worlds, |actions|);
  }

  /** A careful Release puts the connection on top of its host's idle ones, and ends
      its loan. */
  lemma PutIsOnTop(maxConns: nat, actions: seq<Action>, worlds: seq<World>, id: nat)
    requires IsCarefulRun(maxConns, START, actions, worlds) && id in worlds[|actions|].returning
    ensures var w := worlds[|actions|];
            && w.Valid() && w.returning[id].conn in w.lent && w.lent[w.returning[id].conn] in w.pools.current
            && var conn, address := w.returning[id].conn, w.lent[w.returning[id].conn];
               var w' := Do(maxConns, w, Put(id));
               && w'.pools.current == w.pools.current
               && w'.pools.Of(address).idle == w.pools.Of(address).idle + [conn]
               && w'.lent == w.lent - {conn}
  {
    RunsConserve(maxConns, actions, worlds, |actions|);
    var w := worlds[|actions|];
    assert ReturnLinked(w.pools, w.lent, w.returning[id]);
    PutHasRoom(maxConns, w, id);
  }

  ghost predicate IdleSomewhere(p: Pools, conn: Conn)
    requires p.Valid()
  {
    exists a :: a in p.current && conn in p.Of(a).idle
  }

  /** Every connection ever dialed is lent or idle. */
  ghost predicate NoneLost(w: World)
    requires w.pools.Valid()
  {
    forall c :: c in w.dialed ==> c in w.lent || IdleSomewhere(w.pools, c)
  }

  lemma StaysIdle(p: Pools, p': Pools, conn: Conn)
    requires p.Valid() && p'.Valid() && IdleSomewhere(p, conn)
    requires forall a :: a in p.current && conn in p.Of(a).idle ==> a in p'.current && conn in p'.Of(a).idle
    ensures IdleSomewhere(p', conn)
  {
    var a :| a in p.current && conn in p.Of(a).idle;
    assert a in p'.current && conn in p'.Of(a).idle;
  }

  lemma AcquireTakesOne(h: Host, dial: Option<Conn>, c: Conn)
    requires c in h.idle && Acquire(h, dial).1 != Success(c)
    ensures c in Acquire(h, dial).0.idle
  {
    var last := |h.idle| - 1;
    assert h.idle == h.idle[..last] + [h.idle[last]];
  }

  lemma GetLosesNone(maxConns: nat, w: World, id: nat, dial: Option<Conn>)
    requires Sound(maxConns, w) && NoneLost(w) && Possible(w, Get(id, dial))
    ensures NoneLost(Do(maxConns, w, Get(id, dial)))
  {
    var w', i := Do(maxConns, w, Get(id, dial)), w.waiting[id].pool;
    forall c | c in w'.dialed && c !in w'.lent ensures IdleSomewhere(w'.pools, c) {
      assert c in w.dialed && c !in w.lent && Handed(w, id, dial) != Success(c);
      forall a | a in w.pools.current && c in w.pools.Of(a).idle ensures c in w'.pools.Of(a).idle {
        if w.pools.current[a] == i {
          AcquireTakesOne(w.pools.hosts[i], dial, c);
        }
      }
      StaysIdle(w.pools, w'.pools, c);
    }
  }

  lemma PutLosesNone(maxConns: nat, w: World, id: nat)
    requires Sound(maxConns, w) && NoneLost(w) && Possible(w, Put(id))
    ensures NoneLost(Do(maxConns, w, Put(id)))
  {
    var w' := Do(maxConns, w, Put(id));
    var Return(conn, i) := w.returning[id];
    assert ReturnLinked(w.pools, w.lent, w.returning[id]);
    PutHasRoom(maxConns, w, id);
    forall c | c in w'.dialed && c !in w'.lent ensures IdleSomewhere(w'.pools, c) {
      if c == conn {
        assert conn in w'.pools.Of(w.lent[conn]).idle;
      } else {
        StaysIdle(w.pools, w'.pools, c);
      }
    }
  }

  lemma ActionLosesNone(maxConns: nat, w: World, action: Action)
    requires Sound(maxConns, w) && NoneLost(w) && Possible(w, action) && Careful(w, action) && !action.Close?
    ensures NoneLost(Do(maxConns, w, action))
  {
    match action
    case LookUp(id, address) =>
      var w' := Do(maxConns, w, action);
      forall c | c in w'.dialed && c !in w'.lent ensures IdleSomewhere(w'.pools, c) {
        StaysIdle(w.pools, w'.pools, c);
      }
    case Get(id, dial) => GetLosesNone(maxConns, w, id, dial);
    case Find(id, conn, address) => assert address in w.pools.current;
    case Put(id) => PutLosesNone(maxConns, w, id);
  }

  /** In every careful run that has not closed the pool, each connection ever dialed is
      lent or idle: none is lost. */
  lemma {:induction false} RunsLoseNone(maxConns: nat, actions: seq<Action>, worlds: seq<World>, i: nat)
    requires IsCarefulRun(maxConns, START, actions, worlds) && i <= |actions|
    requires forall j :: 0 <= j < i ==> !actions[j].Close?
    ensures worlds[i].Valid() && NoneLost(worlds[i])
  {
    RunsConserve(maxConns, actions, worlds, i);
    if i > 0 {
      RunsLoseNone(maxConns, actions, worlds, i - 1);
      RunsConserve(maxConns, actions, worlds, i - 1);
      assert DoneAt(maxConns, actions, worlds, i - 1);
      ActionLosesNone(maxConns, worlds[i - 1], actions[i - 1]);
    }
  }

  // ---------- when Close is safe ----------

  ghost predicate AlwaysConserved(maxConns: nat, w: World) {
    forall actions, worlds :: IsCarefulRun(maxConns, w, actions, worlds) ==> Conserved(maxConns, worlds[|actions|])
  }

  lemma {:induction false} Fresh(used: set<nat>) returns (n: nat)
    ensures n !in used && forall u :: u in used ==> u < n
  {
    if used == {} {
      n := 0;
    } else {
      var u :| u in used;
      var m := Fresh(used - {u});
      n := if u < m then m else u + 1;
      assert forall v :: v in used ==> v == u || v in used - {u};
    }
  }

  /** A limit of zero: nothing is ever dialed. */
  ghost predicate Barren(w: World) {
    && w.Valid() && w.lent == map[] && w.returning == map[]
    && forall i :: 0 <= i < |w.pools.hosts| ==> w.pools.hosts[i] == NewHost(0)
  }

  lemma BarrenStays(w: World, action: Action)
    requires Barren(w) && Possible(w, action) && (Careful(w, action) || action.Close?)
    ensures Barren(Do(0, w, action)) && Conserved(0, Do(0, w, action))
  {
    var w' := Do(0, w, action);
    forall a | a in w'.pools.current ensures HostSound(0, w'.pools.Of(a), a, w'.lent, w'.dialed) {
      assert LentTo(w'.lent, a) == {};
    }
  }

  lemma {:induction false} BarrenRuns(start: World, actions: seq<Action>, worlds: seq<World>, i: nat)
    requires Barren(start) && Conserved(0, start) && IsCarefulRun(0, start, actions, worlds) && i <= |actions|
    ensures Barren(worlds[i]) && Conserved(0, worlds[i])
  {
    if i > 0 {
      BarrenRuns(start, actions, worlds, i - 1);
      assert DoneAt(0, actions, worlds, i - 1);
      BarrenStays(worlds[i - 1], actions[i - 1]);
    }
  }

  lemma OneStep(maxConns: nat, w: World, action: Action)
    requires w.Valid() && Possible(w, action) && Careful(w, action)
    ensures IsCarefulRun(maxConns, w, [action], [w, Do(maxConns, w, action)])
  {
    assert DoneAt(maxConns, [action], [w, Do(maxConns, w, action)], 0);
  }

  lemma TwoSteps(maxConns: nat, w: World, a: Action, b: Action)
    requires w.Valid() && Possible(w, a) && Careful(w, a)
    requires Possible(Do(maxConns, w, a), b) && Careful(Do(maxConns, w, a), b)
    ensures var w1 := Do(maxConns, w, a);
            IsCarefulRun(maxConns, w, [a, b], [w, w1, Do(maxConns, w1, b)])
  {
    var w1 := Do(maxConns, w, a);
    var actions, worlds := [a, b], [w, w1, Do(maxConns, w1, b)];
    forall i | 0 <= i < 2 ensures DoneAt(maxConns, actions, worlds, i) && Careful(worlds[i], actions[i]) {
      assert i == 0 || i == 1;
    }
  }

  /** A loan to an address that has no host pool: the next look-up breaks the count. */
  lemma ForgottenLoan(maxConns: nat, w: World, conn: Conn, address: string, id: nat)
    requires w.Valid() && conn in w.lent && w.lent[conn] == address
    requires address !in w.pools.current && id !in w.waiting
    ensures !Conserved(maxConns, Do(maxConns, w, LookUp(id, address)))
  {
    var w' := Do(maxConns, w, LookUp(id, address));
    assert conn in LentTo(w'.lent, address);
    assert LentTo(w'.lent, address) != {};
    assert w'.pools.Of(address).active == 0;
    assert !HostSound(maxConns, w'.pools.Of(address), address, w'.lent, w'.dialed);
  }

  lemma CloseForgetsLoan(maxConns: nat, w: World, conn: Conn)
    requires w.Valid() && conn in w.lent
    ensures !AlwaysConserved(maxConns, Do(maxConns, w, Close))
  {
    var w' := Do(maxConns, w, Close);
    var id := Fresh(w'.waiting.Keys);
    ForgottenLoan(maxConns, w', conn, w.lent[conn], id);
    OneStep(maxConns, w', LookUp(id, w.lent[conn]));
  }

  /** A Get that looked up its host pool before Close dials there after it. */
  lemma DialsOnClosed(maxConns: nat, w: World, id: nat, conn: Conn)
    requires Sound(maxConns, w) && w.lent == map[] && maxConns > 0 && id in w.waiting && conn !in w.dialed
    ensures var closed := Do(maxConns, w, Close);
            Possible(closed, Get(id, Some(conn))) && Handed(closed, id, Some(conn)) == Success(conn)
  {
    var address := w.waiting[id].address;
    assert HostSound(maxConns, w.pools.Of(address), address, w.lent, w.dialed);
    assert LentTo(w.lent, address) == {};
    assert w.waiting[id].pool in w.pools.current.Values;
  }

  lemma DialedIsForgotten(maxConns: nat, closed: World, id: nat, conn: Conn)
    requires closed.Valid() && closed.pools.current == map[]
    requires Possible(closed, Get(id, Some(conn))) && Handed(closed, id, Some(conn)) == Success(conn)
    ensures !AlwaysConserved(maxConns, closed)
  {
    var address := closed.waiting[id].address;
    var dialed := Do(maxConns, closed, Get(id, Some(conn)));
    ForgottenLoan(maxConns, dialed, conn, address, id);
    TwoSteps(maxConns, closed, Get(id, Some(conn)), LookUp(id, address));
  }

  lemma CloseStrandsGet(maxConns: nat, w: World, id: nat)
    requires Sound(maxConns, w) && w.lent == map[] && maxConns > 0 && id in w.waiting
    ensures !AlwaysConserved(maxConns, Do(maxConns, w, Close))
  {
    var conn := Fresh(w.dialed);
    DialsOnClosed(maxConns, w, id, conn);
    DialedIsForgotten(maxConns, Do(maxConns, w, Close), id, conn);
  }

  lemma QuietCloseIsSafe(maxConns: nat, w: World)
    requires Sound(maxConns, w) && w.lent == map[] && w.waiting == map[]
    ensures AlwaysConserved(maxConns, Do(maxConns, w, Close))
  {
    CloseKeepsSound(maxConns, w);
    var w' := Do(maxConns, w, Close);
    forall actions, worlds | IsCarefulRun(maxConns, w', actions, worlds)
      ensures Conserved(maxConns, worlds[|actions|])
    {
      CarefulRunsStaySound(maxConns, w', actions, worlds, |actions|);
    }
  }

  lemma BarrenCloseIsSafe(w: World)
    requires Barren(w)
    ensures AlwaysConserved(0, Do(0, w, Close))
  {
    BarrenStays(w, Close);
    var w' := Do(0, w, Close);
    forall actions, worlds | IsCarefulRun(0, w', actions, worlds) ensures Conserved(0, worlds[|actions|]) {
      BarrenRuns(w', actions, worlds, |actions|);
    }
  }

  /** After any careful run, Close keeps the counts and limits right in every careful
      continuation exactly when nothing is lent and no Get is between its sections;
      only under a limit of zero are the waiting Gets harmless. */
  lemma CloseIsSafeIff(maxConns: nat, actions: seq<Action>, worlds: seq<World>)
    requires IsCarefulRun(maxConns, START, actions, worlds)
    ensures var w := worlds[|actions|];
            && w.Valid()
            && (AlwaysConserved(maxConns, Do(maxConns, w, Close))
                <==> w.lent == map[] && (w.waiting == map[] || maxConns == 0))
  {
    var w := worlds[|actions|];
    RunsConserve(maxConns, actions, worlds, |actions|);
    if w.lent != map[] {
      var conn :| conn in w.lent;
      CloseForgetsLoan(maxConns, w, conn);
    } else if w.waiting == map[] {
      QuietCloseIsSafe(maxConns, w);
    } else if maxConns == 0 {
      BarrenRuns(START, actions, worlds, |actions|);
      BarrenCloseIsSafe(w);
    } else {
      var id :| id in w.waiting;
      CloseStrandsGet(maxConns, w, id);
    }
  }

  // ---------- a Close during a Get ----------

  /** With a limit of one: Get 0 looks up the host; Close; Get 0 dials connection 0 on
      the closed host pool; Get 1 makes a new one and dials connection 1; connection
      0 is returned to it; Get 2 is handed connection 0; both are returned. */
  function OverlapAction(address: string, i: nat): Action {
    if i == 0 then LookUp(0, address)
    else if i == 1 then Close
    else if i == 2 then Get(0, Some(0))
    else if i == 3 then LookUp(1, address)
    else if i == 4 then Get(1, Some(1))
    else if i == 5 || i == 9 then Find(0, 0, address)
    else if i == 6 || i == 10 then Put(0)
    else if i == 7 then LookUp(2, address)
    else if i == 8 then Get(2, None)
    else if i == 11 then Find(1, 1, address)
    else Put(1)
  }

  function Loans(address: string, lent: set<Conn>): map<Conn, string> {
    map c | c in lent :: address
  }

  /** The worlds of that run once the second host pool is there. */
  function Reopened(address: string, host: Host, waiting: map<nat, Wait>, returning: map<nat, Return>,
                    lent: set<Conn>): World {
    World(Pools([Host([], 0, 1, 1), host], map[address := 1]), waiting, returning, Loans(address, lent), {0, 1})
  }

  function OverlapWorld(address: string, i: nat): World {
    var busy, free := Host([], 1, 1, 1), Host([0], 1, 0, 1);
    if i == 0 then START
    else if i == 1 then World(Pools([NewHost(1)], map[address := 0]), map[0 := Wait(address, 0)], map[], map[], {})
    else if i == 2 then World(Pools([Host([], 0, 0, 1)], map[]), map[0 := Wait(address, 0)], map[], map[], {})
    else if i == 3 then World(Pools([Host([], 0, 1, 1)], map[]), map[], map[], Loans(address, {0}), {0})
    else if i == 4 then World(Pools([Host([], 0, 1, 1), NewHost(1)], map[address := 1]), map[1 := Wait(address, 1)],
                              map[], Loans(address, {0}), {0})
    else if i == 5 || i == 9 then Reopened(address, busy, map[], map[], {0, 1})
    else if i == 6 || i == 10 then Reopened(address, busy, map[], map[0 := Return(0, 1)], {0, 1})
    else if i == 7 || i == 11 then Reopened(address, free, map[], map[], {1})
    else if i == 8 then Reopened(address, free, map[2 := Wait(address, 1)], map[], {1})
    else if i == 12 then Reopened(address, free, map[], map[1 := Return(1, 1)], {1})
    else Reopened(address, Host([0], 1, -1, 1), map[], map[], {})
  }

  ghost predicate Follows(w: World, action: Action, w': World) {
    w.Valid() && Possible(w, action) && w' == Do(1, w, action)
  }

  lemma ReopenedFinds(address: string, host: Host, lent: set<Conn>, conn: Conn)
    requires conn in lent
    ensures Follows(Reopened(address, host, map[], map[], lent), Find(conn, conn, address),
                    Reopened(address, host, map[], map[conn := Return(conn, 1)], lent))
  {
  }

  lemma ReopenedPuts(address: string, host: Host, lent: set<Conn>, conn: Conn, host': Host, lent': set<Conn>)
    requires conn in lent && host' == Release(host, conn).0 && lent' == lent - {conn}
    ensures Follows(Reopened(address, host, map[], map[conn := Return(conn, 1)], lent), Put(conn),
                    Reopened(address, host', map[], map[], lent'))
  {
    var found := Reopened(address, host, map[], map[conn := Return(conn, 1)], lent);
    assert Do(1, found, Put(conn)).lent == Loans(address, lent');
    assert Do(1, found, Put(conn)).returning == map[];
  }

  lemma ReopenedLooksUp(address: string, host: Host, lent: set<Conn>, id: nat)
    ensures Follows(Reopened(address, host, map[], map[], lent), LookUp(id, address),
                    Reopened(address, host, map[id := Wait(address, 1)], map[], lent))
  {
  }

  lemma ReopenedGets(address: string, host: Host, lent: set<Conn>, id: nat, conn: Conn, host': Host, lent': set<Conn>)
    requires conn <= 1 && Acquire(host, None) == (host', Success(conn)) && lent' == lent + {conn}
    ensures Follows(Reopened(address, host, map[id := Wait(address, 1)], map[], lent), Get(id, None),
                    Reopened(address, host', map[], map[], lent'))
  {
    var found := Reopened(address, host, map[id := Wait(address, 1)], map[], lent);
    assert Do(1, found, Get(id, None)).lent == Loans(address, lent');
    assert Do(1, found, Get(id, None)).waiting == map[];
  }

  lemma OverlapCloses(address: string)
    ensures Follows(OverlapWorld(address, 0), OverlapAction(address, 0), OverlapWorld(address, 1))
    ensures Follows(OverlapWorld(address, 1), OverlapAction(address, 1), OverlapWorld(address, 2))
  {
    var w := OverlapWorld(address, 1);
    assert w.pools.current[address] == 0;
    assert 0 in w.pools.current.Values;
    assert w.pools.Emptied().hosts == [Host([], 0, 0, 1)];
  }

  lemma OverlapDials(address: string)
    ensures Follows(OverlapWorld(address, 2), OverlapAction(address, 2), OverlapWorld(address, 3))
  {
    var w := OverlapWorld(address, 2);
    assert Do(1, w, Get(0, Some(0))).lent == Loans(address, {0});
    assert Do(1, w, Get(0, Some(0))).waiting == map[];
  }

  lemma OverlapReopens(address: string)
    ensures Follows(OverlapWorld(address, 3), OverlapAction(address, 3), OverlapWorld(address, 4))
  {
  }

  lemma OverlapDialsAgain(address: string)
    ensures Follows(OverlapWorld(address, 4), OverlapAction(address, 4), OverlapWorld(address, 5))
  {
    var w := OverlapWorld(address, 4);
    assert Do(1, w, Get(1, Some(1))).lent == Loans(address, {0, 1});
    assert Do(1, w, Get(1, Some(1))).waiting == map[];
  }

  lemma OverlapReturns(address: string, i: nat)
    requires i == 5 || i == 6 || i == 9 || i == 10
    ensures Follows(OverlapWorld(address, i), OverlapAction(address, i), OverlapWorld(address, i + 1))
  {
    if i == 5 || i == 9 {
      ReopenedFinds(address, Host([], 1, 1, 1), {0, 1}, 0);
    } else {
      ReopenedPuts(address, Host([], 1, 1, 1), {0, 1}, 0, Host([0], 1, 0, 1), {1});
    }
  }

  lemma OverlapGets(address: string, i: nat)
    requires i == 7 || i == 8
    ensures Follows(OverlapWorld(address, i), OverlapAction(address, i), OverlapWorld(address, i + 1))
  {
    if i == 7 {
      ReopenedLooksUp(address, Host([0], 1, 0, 1), {1}, 2);
    } else {
      ReopenedGets(address, Host([0], 1, 0, 1), {1}, 2, 0, Host([], 1, 1, 1), {0, 1});
    }
  }

  lemma OverlapFindsLast(address: string)
    ensures Follows(OverlapWorld(address, 11), OverlapAction(address, 11), OverlapWorld(address, 12))
  {
    ReopenedFinds(address, Host([0], 1, 0, 1), {1}, 1);
  }

  lemma OverlapExceeds(address: string)
    ensures Follows(OverlapWorld(address, 12), OverlapAction(address, 12), OverlapWorld(address, 13))
  {
    ReopenedPuts(address, Host([0], 1, 0, 1), {1}, 1, Host([0], 1, -1, 1), {});
  }

  lemma OverlapStep(address: string, i: nat)
    requires i < 13
    ensures Follows(OverlapWorld(address, i), OverlapAction(address, i), OverlapWorld(address, i + 1))
  {
    if i < 2 {
      OverlapCloses(address);
    } else if i == 2 {
      OverlapDials(address);
    } else if i == 3 {
      OverlapReopens(address);
    } else if i == 4 {
      OverlapDialsAgain(address);
    } else if 7 <= i < 9 {
      OverlapGets(address, i);
    } else if i < 11 {
      OverlapReturns(address, i);
    } else if i == 11 {
      OverlapFindsLast(address);
    } else {
      OverlapExceeds(address);
    }
  }

  lemma OverlapIsCareful(address: string, i: nat)
    requires i < 13 && i != 1
    ensures Careful(OverlapWorld(address, i), OverlapAction(address, i))
  {
  }

  /** The count, the loans and the room that world `w` has for the address. */
  ghost predicate Has(w: World, address: string, active: int, lent: set<Conn>) {
    && w.pools.Valid() && address in w.pools.current
    && w.pools.Of(address).active == active && LentTo(w.lent, address) == lent
  }

  ghost predicate HasNoRoom(w: World, address: string) {
    w.pools.Valid() && address in w.pools.current && Release(w.pools.Of(address), 1).1
  }

  lemma ReopenedHas(w: World, address: string, host: Host, waiting: map<nat, Wait>, returning: map<nat, Return>,
                    lent: set<Conn>)
    requires w == Reopened(address, host, waiting, returning, lent)
    ensures Has(w, address, host.active, lent)
    ensures |host.idle| >= host.capacity ==> HasNoRoom(w, address)
  {
  }

  lemma OverlapFaults(address: string)
    ensures OverlapWorld(address, 1).lent == map[]
    ensures Has(OverlapWorld(address, 7), address, 0, {1})
    ensures Has(OverlapWorld(address, 9), address, 1, {0, 1})
    ensures HasNoRoom(OverlapWorld(address, 12), address)
    ensures Has(OverlapWorld(address, 13), address, -1, {})
  {
    ReopenedHas(OverlapWorld(address, 7), address, Host([0], 1, 0, 1), map[], map[], {1});
    ReopenedHas(OverlapWorld(address, 9), address, Host([], 1, 1, 1), map[], map[], {0, 1});
    ReopenedHas(OverlapWorld(address, 12), address, Host([0], 1, 0, 1), map[], map[1 := Return(1, 1)], {1});
    ReopenedHas(OverlapWorld(address, 13), address, Host([0], 1, -1, 1), map[], map[], {});
  }

  /** Every action but the Close is careful and nothing is lent when it runs, yet the
      count is off while a connection is lent, two loans pass the limit of one, and
      a return is closed as an excess one with the count below zero. */
  lemma OverlappingCloseBreaks(address: string) returns (actions: seq<Action>, worlds: seq<World>)
    ensures |actions| == 13 && actions[1] == Close && actions[12] == Put(1) && IsRun(1, START, actions, worlds)
    ensures forall i :: 0 <= i < 13 && i != 1 ==> Careful(worlds[i], actions[i])
    ensures worlds[1].lent == map[]
    ensures Has(worlds[7], address, 0, {1}) && Has(worlds[9], address, 1, {0, 1})
    ensures HasNoRoom(worlds[12], address) && Has(worlds[13], address, -1, {})
  {
    actions := seq(13, i requires 0 <= i < 13 => OverlapAction(address, i));
    worlds := seq(14, i requires 0 <= i < 14 => OverlapWorld(address, i));
    forall i | 0 <= i < 13 ensures DoneAt(1, actions, worlds, i) {
      OverlapStep(address, i);
    }
    forall i | 0 <= i < 13 && i != 1 ensures Careful(worlds[i], actions[i]) {
      OverlapIsCareful(address, i);
    }
    OverlapFaults(address);
  }

  // ---------- a connection returned twice ----------

  /** A borrower returns the connection twice, and two Gets follow. */
  function TwiceReturned(r: nat, conn: Conn, address: string, g: nat, d1: Option<Conn>, d2: Option<Conn>): seq<Action> {
    [Find(r, conn, address), Put(r), Find(r, conn, address), Put(r),
     LookUp(g, address), Get(g, d1), LookUp(g, address), Get(g, d2)]
  }

  lemma AcquireTakesReturned(h: Host, conn: Conn, active: int, d: Option<Conn>)
    ensures Acquire(h.(idle := h.idle + [conn], active := active), d) == (h.(active := active + 1), Success(conn))
  {
    var idle := h.idle + [conn];
    assert idle[..|idle| - 1] == h.idle;
  }

  lemma AcquireTakesAnother(h: Host, conn: Conn, d: Option<Conn>)
    requires conn !in h.idle && d != Some(conn)
    ensures Acquire(h, d).1 != Success(conn)
  {
  }

  lemma HostReturnedTwice(h: Host, conn: Conn, d1: Option<Conn>, d2: Option<Conn>)
    requires conn !in h.idle && |h.idle| < h.capacity && d2 != Some(conn)
    ensures var first := Acquire(Release(Release(h, conn).0, conn).0, d1);
            first.1 == Success(conn) && Acquire(first.0, d2).1 == Success(conn) <==> |h.idle| + 2 <= h.capacity
  {
    var once := Release(h, conn).0;
    if |h.idle| + 2 <= h.capacity {
      AcquireTakesReturned(once, conn, once.active - 1, d1);
      AcquireTakesReturned(h, conn, once.active, d2);
    } else {
      AcquireTakesReturned(h, conn, once.active - 1, d1);
      AcquireTakesAnother(h.(active := once.active), conn, d2);
    }
  }

  lemma RunsJoin(maxConns: nat, start: World, actions: seq<Action>, worlds: seq<World>,
                 more: seq<Action>, next: seq<World>)
    requires IsRun(maxConns, start, actions, worlds) && IsRun(maxConns, worlds[|actions|], more, next)
    ensures IsRun(maxConns, start, actions + more, worlds + next[1..])
  {
    var n, actions', worlds' := |actions|, actions + more, worlds + next[1..];
    forall i | 0 <= i < |actions'| ensures DoneAt(maxConns, actions', worlds', i) {
      if i < n {
        assert DoneAt(maxConns, actions, worlds, i);
      } else {
        assert DoneAt(maxConns, more, next, i - n);
        assert worlds'[i] == next[i - n] && worlds'[i + 1] == next[i - n + 1];
      }
    }
  }

  lemma FourPairs(maxConns: nat, actions: seq<Action>, worlds: seq<World>, a1: seq<Action>, v1: seq<World>,
                  a2: seq<Action>, v2: seq<World>, a3: seq<Action>, v3: seq<World>, a4: seq<Action>, v4: seq<World>)
    returns (run: seq<World>)
    requires IsRun(maxConns, START, actions, worlds) && |a1| == |a2| == |a3| == |a4| == 2
    requires IsRun(maxConns, worlds[|actions|], a1, v1) && IsRun(maxConns, v1[2], a2, v2)
    requires IsRun(maxConns, v2[2], a3, v3) && IsRun(maxConns, v3[2], a4, v4)
    ensures IsRun(maxConns, START, actions + (a1 + a2 + a3 + a4), run) && worlds < run
    ensures run[|actions| + 5] == v3[1] && run[|actions| + 7] == v4[1]
  {
    RunsJoin(maxConns, START, actions, worlds, a1, v1);
    RunsJoin(maxConns, START, actions + a1, worlds + v1[1..], a2, v2);
    RunsJoin(maxConns, START, actions + a1 + a2, worlds + v1[1..] + v2[1..], a3, v3);
    RunsJoin(maxConns, START, actions + a1 + a2 + a3, worlds + v1[1..] + v2[1..] + v3[1..], a4, v4);
    run := worlds + v1[1..] + v2[1..] + v3[1..] + v4[1..];
    assert actions + a1 + a2 + a3 + a4 == actions + (a1 + a2 + a3 + a4);
  }

  lemma PairRuns(maxConns: nat, w: World, a: Action, b: Action)
    requires w.Valid() && Possible(w, a) && Possible(Do(maxConns, w, a), b)
    ensures var w1 := Do(maxConns, w, a);
            IsRun(maxConns, w, [a, b], [w, w1, Do(maxConns, w1, b)])
  {
    var w1 := Do(maxConns, w, a);
    forall i | 0 <= i < 2 ensures DoneAt(maxConns, [a, b], [w, w1, Do(maxConns, w1, b)], i) {
      assert i == 0 || i == 1;
    }
  }

  ghost predicate HandsOut(w: World, id: nat, dial: Option<Conn>, conn: Conn) {
    w.Valid() && id in w.waiting && Handed(w, id, dial) == Success(conn)
  }

  lemma ReturnTakesTwo(maxConns: nat, w: World, r: nat, conn: Conn, address: string) returns (w1: World, w2: World)
    requires w.Valid() && r !in w.returning && address in w.pools.current
    ensures IsRun(maxConns, w, [Find(r, conn, address), Put(r)], [w, w1, w2]) && w2.Valid()
    ensures w2.pools == w.pools.With(w.pools.current[address], Release(w.pools.Of(address), conn).0)
    ensures w2.waiting == w.waiting && w2.returning == w.returning && w2.dialed == w.dialed
  {
    w1 := Do(maxConns, w, Find(r, conn, address));
    w2 := Do(maxConns, w1, Put(r));
    PairRuns(maxConns, w, Find(r, conn, address), Put(r));
  }

  lemma GetTakesTwo(maxConns: nat, w: World, g: nat, address: string, d: Option<Conn>) returns (w1: World, w2: World)
    requires w.Valid() && g !in w.waiting && address in w.pools.current && (d.Some? ==> d.value !in w.dialed)
    ensures IsRun(maxConns, w, [LookUp(g, address), Get(g, d)], [w, w1, w2]) && w2.Valid()
    ensures var (h, handed) := Acquire(w.pools.Of(address), d);
            && w2.pools == w.pools.With(w.pools.current[address], h) && w2.waiting == w.waiting
            && w2.dialed == w.dialed + (if handed.Success? then {handed.value} else {})
            && forall c: Conn :: HandsOut(w1, g, d, c) <==> handed == Success(c)
  {
    w1 := Do(maxConns, w, LookUp(g, address));
    w2 := Do(maxConns, w1, Get(g, d));
    PairRuns(maxConns, w, LookUp(g, address), Get(g, d));
  }

  lemma HandedIsKnown(h: Host, conn: Conn, d: Option<Conn>)
    ensures var handed := Acquire(Release(Release(h, conn).0, conn).0, d).1;
            handed.Success? ==> handed.value in h.idle || handed.value == conn || Some(handed.value) == d
  {
  }

  /** What two Gets hand out after two returns is decided by the host pool alone. */
  lemma TwiceReturnedRuns(maxConns: nat, actions: seq<Action>, worlds: seq<World>, r: nat, conn: Conn, address: string,
                          g: nat, d1: Option<Conn>, d2: Option<Conn>) returns (run: seq<World>)
    requires IsRun(maxConns, START, actions, worlds) && worlds[|actions|].Valid()
    requires var w := worlds[|actions|];
             && r !in w.returning && g !in w.waiting && address in w.pools.current && conn in w.dialed
             && (d1.Some? ==> d1.value !in w.dialed && d1 != d2) && (d2.Some? ==> d2.value !in w.dialed)
             && forall c :: c in w.pools.Of(address).idle ==> c in w.dialed
    ensures IsRun(maxConns, START, actions + TwiceReturned(r, conn, address, g, d1, d2), run) && worlds < run
    ensures var first := Acquire(Release(Release(worlds[|actions|].pools.Of(address), conn).0, conn).0, d1);
            && (HandsOut(run[|actions| + 5], g, d1, conn) <==> first.1 == Success(conn))
            && (HandsOut(run[|actions| + 7], g, d2, conn) <==> Acquire(first.0, d2).1 == Success(conn))
  {
    var w := worlds[|actions|];
    var w1, w2 := ReturnTakesTwo(maxConns, w, r, conn, address);
    var w3, w4 := ReturnTakesTwo(maxConns, w2, r, conn, address);
    var w5, w6 := GetTakesTwo(maxConns, w4, g, address, d1);
    HandedIsKnown(w.pools.Of(address), conn, d1);
    var w7, w8 := GetTakesTwo(maxConns, w6, g, address, d2);
    var give := [Find(r, conn, address), Put(r)];
    var get1, get2 := [LookUp(g, address), Get(g, d1)], [LookUp(g, address), Get(g, d2)];
    run := FourPairs(maxConns, actions, worlds, give, [w, w1, w2], give, [w2, w3, w4],
                     get1, [w4, w5, w6], get2, [w6, w7, w8]);
    assert give + give + get1 + get2 == TwiceReturned(r, conn, address, g, d1, d2);
  }

  lemma LentHostHasRoom(maxConns: nat, actions: seq<Action>, worlds: seq<World>, conn: Conn)
    requires IsCarefulRun(maxConns, START, actions, worlds) && conn in worlds[|actions|].lent
    ensures var w := worlds[|actions|];
            && w.Valid() && conn in w.dialed && w.lent[conn] in w.pools.current
            && var h := w.pools.Of(w.lent[conn]);
               && h.capacity == maxConns && |h.idle| < maxConns && conn !in h.idle
               && forall c :: c in h.idle ==> c in w.dialed
  {
    RunsConserve(maxConns, actions, worlds, |actions|);
    var w := worlds[|actions|];
    var a := w.lent[conn];
    assert HostSound(maxConns, w.pools.Of(a), a, w.lent, w.dialed);
    assert conn in LentTo(w.lent, a);
    assert LentTo(w.lent, a) != {};
  }

  /** After any careful run, a borrower that returns its connection twice has it handed
      to each of the next two Gets exactly when the idle slice has room for both. */
  lemma TwiceReturnedIsLentTwiceIff(maxConns: nat, actions: seq<Action>, worlds: seq<World>, r: nat, conn: Conn,
                                    g: nat, d1: Option<Conn>, d2: Option<Conn>) returns (run: seq<World>)
    requires IsCarefulRun(maxConns, START, actions, worlds) && conn in worlds[|actions|].lent
    requires var w := worlds[|actions|];
             && Possible(w, Find(r, conn, w.lent[conn])) && Careful(w, Find(r, conn, w.lent[conn]))
             && g !in w.waiting && (d1.Some? ==> d1.value !in w.dialed && d1 != d2)
             && (d2.Some? ==> d2.value !in w.dialed)
    ensures var w := worlds[|actions|];
            && IsRun(maxConns, START, actions + TwiceReturned(r, conn, w.lent[conn], g, d1, d2), run)
            && worlds < run
            && w.Valid() && w.lent[conn] in w.pools.current
            && (HandsOut(run[|actions| + 5], g, d1, conn) && HandsOut(run[|actions| + 7], g, d2, conn)
                <==> |w.pools.Of(w.lent[conn]).idle| + 2 <= maxConns)
  {
    var w, a := worlds[|actions|], worlds[|actions|].lent[conn];
    LentHostHasRoom(maxConns, actions, worlds, conn);
    HostReturnedTwice(w.pools.Of(a), conn, d1, d2);
    run := TwiceReturnedRuns(maxConns, actions, worlds, r, conn, a, g, d1, d2);
  }

  lemma FirstLoan(maxConns: nat, address: string, conn: Conn) returns (worlds: seq<World>)
    requires maxConns > 0
    ensures IsCarefulRun(maxConns, START, [LookUp(0, address), Get(0, Some(conn))], worlds)
    ensures conn in worlds[2].lent && worlds[2].lent[conn] == address
    ensures worlds[2].waiting == map[] && worlds[2].returning == map[]
    ensures worlds[2].pools.Valid() && address in worlds[2].pools.current && worlds[2].pools.Of(address).idle == []
  {
    TwoSteps(maxConns, START, LookUp(0, address), Get(0, Some(conn)));
    var w1 := Do(maxConns, START, LookUp(0, address));
    worlds := [START, w1, Do(maxConns, w1, Get(0, Some(conn)))];
  }

  /** From the start: a connection is dialed, returned twice, and handed to two Gets
      exactly under a limit of two or more. */
  lemma TwiceReturnedFromStart(maxConns: nat, address: string, conn: Conn) returns (run: seq<World>)
    requires maxConns > 0
    ensures IsRun(maxConns, START,
                  [LookUp(0, address), Get(0, Some(conn))] + TwiceReturned(0, conn, address, 0, None, None), run)
    ensures conn in run[2].lent
    ensures HandsOut(run[7], 0, None, conn) && HandsOut(run[9], 0, None, conn) <==> maxConns >= 2
  {
    var worlds := FirstLoan(maxConns, address, conn);
    var loan := [LookUp(0, address), Get(0, Some(conn))];
    run := TwiceReturnedIsLentTwiceIff(maxConns, loan, worlds, 0, conn, 0, None, None);
  }

  // ---------- Close, host by host ----------

  /** The hosts once Close has been through the addresses in `done`. */
  ghost predicate EmptiedSoFar(p: Pools, done: set<string>, hosts: seq<Host>)
    requires p.Valid() && done <= p.current.Keys
  {
    && |hosts| == |p.hosts|
    && (forall a :: a in p.current ==> hosts[p.current[a]] == if a in done then ClosedHost(p.Of(a)) else p.Of(a))
    && (forall i :: 0 <= i < |hosts| && i !in p.current.Values ==> hosts[i] == p.hosts[i])
  }

  ghost function IdleOf(p: Pools, addresses: set<string>): set<Conn>
    requires p.Valid() && addresses <= p.current.Keys
  {
    set a, c | a in addresses && c in p.Of(a).idle :: c
  }

  lemma EmptyOneMore(p: Pools, done: set<string>, hosts: seq<Host>, a: string)
    requires p.Valid() && done <= p.current.Keys && EmptiedSoFar(p, done, hosts) && a in p.current && a !in done
    ensures EmptiedSoFar(p, done + {a}, hosts[p.current[a] := ClosedHost(p.Of(a))])
  {
    var hosts' := hosts[p.current[a] := ClosedHost(p.Of(a))];
    forall b | b in p.current
      ensures hosts'[p.current[b]] == if b in done + {a} then ClosedHost(p.Of(b)) else p.Of(b)
    {
      assert p.current[b] == p.current[a] ==> b == a;
    }
    forall i | 0 <= i < |hosts'| && i !in p.current.Values ensures hosts'[i] == p.hosts[i] {
      assert p.current[a] in p.current.Values;
    }
  }

  lemma EmptiedAll(p: Pools, hosts: seq<Host>)
    requires p.Valid() && EmptiedSoFar(p, p.current.Keys, hosts)
    ensures hosts == p.Emptied().hosts
  {
    forall i | 0 <= i < |hosts| ensures hosts[i] == p.Emptied().hosts[i] {
      if i in p.current.Values {
        var a :| a in p.current && p.current[a] == i;
        assert p.Of(a) == p.hosts[i];
      }
    }
  }

  // ---------- the object ----------

  class TCPConnectionPool {
    const maxConnsPerHost: nat
    var hosts: seq<Host>
    var pools: map<string, nat>

    ghost predicate Valid()
      reads this
    {
      View().Valid()
    }

    ghost function View(): Pools
      reads this
    {
      Pools(hosts, pools)
    }

    constructor (maxConnsPerHost: nat)
      ensures Valid() && this.maxConnsPerHost == maxConnsPerHost && View() == Pools([], map[])
    {
      this.maxConnsPerHost := maxConnsPerHost;
      hosts, pools := [], map[];
    }

    /** The first section of GetConnection: the host pool of the address, made when
        there is none. */
    method LookUpHost(address: string) returns (pool: nat)
      requires Valid()
      modifies this
      ensures Valid() && View() == old(View()).Opened(maxConnsPerHost, address)
      ensures address in pools && pool == pools[address]
    {
      if address !in pools {
        hosts, pools := hosts + [NewHost(maxConnsPerHost)], pools[address := |hosts|];
      }
      pool := pools[address];
    }

    /** The second section, on the host pool that was looked up. */
    method AcquireFrom(pool: nat, dialed: Option<Conn>) returns (r: Result<Conn, PoolError>)
      requires Valid() && pool < |hosts|
      modifies this
      ensures Valid() && r == Acquire(old(hosts)[pool], dialed).1
      ensures View() == old(View()).With(pool, Acquire(old(hosts)[pool], dialed).0)
    {
      var host := hosts[pool];
      if |host.idle| > 0 {
        var conn := host.idle[|host.idle| - 1];
        hosts := hosts[pool := host.(idle := host.idle[..|host.idle| - 1], active := host.active + 1)];
        return Success(conn);
      }
      if host.active >= host.maxConns {
        return Failure(Exhausted);
      }
      if dialed.None? {
        return Failure(DialFailed);
      }
      hosts := hosts[pool := host.(active := host.active + 1)];
      r := Success(dialed.value);
    }

    /** A GetConnection that no other call interrupts. */
    method GetConnection(address: string, dialed: Option<Conn>) returns (r: Result<Conn, PoolError>)
      requires Valid()
      modifies this
      ensures Valid()
      ensures var p := old(View()).Opened(maxConnsPerHost, address);
              && p.Valid() && address in p.current
              && r == Acquire(p.Of(address), dialed).1
              && View() == p.With(p.current[address], Acquire(p.Of(address), dialed).0)
    {
      var pool := LookUpHost(address);
      r := AcquireFrom(pool, dialed);
    }

    /** A nil connection is ignored; one for an unknown host, or one too many, is
        closed, and only then can closing it fail. */
    method ReleaseConnection(conn: Option<Conn>, address: string, closeFails: bool)
      returns (closed: bool, error: Option<PoolError>)
      requires Valid()
      modifies this
      ensures Valid()
      ensures closed <==> conn.Some? && (address !in old(pools) || Release(old(View()).Of(address), conn.value).1)
      ensures error == if !closed || !closeFails then None
                       else if address in old(pools) then Some(ExcessCloseFailed) else Some(CloseFailed)
      ensures View() == if conn.None? || address !in old(pools) then old(View())
                        else old(View()).With(old(pools)[address], Release(old(View()).Of(address), conn.value).0)
    {
      if conn.None? {
        return false, None;
      }
      if address !in pools {
        return true, if closeFails then Some(CloseFailed) else None;
      }
      var pool := pools[address];
      var host := hosts[pool].(active := hosts[pool].active - 1);
      if |host.idle| < host.capacity {
        hosts := hosts[pool := host.(idle := host.idle + [conn.value])];
        return false, None;
      }
      hosts := hosts[pool := host];
      return true, if closeFails then Some(ExcessCloseFailed) else None;
    }

    /** Closes every idle connection of every host in use; calls that looked up a host
        pool keep it, emptied and without room. */
    method Close() returns (closed: set<Conn>)
      requires Valid()
      modifies this
      ensures Valid() && View() == old(View()).Emptied()
      ensures closed == IdleOf(old(View()), old(pools).Keys)
    {
      closed := {};
      ghost var p, done := View(), {};
      var left := pools.Keys;
      while left != {}
        invariant pools == p.current && done <= pools.Keys && left == pools.Keys - done
        invariant EmptiedSoFar(p, done, hosts) && closed == IdleOf(p, done)
        decreases left
      {
        var a :| a in left;
        EmptyOneMore(p, done, hosts, a);
        assert p.Of(a) == hosts[pools[a]];
        closed := closed + set c | c in hosts[pools[a]].idle;
        hosts := hosts[pools[a] := ClosedHost(hosts[pools[a]])];
        left, done := left - {a}, done + {a};
      }
      assert done == p.current.Keys;
      EmptiedAll(p, hosts);
      pools := map[];
    }
  }
}
