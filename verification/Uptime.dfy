/** Configurations that no run can crash, and among them those that serve in full in every run. */
module Uptime {
  import opened Address
  import opened Config
  import opened RoundRobin
  import opened Exhaustion
  import opened Store
  import opened Metrics
  import opened Engine
  import opened Granting
  import opened Leasing
  import opened Runs

  /** A property of subnets' cursors that starts true, that calls keep, and under which no call crashes. */
  ghost predicate KeptBy(v: Server, P: (Subnet, nat) -> bool) {
    && GoodServer(v)
    && (forall s :: s in SubnetsOf(v) ==> P(s, StartOf(s)))
    && (forall s, c: nat, taken :: s in SubnetsOf(v) && s.block.base <= c <= Last(s.block) && P(s, c) ==>
          var r := Walk(s, c, false, taken); !r.Crash? && P(s, r.cursor))
  }

  ghost predicate Holding(v: Server, P: (Subnet, nat) -> bool, y: Sys) {
    forall s :: s in SubnetsOf(v) ==> Served(s, y) && P(s, y.cursors[s.block])
  }

  /** The same cursors, whatever happened to leases, allocations and gauge. */
  lemma StaysHolding(v: Server, P: (Subnet, nat) -> bool, y: Sys, z: Sys)
    requires Holding(v, P, y) && z.cursors == y.cursors && forall s :: s in SubnetsOf(v) ==> Served(s, z)
    ensures Holding(v, P, z)
  {
    forall s | s in SubnetsOf(v) ensures P(s, z.cursors[s.block]) {
      assert Served(s, y) && P(s, y.cursors[s.block]);
    }
  }

  lemma OtherCursorStays(s: Subnet, y: Sys, b: Block)
    requires Served(s, y) && b in y.cursors && b != s.block && !AllocateOne(s, y).OnePanic?
    ensures var z := AllocateOne(s, y).sys; b in z.cursors && z.cursors[b] == y.cursors[b]
  {
  }

  lemma OwnCursorMoves(s: Subnet, y: Sys)
    requires Served(s, y)
    ensures var r := Walk(s, y.cursors[s.block], false, y.meter.store.subnets[s.block]);
      if r.Crash? then AllocateOne(s, y).OnePanic?
      else
        && !AllocateOne(s, y).OnePanic?
        && s.block in AllocateOne(s, y).sys.cursors && AllocateOne(s, y).sys.cursors[s.block] == r.cursor
  {
  }

  lemma SameBlockSameSubnet(v: Server, s: Subnet, t: Subnet)
    requires GoodServer(v) && s in SubnetsOf(v) && t in SubnetsOf(v) && s.block == t.block
    ensures s == t
  {
    var all := SubnetsOf(v);
    var i :| 0 <= i < |all| && all[i] == s;
    var j :| 0 <= j < |all| && all[j] == t;
    ValidSubnetShape(s);
    ContainsIsInterval(s.block, Addr(s.block.family, s.block.base));
    assert Contains(s.block, Addr(s.block.family, s.block.base));
    assert i == j;
  }

  lemma OneHolds(v: Server, P: (Subnet, nat) -> bool, s: Subnet, y: Sys)
    requires KeptBy(v, P) && Holding(v, P, y) && s in SubnetsOf(v)
    ensures !AllocateOne(s, y).OnePanic? && Holding(v, P, AllocateOne(s, y).sys)
  {
    OwnCursorMoves(s, y);
    var z := AllocateOne(s, y).sys;
    forall t | t in SubnetsOf(v) ensures Served(t, z) && P(t, z.cursors[t.block]) {
      AllocateOneServes(s, y, t);
      if t.block == s.block {
        SameBlockSameSubnet(v, s, t);
      } else {
        OtherCursorStays(s, y, t.block);
      }
    }
  }

  lemma {:induction false} ManyHold(v: Server, P: (Subnet, nat) -> bool, subs: seq<Subnet>, y: Sys)
    requires KeptBy(v, P) && Holding(v, P, y) && forall s :: s in subs ==> s in SubnetsOf(v)
    ensures var r := TryAllocate(subs, y); r.Many? && Holding(v, P, r.sys)
    decreases |subs|
  {
    if subs != [] {
      OneHolds(v, P, subs[0], y);
      var one := AllocateOne(subs[0], y);
      if one.Address? {
        ManyHold(v, P, subs[1..], one.sys);
      }
    }
  }

  lemma AllocateHolds(v: Server, P: (Subnet, nat) -> bool, y: Sys, wanted: set<Family>)
    requires KeptBy(v, P) && Sound(v, y) && Holding(v, P, y)
    ensures var r := AllocateAll(v, y, wanted); !r.GrantPanic? && Holding(v, P, r.sys)
  {
    var subs := Consulted(v, wanted);
    ConsultedAreConfigured(v, wanted);
    ManyHold(v, P, subs, y);
    TryAllocateEffect(v, subs, y);
    var many := TryAllocate(subs, y);
    if !(many.ok && many.ips != []) {
      FreeEachEffect(v, many.sys, many.ips);
      StaysHolding(v, P, many.sys, FreeEach(v, many.sys, many.ips));
    }
  }

  lemma NewLeaseHolds(v: Server, P: (Subnet, nat) -> bool, y: Sys, key: Key, ips: seq<Addr>, t: int)
    requires KeptBy(v, P) && Sound(v, y) && Holding(v, P, y)
    ensures var r := NewLease(v, y, key, ips, t); r.Turn? && Holding(v, P, r.sys)
  {
    if Wanted(ips).Some? {
      AllocateHolds(v, P, y, Wanted(ips).value);
      var g := AllocateAll(v, y, Wanted(ips).value);
      if g.Granted? {
        var z := NewLease(v, y, key, ips, t).sys;
        assert forall s :: s in SubnetsOf(v) ==> Served(s, g.sys) && Served(s, z);
        StaysHolding(v, P, g.sys, z);
      }
    }
  }

  /** No request crashes, and every cursor keeps the property. */
  lemma RequestHolds(v: Server, P: (Subnet, nat) -> bool, y: Sys, key: Key, ips: seq<Addr>, t1: int, t2: int)
    requires KeptBy(v, P) && Sound(v, y) && Conserved(y.meter.store) && Holding(v, P, y)
    ensures var r := Request(v, y, key, ips, t1, t2); r.Turn? && Holding(v, P, r.sys)
  {
    if key !in y.meter.store.leases {
      NewLeaseHolds(v, P, y, key, ips, t2);
    } else if Expired(y.meter.store.leases[key], t1) {
      LapseEffect(v, y, key);
      StaysHolding(v, P, y, Lapsed(v, y, key));
      NewLeaseHolds(v, P, Lapsed(v, y, key), key, ips, t2);
    } else {
      var z := Request(v, y, key, ips, t1, t2).sys;
      assert forall s :: s in SubnetsOf(v) ==> Served(s, y) && Served(s, z);
      StaysHolding(v, P, y, z);
    }
  }

  lemma FreshHolds(v: Server, P: (Subnet, nat) -> bool, y: Sys)
    requires KeptBy(v, P) && y.cursors == FreshCursors(v) && forall s :: s in SubnetsOf(v) ==> Served(s, y)
    ensures Holding(v, P, y)
  {
    forall s | s in SubnetsOf(v) ensures P(s, y.cursors[s.block]) {
      assert s.block in Blocks(v);
      SameBlockSameSubnet(v, s, SubnetFor(v, s.block));
    }
  }

  lemma StepHolds(v: Server, P: (Subnet, nat) -> bool, w: World, e: Event)
    requires KeptBy(v, P) && Safe(v, w) && Holding(v, P, w.sys)
    ensures var r := Step(v, w, e); r.Stepped? && Holding(v, P, r.world.sys)
  {
    match e
    case Ask(key, ips, t1, t2) => RequestHolds(v, P, w.sys, key, ips, t1, t2);
    case Tick(t, now) =>
      var z := Step(v, w, e).world.sys;
      assert forall s :: s in SubnetsOf(v) ==> Served(s, w.sys) && Served(s, z);
      StaysHolding(v, P, w.sys, z);
    case Restart =>
      FreshCursorsServe(v, Restarted(v, w.sys));
      FreshHolds(v, P, Restarted(v, w.sys));
  }

  /** Clocks only go forward along these events. */
  predicate AllOnTime(clock: int, es: seq<Event>)
    decreases |es|
  {
    es == [] || (OnTime(clock, es[0]) && AllOnTime(ClockAfter(clock, es[0]), es[1..]))
  }

  /** A forward clock, reading by reading: within an event, and from each event to any later one. */
  lemma {:induction false} ForwardIsOnTime(clock: int, es: seq<Event>)
    requires forall i :: 0 <= i < |es| && es[i].Ask? ==> clock <= es[i].t1 <= es[i].t2
    requires forall i :: 0 <= i < |es| && es[i].Tick? ==> clock <= es[i].now && es[i].t <= es[i].now
    requires forall i, j :: 0 <= i < j < |es| && es[i].Ask? && es[j].Ask? ==> es[i].t2 <= es[j].t1
    requires forall i, j :: 0 <= i < j < |es| && es[i].Ask? && es[j].Tick? ==> es[i].t2 <= es[j].now
    requires forall i, j :: 0 <= i < j < |es| && es[i].Tick? && es[j].Ask? ==> es[i].now <= es[j].t1
    requires forall i, j :: 0 <= i < j < |es| && es[i].Tick? && es[j].Tick? ==> es[i].now <= es[j].now
    ensures AllOnTime(clock, es)
    decreases |es|
  {
    if es != [] {
      ForwardIsOnTime(ClockAfter(clock, es[0]), es[1..]);
    }
  }

  lemma {:induction false} RunHolds(v: Server, P: (Subnet, nat) -> bool, w: World, es: seq<Event>) returns (z: World)
    requires KeptBy(v, P) && Safe(v, w) && Holding(v, P, w.sys) && AllOnTime(w.clock, es)
    ensures Reaches(v, w, es, z) && Holding(v, P, z.sys)
    decreases |es|
  {
    if es == [] {
      z := w;
    } else {
      StepHolds(v, P, w, es[0]);
      StepIsSafe(v, w, es[0]);
      z := RunHolds(v, P, Step(v, w, es[0]).world, es[1..]);
    }
  }

  lemma {:induction false} ReachedOnce(v: Server, w: World, es: seq<Event>, x: World, z: World)
    requires Safe(v, w) && Reaches(v, w, es, x) && Reaches(v, w, es, z)
    ensures x == z && AllOnTime(w.clock, es)
    decreases |es|
  {
    if es != [] {
      StepIsSafe(v, w, es[0]);
      ReachedOnce(v, Step(v, w, es[0]).world, es[1..], x, z);
    }
  }

  lemma InitialHolds(v: Server, P: (Subnet, nat) -> bool, clock: int)
    requires KeptBy(v, P)
    ensures Holding(v, P, Initial(v, clock).sys)
  {
    FreshHolds(v, P, Initial(v, clock).sys);
  }

  /** What no call can crash: an orderly reserved list, and always an unreserved address ahead. */
  ghost predicate Hardy(v: Server) {
    GoodServer(v) && forall s :: s in SubnetsOf(v) ==> Orderly(s) && NeverStuck(s)
  }

  ghost const ALIVE: (Subnet, nat) -> bool := (s: Subnet, c: nat) => Alive(s, c)

  lemma HardyKeepsAlive(v: Server)
    requires Hardy(v)
    ensures KeptBy(v, ALIVE)
  {
    forall s | s in SubnetsOf(v) ensures ALIVE(s, StartOf(s)) {
      NeverStuckStarts(s);
    }
    forall s, c: nat, taken | s in SubnetsOf(v) && s.block.base <= c <= Last(s.block) && ALIVE(s, c)
      ensures var r := Walk(s, c, false, taken); !r.Crash? && ALIVE(s, r.cursor)
    {
      CallStaysAlive(s, c, false, taken);
    }
  }

  /** Whatever events come, on a forward clock, such a server is up after all of them. */
  lemma EveryRunStaysUp(v: Server, clock: int, es: seq<Event>) returns (z: World)
    requires GoodServer(v) && (forall s :: s in SubnetsOf(v) ==> Orderly(s) && NeverStuck(s)) && AllOnTime(clock, es)
    ensures Reaches(v, Initial(v, clock), es, z)
  {
    HardyKeepsAlive(v);
    InitialHolds(v, ALIVE, clock);
    z := RunHolds(v, ALIVE, Initial(v, clock), es);
  }

  /** What always serves in full: an orderly reserved list, and a range that ends on an unreserved last address. */
  ghost predicate Sturdy(v: Server) {
    GoodServer(v) && forall s :: s in SubnetsOf(v) ==> Orderly(s) && EndsOnFreeLast(s)
  }

  ghost const ON_RING: (Subnet, nat) -> bool := (s: Subnet, c: nat) => exists i :: AtIndex(s, c, i)

  /** Exhausted or not, a call leaves its cursor on the ring. */
  lemma CallStaysOnRing(s: Subnet, c: nat, taken: set<Addr>)
    requires Validate(s) == Valid && Orderly(s) && EndsOnFreeLast(s) && c <= Last(s.block) && ON_RING(s, c)
    ensures var r := Walk(s, c, false, taken); !r.Crash? && ON_RING(s, r.cursor)
  {
    var i :| AtIndex(s, c, i);
    FreeLastTurns(s);
    ExhaustionKeepsIndexIff(s);
    WalkIsRoundRobin(s, c, i, taken);
    match CyclicFree(s, i, taken)
    case Some(j) => assert AtIndex(s, Walk(s, c, false, taken).cursor, After(s, j));
    case None => assert AtIndex(s, Walk(s, c, false, taken).cursor, |Ring(s)| - 1);
  }

  lemma SturdyKeepsRing(v: Server)
    requires Sturdy(v)
    ensures KeptBy(v, ON_RING)
  {
    forall s | s in SubnetsOf(v) ensures ON_RING(s, StartOf(s)) {
      FreeLastTurns(s);
      StartIsIndexZero(s);
    }
    forall s, c: nat, taken | s in SubnetsOf(v) && s.block.base <= c <= Last(s.block) && ON_RING(s, c)
      ensures var r := Walk(s, c, false, taken); !r.Crash? && ON_RING(s, r.cursor)
    {
      CallStaysOnRing(s, c, taken);
    }
  }

  /** Where a request without a current lease turns to the allocators: an expired lease is gone, its addresses free. */
  ghost function Cleared(v: Server, y: Sys, key: Key): Sys {
    if key in y.meter.store.leases then Lapsed(v, y, key) else y
  }

  lemma ClearedHolds(v: Server, y: Sys, key: Key)
    requires Sturdy(v) && Sound(v, y) && Conserved(y.meter.store) && Holding(v, ON_RING, y)
    ensures Sound(v, Cleared(v, y, key)) && AllSteady(SubnetsOf(v), Cleared(v, y, key))
  {
    var z := Cleared(v, y, key);
    if key in y.meter.store.leases {
      LapseEffect(v, y, key);
      StaysHolding(v, ON_RING, y, z);
    }
    forall s | s in SubnetsOf(v) ensures Steady(s, z) {
      FreeLastTurns(s);
    }
  }

  /** Every state such a server reaches has all its cursors on their rings. */
  lemma ReachedOnRing(v: Server, clock: int, es: seq<Event>, z: World)
    requires Sturdy(v) && Reaches(v, Initial(v, clock), es, z)
    ensures Safe(v, z) && Holding(v, ON_RING, z.sys)
  {
    ReachableIsSafe(v, Initial(v, clock), es, z);
    SturdyKeepsRing(v);
    InitialHolds(v, ON_RING, clock);
    ReachedOnce(v, Initial(v, clock), es, z, z);
    var x := RunHolds(v, ON_RING, Initial(v, clock), es);
    ReachedOnce(v, Initial(v, clock), es, x, z);
  }

  /** For this client an address of the subnet is free if it is allowed, and not allocated or in the client's lease. */
  ghost predicate FreeFor(s: Subnet, store: State<Key>, key: Key, a: Addr) {
    && s.block in store.subnets && a.family == s.block.family && Allowed(s, a.value)
    && (a in store.subnets[s.block] ==> key in store.leases && a in store.leases[key].ips)
  }

  lemma ClearedFrees(v: Server, y: Sys, key: Key, s: Subnet, a: Addr)
    requires Sound(v, y) && Conserved(y.meter.store) && s in SubnetsOf(v)
    ensures Available(s, Cleared(v, y, key), a) <==> FreeFor(s, y.meter.store, key, a)
  {
    if key in y.meter.store.leases && a.family == s.block.family && Allowed(s, a.value) {
      LapseEffect(v, y, key);
      LapseFrees(v, y, key);
      AllowedIff(s, a.value);
      PlacedSubnet(y.meter.store.subnets, s.block, a);
      PlacedSubnet(Cleared(v, y, key).meter.store.subnets, s.block, a);
    }
  }

  lemma ClearedFreesSome(v: Server, y: Sys, key: Key, s: Subnet)
    requires Sound(v, y) && Conserved(y.meter.store) && s in SubnetsOf(v)
    ensures HasFree(s, Cleared(v, y, key)) <==> exists a :: FreeFor(s, y.meter.store, key, a)
  {
    forall a ensures Available(s, Cleared(v, y, key), a) <==> FreeFor(s, y.meter.store, key, a) {
      ClearedFrees(v, y, key, s, a);
    }
  }

  lemma ClearedGrantsIff(v: Server, x: Sys, key: Key, ips: seq<Addr>, now: int)
    requires Sound(v, x) && Conserved(x.meter.store)
    requires Sound(v, Cleared(v, x, key)) && AllSteady(SubnetsOf(v), Cleared(v, x, key))
    ensures var r := NewLease(v, Cleared(v, x, key), key, ips, now);
      r.Turn? ==>
        (r.response.Grant? <==>
            && (forall a :: a in ips ==> a.value == 0)
            && (exists s :: s in SubnetsOf(v) && AsksFor(ips, s.block.family))
            && forall s :: s in SubnetsOf(v) && AsksFor(ips, s.block.family) ==>
                 exists a :: FreeFor(s, x.meter.store, key, a))
  {
    var y := Cleared(v, x, key);
    WantedMeans(ips);
    forall s | s in SubnetsOf(v) ensures HasFree(s, y) <==> exists a :: FreeFor(s, x.meter.store, key, a) {
      ClearedFreesSome(v, x, key, s);
    }
    if Wanted(ips).Some? {
      ConsultedAreConfigured(v, Wanted(ips).value);
      NewLeaseIsGranted(v, y, key, ips, now);
      GrantedIff(v, y, Wanted(ips).value);
    }
  }

  /** A list of available addresses of some subnets, from a position of it on. */
  ghost predicate AllAvailable(subs: seq<Subnet>, y: Sys, ips: seq<Addr>, from: nat) {
    from + |subs| <= |ips| && forall i :: 0 <= i < |subs| ==> Available(subs[i], y, ips[from + i])
  }

  ghost predicate AllFreeFor(subs: seq<Subnet>, store: State<Key>, key: Key, ips: seq<Addr>, from: nat) {
    from + |subs| <= |ips| && forall i :: 0 <= i < |subs| ==> FreeFor(subs[i], store, key, ips[from + i])
  }

  lemma AllFreed(v: Server, x: Sys, key: Key, subs: seq<Subnet>, ips: seq<Addr>, from: nat)
    requires Sound(v, x) && Conserved(x.meter.store) && forall s :: s in subs ==> s in SubnetsOf(v)
    requires AllAvailable(subs, Cleared(v, x, key), ips, from)
    ensures AllFreeFor(subs, x.meter.store, key, ips, from)
  {
    forall i | 0 <= i < |subs| ensures FreeFor(subs[i], x.meter.store, key, ips[from + i]) {
      ClearedFrees(v, x, key, subs[i], ips[from + i]);
    }
  }

  lemma ClearedGives(v: Server, x: Sys, key: Key, wanted: set<Family>)
    requires Sound(v, x) && Conserved(x.meter.store)
    requires Sound(v, Cleared(v, x, key)) && AllSteady(SubnetsOf(v), Cleared(v, x, key))
    requires AllocateAll(v, Cleared(v, x, key), wanted).Granted?
    ensures var ips := AllocateAll(v, Cleared(v, x, key), wanted).ips;
      var n4, n6 := if IPv4 in wanted then |v.subs4| else 0, if IPv6 in wanted then |v.subs6| else 0;
      && |ips| == n4 + n6
      && (IPv4 in wanted ==> AllFreeFor(v.subs4, x.meter.store, key, ips, 0))
      && (IPv6 in wanted ==> AllFreeFor(v.subs6, x.meter.store, key, ips, n4))
  {
    var y := Cleared(v, x, key);
    var ips := AllocateAll(v, y, wanted).ips;
    ConsultedAreConfigured(v, wanted);
    GrantedIff(v, y, wanted);
    if IPv4 in wanted {
      assert AllAvailable(v.subs4, y, ips, 0);
      AllFreed(v, x, key, v.subs4, ips, 0);
    }
    if IPv6 in wanted {
      assert AllAvailable(v.subs6, y, ips, if IPv4 in wanted then |v.subs4| else 0);
      AllFreed(v, x, key, v.subs6, ips, if IPv4 in wanted then |v.subs4| else 0);
    }
  }

  /**
   * After any run, a client without a lease, or with an expired one, is granted a lease exactly when it names only zero
   * addresses, asks for some configured subnet, and each one it asks for has an address free for it.
   */
  lemma EveryRunGrantsIff(v: Server, clock: int, es: seq<Event>, z: World, key: Key, ips: seq<Addr>, t1: int, t2: int)
    requires GoodServer(v) && forall s :: s in SubnetsOf(v) ==> Orderly(s) && EndsOnFreeLast(s)
    requires Reaches(v, Initial(v, clock), es, z)
    requires var leases := z.sys.meter.store.leases; key in leases ==> leases[key].start + leases[key].length <= t1
    ensures Safe(v, z)
    ensures var r := Step(v, z, Ask(key, ips, t1, t2));
      && r.Stepped?
      && (r.response.value.Grant? <==>
            && (forall a :: a in ips ==> a.value == 0)
            && (exists s :: s in SubnetsOf(v) && AsksFor(ips, s.block.family))
            && forall s :: s in SubnetsOf(v) && AsksFor(ips, s.block.family) ==>
                 exists a :: FreeFor(s, z.sys.meter.store, key, a))
  {
    ReachedOnRing(v, clock, es, z);
    SturdyKeepsRing(v);
    StepHolds(v, ON_RING, z, Ask(key, ips, t1, t2));
    ClearedHolds(v, z.sys, key);
    ClearedGrantsIff(v, z.sys, key, ips, t2);
    assert Request(v, z.sys, key, ips, t1, t2) == NewLease(v, Cleared(v, z.sys, key), key, ips, t2);
  }

  /** What a granted client without a current lease gets. */
  lemma AskGives(v: Server, x: Sys, key: Key, ips: seq<Addr>, now: int)
    requires Sound(v, x) && Conserved(x.meter.store)
    requires Sound(v, Cleared(v, x, key)) && AllSteady(SubnetsOf(v), Cleared(v, x, key))
    requires NewLease(v, Cleared(v, x, key), key, ips, now).Turn?
    requires NewLease(v, Cleared(v, x, key), key, ips, now).response.Grant?
    ensures var given := NewLease(v, Cleared(v, x, key), key, ips, now).response.ips;
      var n4, n6 := if AsksFor(ips, IPv4) then |v.subs4| else 0, if AsksFor(ips, IPv6) then |v.subs6| else 0;
      && |given| == n4 + n6
      && (AsksFor(ips, IPv4) ==> AllFreeFor(v.subs4, x.meter.store, key, given, 0))
      && (AsksFor(ips, IPv6) ==> AllFreeFor(v.subs6, x.meter.store, key, given, n4))
  {
    WantedMeans(ips);
    assert Wanted(ips).Some?;
    NewLeaseIsGranted(v, Cleared(v, x, key), key, ips, now);
    ClearedGives(v, x, key, Wanted(ips).value);
  }

  /** And it gets one such address of each, IPv4 first, in configured order. */
  lemma EveryRunGives(v: Server, clock: int, es: seq<Event>, z: World, key: Key, ips: seq<Addr>, t1: int, t2: int)
    requires GoodServer(v) && forall s :: s in SubnetsOf(v) ==> Orderly(s) && EndsOnFreeLast(s)
    requires Reaches(v, Initial(v, clock), es, z)
    requires var leases := z.sys.meter.store.leases; key in leases ==> leases[key].start + leases[key].length <= t1
    ensures Safe(v, z)
    ensures Step(v, z, Ask(key, ips, t1, t2)).Stepped?
    ensures var r := Step(v, z, Ask(key, ips, t1, t2)).response.value;
      r.Grant? ==>
      var given := r.ips;
      var n4, n6 := if AsksFor(ips, IPv4) then |v.subs4| else 0, if AsksFor(ips, IPv6) then |v.subs6| else 0;
      && |given| == n4 + n6
      && (forall i :: 0 <= i < n4 ==> FreeFor(v.subs4[i], z.sys.meter.store, key, given[i]))
      && (forall i :: 0 <= i < n6 ==> FreeFor(v.subs6[i], z.sys.meter.store, key, given[n4 + i]))
  {
    ReachedOnRing(v, clock, es, z);
    SturdyKeepsRing(v);
    StepHolds(v, ON_RING, z, Ask(key, ips, t1, t2));
    ClearedHolds(v, z.sys, key);
    assert Request(v, z.sys, key, ips, t1, t2) == NewLease(v, Cleared(v, z.sys, key), key, ips, t2);
    if Step(v, z, Ask(key, ips, t1, t2)).response.value.Grant? {
      AskGives(v, z.sys, key, ips, t2);
    }
  }
}
