/** Runs of the whole server: requests, purges and restarts on a forward clock, and what no run can break. */
module Runs {
  import opened Util
  import opened Address
  import opened Config
  import opened Store
  import opened Metrics
  import opened Engine
  import opened Leasing

  datatype Event =
    | Ask(key: Key, ips: seq<Addr>, t1: int, t2: int)
    | Tick(t: int, now: int)
    | Restart

  /** One address of a reply, promised to a client until its expiry. */
  datatype Promise = Promise(key: Key, addr: Addr, expiry: int)

  datatype World = World(sys: Sys, clock: int, promises: set<Promise>)

  function PromisesOf(key: Key, g: Response): set<Promise>
    requires g.Grant?
  {
    set a | a in g.ips :: Promise(key, a, g.start + g.length)
  }

  /** The allocators' cursors as their constructors set them. */
  ghost function FreshCursors(v: Server): map<Block, nat>
    requires GoodServer(v)
  {
    map b | b in Blocks(v) :: StartOf(SubnetFor(v, b))
  }

  ghost function SubnetFor(v: Server, b: Block): (s: Subnet)
    requires b in Blocks(v)
    ensures s in SubnetsOf(v) && s.block == b
  {
    var s :| s in SubnetsOf(v) && s.block == b;
    s
  }

  /** A new process on the same file and configuration: cursors and gauge start over, the store stays. */
  ghost function Restarted(v: Server, y: Sys): Sys
    requires GoodServer(v)
  {
    Sys(Metered(y.meter.store, InitialGauge(y.meter.store.subnets)), FreshCursors(v))
  }

  /** The first process on an empty store: the gauge is set up before any subnet is registered. */
  ghost function Started(v: Server): Sys
    requires GoodServer(v)
  {
    Sys(Metered(State(map[], map b | b in Blocks(v) :: {}), map[]), FreshCursors(v))
  }

  /** What holds in every reachable state. */
  ghost predicate Safe(v: Server, w: World) {
    && Sound(v, w.sys)
    && Conserved(w.sys.meter.store)
    && (forall k :: k in w.sys.meter.store.leases ==> Timely(v, w.clock, w.sys.meter.store.leases[k]))
    && (forall p :: p in w.promises ==> Kept(w.sys.meter.store.leases, w.clock, p))
  }

  ghost predicate Timely(v: Server, clock: int, l: Lease) {
    l.length == v.duration && l.start <= Seconds(clock)
  }

  /** A promise is over, or its client still holds the address at least as long. */
  ghost predicate Kept(leases: map<Key, Lease>, clock: int, p: Promise) {
    p.expiry <= clock || (p.key in leases && p.addr in leases[p.key].ips && p.expiry <= Expiry(leases[p.key]))
  }

  /** Clocks never go back, and a purge's time is not ahead of the clock. */
  predicate OnTime(clock: int, e: Event) {
    match e
    case Ask(_, _, t1, t2) => clock <= t1 <= t2
    case Tick(t, now) => clock <= now && t <= now
    case Restart => true
  }

  function ClockAfter(clock: int, e: Event): int {
    match e
    case Ask(_, _, _, t2) => t2
    case Tick(_, now) => now
    case Restart => clock
  }

  datatype Stepped = Stepped(world: World, response: Option<Response>) | Down

  ghost function Step(v: Server, w: World, e: Event): Stepped
    requires Safe(v, w)
  {
    var clock := ClockAfter(w.clock, e);
    match e
    case Ask(key, ips, t1, t2) =>
      (match Request(v, w.sys, key, ips, t1, t2)
       case Crashed => Down
       case Turn(y, r) => Stepped(World(y, clock, w.promises + (if r.Grant? then PromisesOf(key, r) else {})), Some(r)))
    case Tick(t, _) =>
      Stepped(World(w.sys.(meter := MeteredStep(w.sys.meter, Purge(t)).0), clock, w.promises), None)
    case Restart => Stepped(World(Restarted(v, w.sys), clock, w.promises), None)
  }

  lemma FreshCursorsServe(v: Server, y: Sys)
    requires GoodServer(v) && y.meter.store.subnets.Keys == Blocks(v) && y.cursors == FreshCursors(v)
    ensures forall s :: s in SubnetsOf(v) ==> Served(s, y)
  {
    forall s | s in SubnetsOf(v) ensures Served(s, y) {
      assert s.block in Blocks(v);
      ValidSubnetShape(s);
      ValidSubnetShape(SubnetFor(v, s.block));
    }
  }

  lemma BlocksApart(v: Server, b: Block, c: Block)
    requires GoodServer(v) && b in Blocks(v) && c in Blocks(v) && b != c
    ensures Disjoint(b, c)
  {
    var s, t := SubnetFor(v, b), SubnetFor(v, c);
    var all := SubnetsOf(v);
    var i :| 0 <= i < |all| && all[i] == s;
    var j :| 0 <= j < |all| && all[j] == t;
    assert i < j || j < i;
  }

  lemma StartedIsSafe(v: Server, clock: int)
    requires GoodServer(v)
    ensures Safe(v, World(Started(v), clock, {}))
  {
    var empty: map<Block, set<Addr>> := map b | b in Blocks(v) :: {};
    forall b, c | b in empty && c in empty && b != c ensures Disjoint(b, c) {
      BlocksApart(v, b, c);
    }
    FreshCursorsServe(v, Started(v));
    assert AddrsOf(empty) == {};
    assert LeasedAddrs<Key>(map[]) == {};
  }

  /** A server on an empty store, with all its subnets registered. */
  ghost function Initial(v: Server, clock: int): (w: World)
    requires GoodServer(v)
    ensures Safe(v, w)
  {
    StartedIsSafe(v, clock);
    World(Started(v), clock, {})
  }

  lemma TickIsSafe(v: Server, w: World, t: int, now: int)
    requires Safe(v, w) && OnTime(w.clock, Tick(t, now))
    ensures Step(v, w, Tick(t, now)).Stepped? && Safe(v, Step(v, w, Tick(t, now)).world)
  {
    PurgeEffect(w.sys.meter, t);
    var z := Step(v, w, Tick(t, now)).world;
    assert forall s :: s in SubnetsOf(v) ==> Served(s, w.sys) && Served(s, z.sys);
    SecondsMonotone(w.clock, now);
    forall p | p in z.promises ensures Kept(z.sys.meter.store.leases, z.clock, p) {
      assert Kept(w.sys.meter.store.leases, w.clock, p);
    }
  }

  lemma AskIsSafe(v: Server, w: World, key: Key, ips: seq<Addr>, t1: int, t2: int)
    requires Safe(v, w) && OnTime(w.clock, Ask(key, ips, t1, t2))
    ensures var r := Step(v, w, Ask(key, ips, t1, t2)); r.Stepped? ==> Safe(v, r.world)
  {
    RequestEffect(v, w.sys, key, ips, t1, t2);
    SecondsMonotone(w.clock, t2);
    var r := Step(v, w, Ask(key, ips, t1, t2));
    if r.Stepped? {
      var z := r.world;
      var before, after := w.sys.meter.store.leases, z.sys.meter.store.leases;
      forall k | k in after ensures Timely(v, z.clock, after[k]) {
        if k != key {
          assert k in after - {key};
        }
      }
      forall p | p in z.promises ensures Kept(z.sys.meter.store.leases, z.clock, p) {
        if p in w.promises {
          PromiseStaysKept(v, w, z, key, ips, t1, t2, p);
        }
      }
    }
  }

  lemma PromiseStaysKept(v: Server, w: World, z: World, key: Key, ips: seq<Addr>, t1: int, t2: int, p: Promise)
    requires Safe(v, w) && OnTime(w.clock, Ask(key, ips, t1, t2)) && p in w.promises
    requires Step(v, w, Ask(key, ips, t1, t2)).Stepped? && z == Step(v, w, Ask(key, ips, t1, t2)).world
    ensures Kept(z.sys.meter.store.leases, z.clock, p)
  {
    RequestEffect(v, w.sys, key, ips, t1, t2);
    SecondsMonotone(w.clock, t2);
    assert Kept(w.sys.meter.store.leases, w.clock, p);
    if p.expiry > t2 && p.key != key {
      assert p.key in w.sys.meter.store.leases - {key};
    }
  }

  /** Every event that does not crash the process keeps every promise and every book. */
  lemma StepIsSafe(v: Server, w: World, e: Event)
    requires Safe(v, w) && OnTime(w.clock, e)
    ensures var r := Step(v, w, e); r.Stepped? ==> Safe(v, r.world)
  {
    match e
    case Ask(key, ips, t1, t2) =>
      AskIsSafe(v, w, key, ips, t1, t2);
    case Tick(t, now) =>
      TickIsSafe(v, w, t, now);
    case Restart =>
      FreshCursorsServe(v, Restarted(v, w.sys));
      var z := Step(v, w, e).world;
      forall p | p in z.promises ensures Kept(z.sys.meter.store.leases, z.clock, p) {
        assert Kept(w.sys.meter.store.leases, w.clock, p);
      }
  }

  /** When a reply gives an address to one client, every earlier promise of it to another client is over. */
  lemma PromisesAreExclusive(v: Server, w: World, key: Key, ips: seq<Addr>, t1: int, t2: int, p: Promise)
    requires Safe(v, w) && OnTime(w.clock, Ask(key, ips, t1, t2))
    requires p in w.promises && p.key != key
    ensures var r := Step(v, w, Ask(key, ips, t1, t2));
      r.Stepped? && r.response.value.Grant? && p.addr in r.response.value.ips ==> p.expiry <= t2
  {
    var r := Step(v, w, Ask(key, ips, t1, t2));
    if r.Stepped? && r.response.value.Grant? && p.addr in r.response.value.ips {
      AskIsSafe(v, w, key, ips, t1, t2);
      PromiseStaysKept(v, w, r.world, key, ips, t1, t2, p);
      RequestEffect(v, w.sys, key, ips, t1, t2);
      var leases := r.world.sys.meter.store.leases;
      assert p.addr in leases[key].ips;
    }
  }

  /** The worlds a run of events goes through; a crash ends it. */
  ghost predicate Reaches(v: Server, w: World, es: seq<Event>, z: World)
    requires Safe(v, w)
    decreases |es|
  {
    if es == [] then z == w
    else
      && OnTime(w.clock, es[0])
      && var r := Step(v, w, es[0]);
         && r.Stepped?
         && (StepIsSafe(v, w, es[0]); Reaches(v, r.world, es[1..], z))
  }

  lemma {:induction false} ReachableIsSafe(v: Server, w: World, es: seq<Event>, z: World)
    requires Safe(v, w) && Reaches(v, w, es, z)
    ensures Safe(v, z) && w.promises <= z.promises && w.clock <= z.clock
    decreases |es|
  {
    if es != [] {
      StepIsSafe(v, w, es[0]);
      ReachableIsSafe(v, Step(v, w, es[0]).world, es[1..], z);
    }
  }

  /** Kept books, address by address. */
  lemma ConservedMeans(s: State<Key>)
    requires Conserved(s) && Placed(s.subnets)
    ensures forall b, a :: b in s.subnets && a in s.subnets[b] ==> exists k :: k in s.leases && a in s.leases[k].ips
    ensures forall k, a :: k in s.leases && a in s.leases[k].ips ==> exists b :: b in s.subnets && a in s.subnets[b]
    ensures forall j, k, a :: j in s.leases && k in s.leases && a in s.leases[j].ips && a in s.leases[k].ips ==> j == k
    ensures forall k, i, j :: k in s.leases && 0 <= i < j < |s.leases[k].ips| ==>
      s.leases[k].ips[i] != s.leases[k].ips[j]
    ensures forall b, c, a :: b in s.subnets && c in s.subnets && a in s.subnets[b] && a in s.subnets[c] ==> b == c
  {
    forall b, a | b in s.subnets && a in s.subnets[b] ensures exists k :: k in s.leases && a in s.leases[k].ips {
      assert a in AddrsOf(s.subnets);
      assert a in LeasedAddrs(s.leases);
    }
    forall k, a | k in s.leases && a in s.leases[k].ips ensures exists b :: b in s.subnets && a in s.subnets[b] {
      assert a in LeasedAddrs(s.leases);
      assert a in AddrsOf(s.subnets);
    }
    forall b, c, a | b in s.subnets && c in s.subnets && a in s.subnets[b] && a in s.subnets[c] ensures b == c {
      assert Contains(b, a) && Contains(c, a);
    }
  }

  /**
   * In every run: an address is allocated from some subnet exactly if it is in some lease; it is in one lease only,
   * once, and allocated from one subnet only; and each gauge is its subnet's size.
   */
  lemma EveryRunConserves(v: Server, clock: int, es: seq<Event>, z: World)
    requires GoodServer(v) && Reaches(v, Initial(v, clock), es, z)
    ensures var s := z.sys.meter.store;
      && (forall b, a :: b in s.subnets && a in s.subnets[b] ==> exists k :: k in s.leases && a in s.leases[k].ips)
      && (forall k, a :: k in s.leases && a in s.leases[k].ips ==> exists b :: b in s.subnets && a in s.subnets[b])
      && (forall j, k, a :: j in s.leases && k in s.leases && a in s.leases[j].ips && a in s.leases[k].ips ==> j == k)
      && (forall k, i, j :: k in s.leases && 0 <= i < j < |s.leases[k].ips| ==>
            s.leases[k].ips[i] != s.leases[k].ips[j])
      && (forall b, c, a :: b in s.subnets && c in s.subnets && a in s.subnets[b] && a in s.subnets[c] ==> b == c)
    ensures forall b :: b in Blocks(v) ==>
      b in z.sys.meter.store.subnets && Gauge(z.sys.meter.gauge, b) == |z.sys.meter.store.subnets[b]|
    ensures Conserved(z.sys.meter.store)
  {
    ReachableIsSafe(v, Initial(v, clock), es, z);
    ConservedMeans(z.sys.meter.store);
  }

  /** In every run, no reply gives out an address that an earlier reply still promises to another client. */
  lemma EveryRunIsExclusive(v: Server, clock: int, es: seq<Event>, z: World, key: Key, ips: seq<Addr>, t1: int, t2: int)
    requires GoodServer(v) && Reaches(v, Initial(v, clock), es, z)
    requires OnTime(z.clock, Ask(key, ips, t1, t2))
    ensures Safe(v, z)
    ensures var r := Step(v, z, Ask(key, ips, t1, t2));
      r.Stepped? && r.response.value.Grant? ==>
        forall p :: p in z.promises && p.key != key && p.addr in r.response.value.ips ==> p.expiry <= t2
  {
    ReachableIsSafe(v, Initial(v, clock), es, z);
    var r := Step(v, z, Ask(key, ips, t1, t2));
    if r.Stepped? && r.response.value.Grant? {
      forall p | p in z.promises && p.key != key && p.addr in r.response.value.ips ensures p.expiry <= t2 {
        PromisesAreExclusive(v, z, key, ips, t1, t2, p);
      }
    }
  }

  /** The replies along a run, one for each event. */
  ghost predicate Replies(v: Server, w: World, es: seq<Event>, rs: seq<Option<Response>>)
    requires Safe(v, w)
    decreases |es|
  {
    if es == [] then rs == []
    else
      && rs != [] && OnTime(w.clock, es[0])
      && var r := Step(v, w, es[0]);
         && r.Stepped? && r.response == rs[0]
         && (StepIsSafe(v, w, es[0]); Replies(v, r.world, es[1..], rs[1..]))
  }

  /** From a promise on: no later reply of the run gives the address to another client before it is over. */
  lemma {:induction false} PromiseIsRespected(v: Server, w: World, es: seq<Event>, rs: seq<Option<Response>>, j: nat,
      p: Promise)
    requires Safe(v, w) && Replies(v, w, es, rs) && p in w.promises
    requires j < |es| && es[j].Ask? && es[j].key != p.key
    ensures j < |rs| && rs[j].Some?
    ensures rs[j].value.Grant? && p.addr in rs[j].value.ips ==> p.expiry <= es[j].t2
    decreases j
  {
    StepIsSafe(v, w, es[0]);
    if j == 0 {
      PromisesAreExclusive(v, w, es[0].key, es[0].ips, es[0].t1, es[0].t2, p);
    } else {
      PromiseIsRespected(v, Step(v, w, es[0]).world, es[1..], rs[1..], j - 1, p);
    }
  }

  /**
   * In the replies of any run: an address given to one client is given to another only once the time for which the
   * first was told it has it is over.
   */
  lemma {:induction false} NoAddressTwice(v: Server, w: World, es: seq<Event>, rs: seq<Option<Response>>, i: nat,
      j: nat, a: Addr)
    requires Safe(v, w) && Replies(v, w, es, rs)
    requires i < j < |es| && es[i].Ask? && es[j].Ask? && es[i].key != es[j].key
    ensures |rs| == |es| && rs[i].Some? && rs[j].Some?
    ensures rs[i].value.Grant? && rs[j].value.Grant? && a in rs[i].value.ips && a in rs[j].value.ips ==>
      rs[i].value.start + rs[i].value.length <= es[j].t2
    decreases i
  {
    RepliesLength(v, w, es, rs);
    StepIsSafe(v, w, es[0]);
    var z := Step(v, w, es[0]).world;
    if i > 0 {
      NoAddressTwice(v, z, es[1..], rs[1..], i - 1, j - 1, a);
    } else if rs[0].value.Grant? && a in rs[0].value.ips {
      var p := Promise(es[0].key, a, rs[0].value.start + rs[0].value.length);
      assert p in z.promises;
      PromiseIsRespected(v, z, es[1..], rs[1..], j - 1, p);
    } else {
      RepliesToAsk(v, z, es[1..], rs[1..], j - 1);
    }
  }

  lemma {:induction false} RepliesLength(v: Server, w: World, es: seq<Event>, rs: seq<Option<Response>>)
    requires Safe(v, w) && Replies(v, w, es, rs)
    ensures |rs| == |es|
    decreases |es|
  {
    if es != [] {
      StepIsSafe(v, w, es[0]);
      RepliesLength(v, Step(v, w, es[0]).world, es[1..], rs[1..]);
    }
  }

  lemma {:induction false} RepliesToAsk(v: Server, w: World, es: seq<Event>, rs: seq<Option<Response>>, j: nat)
    requires Safe(v, w) && Replies(v, w, es, rs) && j < |es| && es[j].Ask?
    ensures j < |rs| && rs[j].Some?
    decreases j
  {
    StepIsSafe(v, w, es[0]);
    if j > 0 {
      RepliesToAsk(v, Step(v, w, es[0]).world, es[1..], rs[1..], j - 1);
    }
  }

  /** The client's lease has these addresses and this expiry. */
  ghost predicate Holds(w: World, key: Key, own: seq<Addr>, expiry: int) {
    var leases := w.sys.meter.store.leases;
    key in leases && leases[key].ips == own && leases[key].start + leases[key].length == expiry
  }

  lemma HoldsOrOver(v: Server, w: World, e: Event, key: Key, own: seq<Addr>, expiry: int)
    requires Safe(v, w) && OnTime(w.clock, e) && Step(v, w, e).Stepped?
    requires Holds(w, key, own, expiry) || expiry <= w.clock
    requires e.Ask? ==> e.key != key
    ensures Holds(Step(v, w, e).world, key, own, expiry) || expiry <= ClockAfter(w.clock, e)
  {
    match e
    case Ask(k, ips, t1, t2) =>
      RequestEffect(v, w.sys, k, ips, t1, t2);
      if Holds(w, key, own, expiry) {
        assert key in w.sys.meter.store.leases - {k};
      }
    case Tick(t, now) =>
    case Restart =>
  }

  lemma HolderIsRenewed(v: Server, w: World, e: Event, own: seq<Addr>, expiry: int)
    requires Safe(v, w) && OnTime(w.clock, e) && Step(v, w, e).Stepped? && e.Ask?
    requires Holds(w, e.key, own, expiry) && e.t1 < expiry && forall a :: a in e.ips ==> a.value == 0 || a in own
    ensures Step(v, w, e).response == Some(Grant(own, Seconds(e.t2), v.duration))
    ensures expiry <= Seconds(e.t2) + v.duration
    ensures Holds(Step(v, w, e).world, e.key, own, Seconds(e.t2) + v.duration)
  {
    RequestEffect(v, w.sys, e.key, e.ips, e.t1, e.t2);
    SecondsMonotone(w.clock, e.t2);
  }

  /**
   * A client that holds a lease and next asks before it expires, for zero addresses or its own, gets the same addresses
   * again, for at least as long, whatever other clients, purges and restarts do in between.
   */
  lemma {:induction false} RenewalIsStable(v: Server, w: World, es: seq<Event>, rs: seq<Option<Response>>, j: nat,
      own: seq<Addr>, expiry: int)
    requires Safe(v, w) && Replies(v, w, es, rs) && j < |es| && es[j].Ask?
    requires Holds(w, es[j].key, own, expiry) || expiry <= w.clock
    requires forall k :: 0 <= k < j && es[k].Ask? ==> es[k].key != es[j].key
    requires es[j].t1 < expiry && forall a :: a in es[j].ips ==> a.value == 0 || a in own
    ensures j < |rs| && rs[j] == Some(Grant(own, Seconds(es[j].t2), v.duration))
    ensures expiry <= Seconds(es[j].t2) + v.duration
    decreases j
  {
    var z := Step(v, w, es[0]).world;
    StepIsSafe(v, w, es[0]);
    if j == 0 {
      HolderIsRenewed(v, w, es[0], own, expiry);
    } else {
      HoldsOrOver(v, w, es[0], es[j].key, own, expiry);
      RenewalIsStable(v, z, es[1..], rs[1..], j - 1, own, expiry);
    }
  }

  lemma GrantedHolds(v: Server, w: World, e: Event)
    requires Safe(v, w) && OnTime(w.clock, e) && e.Ask? && Step(v, w, e).Stepped?
    requires Step(v, w, e).response.value.Grant?
    ensures var r := Step(v, w, e).response.value; Holds(Step(v, w, e).world, e.key, r.ips, r.start + r.length)
  {
    RequestEffect(v, w.sys, e.key, e.ips, e.t1, e.t2);
  }

  /**
   * In the replies of any run: a client that was given addresses and next asks within the time it was told, for zero
   * addresses or for some of them, is given the same addresses again, and its time does not get shorter.
   */
  lemma {:induction false} NextReplyIsSame(v: Server, w: World, es: seq<Event>, rs: seq<Option<Response>>, i: nat,
      j: nat)
    requires Safe(v, w) && Replies(v, w, es, rs) && |rs| == |es|
    requires i < j < |es| && es[i].Ask? && es[j].Ask? && es[i].key == es[j].key && rs[i].Some? && rs[i].value.Grant?
    requires forall k :: i < k < j && es[k].Ask? ==> es[k].key != es[j].key
    requires es[j].t1 < rs[i].value.start + rs[i].value.length
    requires forall a :: a in es[j].ips ==> a.value == 0 || a in rs[i].value.ips
    ensures rs[j] == Some(Grant(rs[i].value.ips, Seconds(es[j].t2), v.duration))
    ensures rs[i].value.start + rs[i].value.length <= Seconds(es[j].t2) + v.duration
    decreases i
  {
    StepIsSafe(v, w, es[0]);
    var z := Step(v, w, es[0]).world;
    if i > 0 {
      NextReplyIsSame(v, z, es[1..], rs[1..], i - 1, j - 1);
    } else {
      GrantedHolds(v, w, es[0]);
      RenewalIsStable(v, z, es[1..], rs[1..], j - 1, rs[0].value.ips, rs[0].value.start + rs[0].value.length);
    }
  }
}
