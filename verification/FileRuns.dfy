/**
 * Runs of the server on a file: each is one of the runs of the atomic engine, restarts included, with the same
 * replies.
 */
module FileRuns {
  import opened Util
  import opened Address
  import opened Store
  import opened BoltSpec
  import opened Metrics
  import opened Engine
  import opened Leasing
  import opened Runs
  import opened Programs
  import opened Wiring

  datatype FileWorld = FileWorld(filed: Filed, cursors: map<Block, nat>, clock: int)

  /** A server on a new file. */
  ghost function Opened(v: Server, clock: int): FileWorld
    requires GoodServer(v)
  {
    FileWorld(Filed(Registered(EMPTY_BOLT, BlocksOf(SubnetsOf(v))), map[]), FreshCursors(v), clock)
  }

  /** A server on the same file after a restart. */
  ghost function OpenedAgain(v: Server, x: FileWorld): FileWorld
    requires GoodServer(v)
  {
    var s := x.filed.store;
    var filed := Filed(Registered(Reopened(s), BlocksOf(SubnetsOf(v))), InitialGauge(s.db.subnets));
    FileWorld(filed, FreshCursors(v), x.clock)
  }

  /** One event on the file: what the request's program answers, a purge, or a restart. */
  ghost predicate FileStep(v: Server, x: FileWorld, e: Event, z: FileWorld, response: Option<Response>)
    requires GoodServer(v)
  {
    && z.clock == ClockAfter(x.clock, e)
    && match e
       case Ask(key, ips, t1, t2) =>
         response.Some? && exists ops ::
           PerformsFiled(RequestProg(v, x.cursors, key, ips, t1, t2), x.filed, ops, z.filed,
                         Answer(z.cursors, response.value))
       case Tick(t, _) => response == None && z.cursors == x.cursors && z.filed == FiledStep(x.filed, Purge(t)).0
       case Restart => response == None && z == OpenedAgain(v, x)
  }

  ghost predicate Twins(w: World, x: FileWorld) {
    Alike(w.sys.meter, x.filed) && w.sys.cursors == x.cursors && w.clock == x.clock
  }

  lemma AskTwins(v: Server, w: World, x: FileWorld, e: Event, z: FileWorld, response: Option<Response>)
    requires Safe(v, w) && Twins(w, x) && e.Ask? && FileStep(v, x, e, z, response)
    ensures var r := Step(v, w, e); r.Stepped? && r.response == response && Twins(r.world, z)
  {
    var p := RequestProg(v, x.cursors, e.key, e.ips, e.t1, e.t2);
    var ops :| PerformsFiled(p, x.filed, ops, z.filed, Answer(z.cursors, response.value));
    var turn := Request(v, w.sys, e.key, e.ips, e.t1, e.t2);
    var es, f := RequestOverFile(v, w.sys, x.filed, e.key, e.ips, e.t1, e.t2);
    FiledRunsOneWay(p, x.filed, ops, z.filed, Answer(z.cursors, response.value), es, f, AnswerOf(turn));
  }

  lemma TickTwins(v: Server, w: World, x: FileWorld, t: int, now: int)
    requires Safe(v, w) && Twins(w, x)
    ensures Twins(Step(v, w, Tick(t, now)).world, FileWorld(FiledStep(x.filed, Purge(t)).0, x.cursors, now))
  {
    StepsAgree(w.sys.meter.store, x.filed.store, Purge(t));
  }

  lemma RestartTwins(v: Server, w: World, x: FileWorld)
    requires Safe(v, w) && Twins(w, x)
    ensures Twins(Step(v, w, Restart).world, OpenedAgain(v, x))
  {
    OldFileRestarts(v, w.sys, x.filed.store);
  }

  /** Each event on the file is the event of the atomic engine, with the same reply, and does not crash it. */
  lemma FileStepIsAStep(v: Server, w: World, x: FileWorld, e: Event, z: FileWorld, response: Option<Response>)
    requires Safe(v, w) && Twins(w, x) && FileStep(v, x, e, z, response)
    ensures var r := Step(v, w, e); r.Stepped? && r.response == response && Twins(r.world, z)
  {
    match e
    case Ask(key, ips, t1, t2) => AskTwins(v, w, x, e, z, response);
    case Tick(t, now) => TickTwins(v, w, x, t, now);
    case Restart => RestartTwins(v, w, x);
  }

  /** The file worlds that a run goes through, with the reply to each event. */
  ghost predicate FileReaches(v: Server, x: FileWorld, es: seq<Event>, rs: seq<Option<Response>>, z: FileWorld)
    requires GoodServer(v)
    decreases |es|
  {
    if es == [] then rs == [] && z == x
    else
      && rs != [] && OnTime(x.clock, es[0])
      && exists y :: FileStep(v, x, es[0], y, rs[0]) && FileReaches(v, y, es[1..], rs[1..], z)
  }

  lemma {:induction false} FileRunFollows(v: Server, w: World, x: FileWorld, es: seq<Event>, rs: seq<Option<Response>>,
      z: FileWorld) returns (u: World)
    requires Safe(v, w) && Twins(w, x) && FileReaches(v, x, es, rs, z)
    ensures Reaches(v, w, es, u) && Replies(v, w, es, rs) && Twins(u, z)
    decreases |es|
  {
    if es == [] {
      u := w;
    } else {
      var y :| FileStep(v, x, es[0], y, rs[0]) && FileReaches(v, y, es[1..], rs[1..], z);
      FileStepIsAStep(v, w, x, es[0], y, rs[0]);
      StepIsSafe(v, w, es[0]);
      u := FileRunFollows(v, Step(v, w, es[0]).world, y, es[1..], rs[1..], z);
    }
  }

  lemma OpenedTwins(v: Server, clock: int)
    requires GoodServer(v)
    ensures Twins(Initial(v, clock), Opened(v, clock))
  {
    NewFileStarts(v);
  }

  /** Kept books are kept on a file in the same state. */
  lemma FileConserves(m: State<Key>, s: Bolt)
    requires Same(m, s) && Conserved(m) && Placed(m.subnets)
    ensures forall b, a :: b in s.db.subnets && a in s.db.subnets[b] ==>
      exists kb :: kb in s.db.leases && a in s.db.leases[kb].ips
    ensures forall kb, a :: kb in s.db.leases && a in s.db.leases[kb].ips ==>
      exists b :: b in s.db.subnets && a in s.db.subnets[b]
    ensures forall kb, lb, a ::
      kb in s.db.leases && lb in s.db.leases && a in s.db.leases[kb].ips && a in s.db.leases[lb].ips ==> kb == lb
  {
    ConservedMeans(m);
    KeyBytesInjective();
    forall b, a | b in s.db.subnets && a in s.db.subnets[b]
      ensures exists kb :: kb in s.db.leases && a in s.db.leases[kb].ips
    {
      var k :| k in m.leases && a in m.leases[k].ips;
      assert ENCODE(k) in s.db.leases && a in s.db.leases[ENCODE(k)].ips;
    }
    forall kb, lb, a |
      kb in s.db.leases && lb in s.db.leases && a in s.db.leases[kb].ips && a in s.db.leases[lb].ips
      ensures kb == lb
    {
      var k :| k in m.leases && ENCODE(k) == kb;
      var l :| l in m.leases && ENCODE(l) == lb;
      assert a in m.leases[k].ips && a in m.leases[l].ips;
    }
    forall kb, a | kb in s.db.leases && a in s.db.leases[kb].ips
      ensures exists b :: b in s.db.subnets && a in s.db.subnets[b]
    {
      var k :| k in m.leases && ENCODE(k) == kb;
      assert a in m.leases[k].ips;
    }
  }

  /**
   * Every run on a file is a run of the atomic engine with the same replies, ending in the same leases, allocations,
   * gauge and cursors: so on a file, too, an address is allocated exactly if it is leased, by one client only, and each
   * gauge is right.
   */
  lemma EveryFileRunIsARun(v: Server, clock: int, es: seq<Event>, rs: seq<Option<Response>>, z: FileWorld)
    returns (u: World)
    requires GoodServer(v) && FileReaches(v, Opened(v, clock), es, rs, z)
    ensures Reaches(v, Initial(v, clock), es, u) && Replies(v, Initial(v, clock), es, rs) && Twins(u, z)
    ensures var d := z.filed.store.db;
      && (forall b, a :: b in d.subnets && a in d.subnets[b] ==> exists kb :: kb in d.leases && a in d.leases[kb].ips)
      && (forall kb, a :: kb in d.leases && a in d.leases[kb].ips ==> exists b :: b in d.subnets && a in d.subnets[b])
      && (forall kb, lb, a ::
            kb in d.leases && lb in d.leases && a in d.leases[kb].ips && a in d.leases[lb].ips ==> kb == lb)
    ensures forall b :: b in Blocks(v) ==>
      b in z.filed.store.db.subnets && Gauge(z.filed.gauge, b) == |z.filed.store.db.subnets[b]|
  {
    OpenedTwins(v, clock);
    u := FileRunFollows(v, Initial(v, clock), Opened(v, clock), es, rs, z);
    EveryRunConserves(v, clock, es, u);
    ReachableIsSafe(v, Initial(v, clock), es, u);
    FileConserves(u.sys.meter.store, z.filed.store);
  }

  /** So on a file, too, no address is given to two clients at once. */
  lemma NoAddressTwiceOnFile(v: Server, clock: int, es: seq<Event>, rs: seq<Option<Response>>, z: FileWorld,
      i: nat, j: nat, a: Addr)
    requires GoodServer(v) && FileReaches(v, Opened(v, clock), es, rs, z)
    requires i < j < |es| && es[i].Ask? && es[j].Ask? && es[i].key != es[j].key
    ensures |rs| == |es| && rs[i].Some? && rs[j].Some?
    ensures rs[i].value.Grant? && rs[j].value.Grant? && a in rs[i].value.ips && a in rs[j].value.ips ==>
      rs[i].value.start + rs[i].value.length <= es[j].t2
  {
    var u := EveryFileRunIsARun(v, clock, es, rs, z);
    NoAddressTwice(v, Initial(v, clock), es, rs, i, j, a);
  }

  lemma StepHasAFileStep(v: Server, w: World, x: FileWorld, e: Event) returns (z: FileWorld)
    requires Safe(v, w) && Twins(w, x) && Step(v, w, e).Stepped?
    ensures FileStep(v, x, e, z, Step(v, w, e).response) && Twins(Step(v, w, e).world, z)
  {
    match e
    case Ask(key, ips, t1, t2) =>
      var ops, f := RequestOverFile(v, w.sys, x.filed, key, ips, t1, t2);
      z := FileWorld(f, Step(v, w, e).world.sys.cursors, t2);
    case Tick(t, now) =>
      TickTwins(v, w, x, t, now);
      z := FileWorld(FiledStep(x.filed, Purge(t)).0, x.cursors, now);
    case Restart =>
      RestartTwins(v, w, x);
      z := OpenedAgain(v, x);
  }

  /** And every run of the atomic engine can be had on a file. */
  lemma {:induction false} EveryRunHasAFileRun(v: Server, w: World, x: FileWorld, es: seq<Event>, u: World)
    returns (rs: seq<Option<Response>>, z: FileWorld)
    requires Safe(v, w) && Twins(w, x) && Reaches(v, w, es, u)
    ensures FileReaches(v, x, es, rs, z) && Replies(v, w, es, rs) && Twins(u, z)
    decreases |es|
  {
    if es == [] {
      rs, z := [], x;
    } else {
      var y := StepHasAFileStep(v, w, x, es[0]);
      StepIsSafe(v, w, es[0]);
      rs, z := EveryRunHasAFileRun(v, Step(v, w, es[0]).world, y, es[1..], u);
      var first := Step(v, w, es[0]).response;
      assert ([first] + rs)[1..] == rs;
      rs := [first] + rs;
    }
  }
}
