/** The gauge in interleavings: it lags behind the store by exactly what requests and purges still owe it. */
module Lag {
  import opened Util
  import opened Address
  import opened Store
  import opened Purging
  import opened Metrics
  import opened Engine
  import opened Concurrent
  import opened Interleavings

  /** The wrapper touches the gauge after the store operation. */
  function Moved(gauge: map<Block, int>, b: Block, change: int): map<Block, int> {
    gauge[b := Gauge(gauge, b) + change]
  }

  /** What a request has done to a store and not yet to its gauge. */
  datatype Due = Increment(block: Block) | Decrement(block: Block)

  datatype Meters = Meters(net: Net, gauge: map<Block, int>, due: map<Key, Due>, debits: map<Block, nat>)

  /** A step of the interleaving, or one of the gauge operations that follow it. */
  datatype Move = Do(action: Action) | Settle(key: Key) | Debit(block: Block)

  /** A request settles before it goes on, and a purge debits all its counts before the next one. */
  ghost predicate Possible(v: Server, g: Meters, e: Move) {
    match e
    case Do(act) =>
      Enabled(v, g.net, act) &&
      (match act
       case Sweep(_, _) => g.debits == map[]
       case Reboot => true
       case _ => act.key !in g.due)
    case Settle(k) => k in g.due
    case Debit(b) => b in g.debits
  }

  function Change(d: Due): int {
    if d.Increment? then 1 else -1
  }

  ghost function TryDue(v: Server, n: Net, key: Key, a: Addr): Option<Due>
    requires Enabled(v, n, Try(key, a))
  {
    var f := n.flights[key];
    var b := Consulted(v, f.families)[|f.held|].block;
    if MemoryStep(n.store, AllocateIP(b, a)).1 == Allocated(true) then Some(Increment(b)) else None
  }

  ghost function FreeDue(v: Server, n: Net, key: Key): Option<Due>
    requires Enabled(v, n, Free(key))
  {
    var rest := n.flights[key].rest;
    if rest == [] || HomeOf(n.store, rest[0]).None? then None else Some(Decrement(HomeOf(n.store, rest[0]).value))
  }

  function Owing(due: map<Key, Due>, key: Key, d: Option<Due>): map<Key, Due> {
    if d.Some? then due[key := d.value] else due
  }

  ghost function Make(v: Server, g: Meters, e: Move): Meters
    requires Possible(v, g, e)
  {
    match e
    case Do(act) =>
      var n := Act(v, g.net, act);
      (match act
       case Try(k, a) => g.(net := n, due := Owing(g.due, k, TryDue(v, g.net, k, a)))
       case Free(k) => g.(net := n, due := Owing(g.due, k, FreeDue(v, g.net, k)))
       case Sweep(t, _) => g.(net := n, debits := MemoryStep(g.net.store, Purge(t)).1.ips)
       case Reboot => Meters(n, InitialGauge(n.store.subnets), map[], map[])
       case _ => g.(net := n))
    case Settle(k) => g.(gauge := Moved(g.gauge, g.due[k].block, Change(g.due[k])), due := g.due - {k})
    case Debit(b) => g.(gauge := Moved(g.gauge, b, -(g.debits[b] as int)), debits := g.debits - {b})
  }

  ghost function Ups(due: map<Key, Due>, b: Block): set<Key> {
    set k | k in due && due[k] == Increment(b)
  }

  ghost function Downs(due: map<Key, Due>, b: Block): set<Key> {
    set k | k in due && due[k] == Decrement(b)
  }

  /** All that the requests in flight owe one gauge. */
  ghost function Owed(due: map<Key, Due>, b: Block): int {
    |Ups(due, b)| - |Downs(due, b)|
  }

  lemma UpsMore(due: map<Key, Due>, k: Key, d: Due, b: Block)
    requires k !in due
    ensures |Ups(due[k := d], b)| == |Ups(due, b)| + (if d == Increment(b) then 1 else 0)
  {
    assert Ups(due[k := d], b) == if d == Increment(b) then Ups(due, b) + {k} else Ups(due, b);
  }

  lemma DownsMore(due: map<Key, Due>, k: Key, d: Due, b: Block)
    requires k !in due
    ensures |Downs(due[k := d], b)| == |Downs(due, b)| + (if d == Decrement(b) then 1 else 0)
  {
    assert Downs(due[k := d], b) == if d == Decrement(b) then Downs(due, b) + {k} else Downs(due, b);
  }

  lemma OwedMore(due: map<Key, Due>, k: Key, d: Due, b: Block)
    requires k !in due
    ensures Owed(due[k := d], b) == Owed(due, b) + (if d.block == b then Change(d) else 0)
  {
    UpsMore(due, k, d, b);
    DownsMore(due, k, d, b);
  }

  lemma OwedLess(due: map<Key, Due>, k: Key, b: Block)
    requires k in due
    ensures Owed(due - {k}, b) == Owed(due, b) - (if due[k].block == b then Change(due[k]) else 0)
  {
    OwedMore(due - {k}, k, due[k], b);
    assert (due - {k})[k := due[k]] == due;
  }

  /** Gauge, what requests owe it and what a purge owes it add up to the size of the allocated set. */
  ghost predicate Balanced(g: Meters) {
    forall b :: b in g.net.store.subnets ==>
      Gauge(g.gauge, b) + Owed(g.due, b) - CountFor(g.debits, b) == |g.net.store.subnets[b]|
  }

  ghost predicate Tracked(v: Server, g: Meters) {
    Good(v, g.net) && g.due.Keys <= g.net.flights.Keys && Balanced(g)
  }

  /** How the allocated sets change under a due, seen from one of them. */
  ghost predicate Resized(was: State<Key>, now: State<Key>, d: Option<Due>) {
    && now.subnets.Keys == was.subnets.Keys
    && forall b :: b in was.subnets ==>
      |now.subnets[b]| == |was.subnets[b]| + (if d.Some? && d.value.block == b then Change(d.value) else 0)
  }

  /** A step that owes one change is a step that makes this change to one set, by one address. */
  lemma BalanceOwed(g: Meters, h: Meters, k: Key, d: Option<Due>)
    requires Balanced(g) && k !in g.due
    requires h.gauge == g.gauge && h.debits == g.debits && h.due == Owing(g.due, k, d)
    requires Resized(g.net.store, h.net.store, d)
    ensures Balanced(h)
  {
    forall b | b in h.net.store.subnets
      ensures Gauge(h.gauge, b) + Owed(h.due, b) - CountFor(h.debits, b) == |h.net.store.subnets[b]|
    {
      if d.Some? {
        OwedMore(g.due, k, d.value, b);
      }
    }
  }

  lemma AllocationResizes(s: State<Key>, b: Block, a: Addr)
    ensures var (n, r) := MemoryStep(s, AllocateIP(b, a));
      Resized(s, n, if r == Allocated(true) then Some(Increment(b)) else None)
  {
  }

  lemma FreeResizes(s: State<Key>, a: Addr)
    requires Placed(s.subnets) && a in AddrsOf(s.subnets)
    ensures var home := HomeOf(s, a); home.Some? && Resized(s, OneFreed(s, a), Some(Decrement(home.value)))
  {
    var b :| b in s.subnets && a in s.subnets[b];
    assert Contains(b, a);
    PlacedSubnet(s.subnets, HomeOf(s, a).value, a);
  }

  lemma TryBalances(v: Server, g: Meters, key: Key, a: Addr)
    requires Tracked(v, g) && Possible(v, g, Do(Try(key, a)))
    ensures Balanced(Make(v, g, Do(Try(key, a))))
  {
    var f := g.net.flights[key];
    var b := Consulted(v, f.families)[|f.held|].block;
    AllocationResizes(g.net.store, b, a);
    BalanceOwed(g, Make(v, g, Do(Try(key, a))), key, TryDue(v, g.net, key, a));
  }

  /** The decrement is owed for an address that was allocated. */
  lemma FreeBalances(v: Server, g: Meters, key: Key)
    requires Tracked(v, g) && Possible(v, g, Do(Free(key)))
    ensures Balanced(Make(v, g, Do(Free(key))))
  {
    var rest := g.net.flights[key].rest;
    if rest != [] {
      assert rest[0] in Owned(g.net, InFlight(key));
      FreeResizes(g.net.store, rest[0]);
    }
    BalanceOwed(g, Make(v, g, Do(Free(key))), key, FreeDue(v, g.net, key));
  }

  /** The counts a purge owes are what each set lost, whatever is in flight. */
  lemma SweepBalances(v: Server, g: Meters, t: int, now: int)
    requires Tracked(v, g) && Possible(v, g, Do(Sweep(t, now)))
    ensures Balanced(Make(v, g, Do(Sweep(t, now))))
  {
    var h := Make(v, g, Do(Sweep(t, now)));
    var leases, subnets := g.net.store.leases, g.net.store.subnets;
    LeasesOwnApart(g.net);
    forall b | b in subnets
      ensures Gauge(h.gauge, b) + Owed(h.due, b) - CountFor(h.debits, b) == |h.net.store.subnets[b]|
    {
      forall k, a | k in leases && a in leases[k].ips && Contains(b, a) ensures a in subnets[b] {
        assert a in Owned(g.net, Lessee(k));
        PlacedSubnet(subnets, b, a);
      }
      FreedCountIsDrop(leases, t, b, subnets[b]);
    }
  }

  lemma SettleBalances(v: Server, g: Meters, key: Key)
    requires Tracked(v, g) && key in g.due
    ensures Balanced(Make(v, g, Settle(key)))
  {
    forall b
      ensures Owed(g.due - {key}, b) == Owed(g.due, b) - (if g.due[key].block == b then Change(g.due[key]) else 0)
    {
      OwedLess(g.due, key, b);
    }
  }

  lemma RebootBalances(v: Server, g: Meters)
    ensures Balanced(Make(v, g, Do(Reboot)))
  {
    forall b ensures Owed(map[], b) == 0 {
    }
  }

  /** A request leaves only when it has settled. */
  lemma DuesAreInFlight(v: Server, g: Meters, act: Action)
    requires Possible(v, g, Do(act)) && g.due.Keys <= g.net.flights.Keys
    ensures var h := Make(v, g, Do(act)); h.due.Keys <= h.net.flights.Keys
  {
  }

  lemma DoBalances(v: Server, g: Meters, act: Action)
    requires Tracked(v, g) && Possible(v, g, Do(act))
    ensures Balanced(Make(v, g, Do(act)))
  {
    match act
    case Try(k, a) => TryBalances(v, g, k, a);
    case Free(k) => FreeBalances(v, g, k);
    case Sweep(t, now) => SweepBalances(v, g, t, now);
    case Reboot => RebootBalances(v, g);
    case _ =>
      assert Make(v, g, Do(act)).net.store.subnets == g.net.store.subnets;
  }

  /** Every step keeps the balance. */
  lemma MoveIsTracked(v: Server, g: Meters, e: Move)
    requires Tracked(v, g) && Possible(v, g, e)
    ensures Tracked(v, Make(v, g, e))
  {
    match e
    case Settle(k) => SettleBalances(v, g, k);
    case Debit(b) =>
    case Do(act) =>
      ActIsGood(v, g.net, act);
      DuesAreInFlight(v, g, act);
      DoBalances(v, g, act);
  }

  ghost predicate Runs(v: Server, g: Meters, es: seq<Move>, h: Meters)
    decreases |es|
  {
    if es == [] then h == g
    else Possible(v, g, es[0]) && Runs(v, Make(v, g, es[0]), es[1..], h)
  }

  lemma {:induction false} RunIsTracked(v: Server, g: Meters, es: seq<Move>, h: Meters)
    requires Tracked(v, g) && Runs(v, g, es, h)
    ensures Tracked(v, h)
    decreases |es|
  {
    if es != [] {
      MoveIsTracked(v, g, es[0]);
      RunIsTracked(v, Make(v, g, es[0]), es[1..], h);
    }
  }

  /** A server on an empty store, with nothing in flight and no gauge set yet. */
  ghost function AtRest(v: Server, clock: int): Meters
    requires GoodServer(v)
  {
    Meters(Idle(v, clock), map[], map[], map[])
  }

  /**
   * In every interleaving, each gauge differs from its subnet's allocated set by exactly what is owed to it; so they
   * agree whenever no request is in flight and no purge has counts left to subtract.
   */
  lemma EveryInterleavingBalances(v: Server, clock: int, es: seq<Move>, g: Meters, b: Block)
    requires GoodServer(v) && Runs(v, AtRest(v, clock), es, g) && b in Blocks(v)
    ensures b in g.net.store.subnets
    ensures Gauge(g.gauge, b) + Owed(g.due, b) - CountFor(g.debits, b) == |g.net.store.subnets[b]|
    ensures g.net.flights == map[] && g.debits == map[] ==> Gauge(g.gauge, b) == |g.net.store.subnets[b]|
  {
    IdleIsGood(v, clock);
    RunIsTracked(v, AtRest(v, clock), es, g);
    if g.net.flights == map[] {
      assert g.due.Keys == {};
      assert Ups(g.due, b) == {} && Downs(g.due, b) == {};
    }
  }

  /** What is owed can always be settled, by gauge operations alone, in some order. */
  lemma {:induction false} GaugesCatchUp(v: Server, g: Meters) returns (es: seq<Move>, h: Meters)
    requires Tracked(v, g)
    ensures Runs(v, g, es, h) && h.net == g.net && h.due == map[] && h.debits == map[]
    ensures forall b :: b in h.net.store.subnets ==> Gauge(h.gauge, b) == |h.net.store.subnets[b]|
    ensures forall act :: Possible(v, h, Do(act)) <==> Enabled(v, g.net, act)
    decreases |g.due| + |g.debits|, 1
  {
    if g.due != map[] {
      var k :| k in g.due;
      es, h := SettleFirst(v, g, Settle(k));
    } else if g.debits != map[] {
      var b :| b in g.debits;
      es, h := SettleFirst(v, g, Debit(b));
    } else {
      es, h := [], g;
      forall b ensures Owed(g.due, b) == 0 {
        assert Ups(g.due, b) == {} && Downs(g.due, b) == {};
      }
    }
  }

  lemma SettlingShrinks(v: Server, g: Meters, e: Move)
    requires Possible(v, g, e) && !e.Do?
    ensures var h := Make(v, g, e); |h.due| + |h.debits| < |g.due| + |g.debits| && h.net == g.net
  {
    match e
    case Settle(k) => assert |g.due - {k}| < |g.due|;
    case Debit(b) => assert |g.debits - {b}| < |g.debits|;
  }

  lemma {:induction false} SettleFirst(v: Server, g: Meters, e: Move) returns (es: seq<Move>, h: Meters)
    requires Tracked(v, g) && Possible(v, g, e) && !e.Do?
    ensures Runs(v, g, es, h) && h.net == g.net && h.due == map[] && h.debits == map[]
    ensures forall b :: b in h.net.store.subnets ==> Gauge(h.gauge, b) == |h.net.store.subnets[b]|
    ensures forall act :: Possible(v, h, Do(act)) <==> Enabled(v, g.net, act)
    decreases |g.due| + |g.debits|, 0
  {
    MoveIsTracked(v, g, e);
    SettlingShrinks(v, g, e);
    es, h := GaugesCatchUp(v, Make(v, g, e));
    assert ([e] + es)[1..] == es;
    es := [e] + es;
  }
}
