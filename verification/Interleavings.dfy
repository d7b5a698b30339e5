/** Runs of the interleaved requests, purges and restarts: every address keeps one owner. */
module Interleavings {
  import opened Address
  import opened Store
  import opened Metrics
  import opened Engine
  import opened Leasing
  import opened Runs
  import opened Concurrent

  /** A purge takes the freed addresses out of the allocated ones. */
  lemma SweptAddrs(subnets: map<Block, set<Addr>>, freed: set<Addr>)
    requires Placed(subnets)
    ensures AddrsOf(SweptSubnets(subnets, subnets.Keys, freed)) == AddrsOf(subnets) - freed
    ensures Placed(SweptSubnets(subnets, subnets.Keys, freed))
  {
    var swept := SweptSubnets(subnets, subnets.Keys, freed);
    forall a | a in AddrsOf(subnets) - freed ensures a in AddrsOf(swept) {
      var b :| b in subnets && a in subnets[b];
      assert a in swept[b];
    }
  }

  lemma FreedBelong(n: Net, t: int, a: Addr) returns (k: Key)
    requires a in FreedAddrs(n.store.leases, t)
    ensures k in n.store.leases && Expired(n.store.leases[k], t) && a in Owned(n, Lessee(k))
  {
    k :| k in n.store.leases && Expired(n.store.leases[k], t) && a in n.store.leases[k].ips;
  }

  /** A purge keeps the accounts, whatever is in flight: it ends leases together with their addresses. */
  lemma SweepKeepsAccounts(n: Net, t: int, now: int)
    requires Accounted(n) && Placed(n.store.subnets)
    ensures Accounted(Swept(n, t, now))
  {
    var m := Swept(n, t, now);
    var leases, freed := n.store.leases, FreedAddrs(n.store.leases, t);
    SweptAddrs(n.store.subnets, freed);
    forall o
      ensures Owned(m, o) == if o.Lessee? && o.key in leases && Expired(leases[o.key], t) then [] else Owned(n, o)
    {
    }
    forall o, a | a in Owned(m, o) ensures a !in freed {
      if a in freed {
        var k := FreedBelong(n, t, a);
      }
    }
    forall a | a in AddrsOf(m.store.subnets) && a !in m.orphans ensures exists o :: a in Owned(m, o) {
      var o :| a in Owned(n, o);
      assert o.Lessee? && o.key in leases && Expired(leases[o.key], t) ==> a in freed;
      assert a in Owned(m, o);
    }
    forall a | a in m.orphans ensures a in AddrsOf(m.store.subnets) {
      if a in freed {
        var k := FreedBelong(n, t, a);
      }
    }
  }

  lemma SweepIsGood(v: Server, n: Net, t: int, now: int)
    requires Good(v, n) && Enabled(v, n, Sweep(t, now))
    ensures Good(v, Act(v, n, Sweep(t, now)))
  {
    SweepKeepsAccounts(n, t, now);
    SweptAddrs(n.store.subnets, FreedAddrs(n.store.leases, t));
    SecondsMonotone(n.clock, now);
  }

  /** A purge keeps everything in order exactly when it takes no lease from under a request in flight. */
  lemma SweepIsGoodIff(v: Server, n: Net, t: int, now: int)
    requires Good(v, n) && n.clock <= now && t <= now
    ensures Good(v, Swept(n, t, now)) <==>
      forall k :: k in n.flights && k in n.store.leases ==> t < n.store.leases[k].start + n.store.leases[k].length
    ensures Good(v, Swept(n, t, now)) <==> Enabled(v, n, Sweep(t, now))
  {
    if Undisturbed(n, t) {
      SweepIsGood(v, n, t, now);
    } else {
      var k :| k in n.flights && k in n.store.leases && Expired(n.store.leases[k], t);
      var m := Swept(n, t, now);
      assert Coherent(v, n.store.leases, n.clock, k, n.flights[k]);
      assert !Coherent(v, m.store.leases, m.clock, k, m.flights[k]);
    }
  }

  /**
   * What goes wrong otherwise: the lease is current when its renewal begins and expired when the purge comes. The
   * renewal is saved all the same, and then its addresses are leased but no longer allocated.
   */
  lemma SweepUnderRenewalLosesAddresses(v: Server, n: Net, key: Key, ips: seq<Addr>, t0: int, t: int, now: int, t2: int,
      inPlace: bool)
    requires Good(v, n) && key !in n.flights && key in n.store.leases && n.store.leases[key].ips != []
    requires n.clock <= t0 <= now <= t2 && t <= now
    requires !Expired(n.store.leases[key], t0) && Expired(n.store.leases[key], t) && Honoured(ips, n.store.leases[key])
    ensures var begun := Act(v, n, Begin(key, ips, t0));
      && !Enabled(v, begun, Sweep(t, now))
      && var swept := Swept(begun, t, now);
         && Enabled(v, swept, Stamp(key, t2, inPlace))
         && var stamped := Act(v, swept, Stamp(key, t2, inPlace));
            && Enabled(v, stamped, Save(key))
            && var saved := Act(v, stamped, Save(key));
               && key in saved.store.leases && saved.store.leases[key].ips == n.store.leases[key].ips
               && (forall a :: a in n.store.leases[key].ips ==> a !in AddrsOf(saved.store.subnets))
               && !Accounted(saved)
  {
    var begun := Act(v, n, Begin(key, ips, t0));
    var swept := Swept(begun, t, now);
    SweptAddrs(n.store.subnets, FreedAddrs(n.store.leases, t));
    var l := n.store.leases[key];
    forall a | a in l.ips ensures a !in AddrsOf(swept.store.subnets) {
      assert a in FreedAddrs(n.store.leases, t);
    }
    var saved := Act(v, Act(v, swept, Stamp(key, t2, inPlace)), Save(key));
    assert l.ips[0] in Owned(saved, Lessee(key));
  }

  lemma HeldBelong(n: Net, a: Addr) returns (k: Key)
    requires a in HeldAddrs(n.flights)
    ensures a in Owned(n, InFlight(k))
  {
    k :| k in n.flights && a in HeldBy(n.flights[k]);
  }

  lemma RebootKeepsAccounts(n: Net)
    requires Accounted(n)
    ensures Accounted(Rebooted(n))
  {
    var m := Rebooted(n);
    forall o ensures Owned(m, o) == if o.Lessee? then Owned(n, o) else [] {
    }
    forall a ensures a in AddrsOf(m.store.subnets) <==> a in m.orphans || exists o :: a in Owned(m, o) {
      if a in HeldAddrs(n.flights) {
        var k := HeldBelong(n, a);
      }
      if o :| a in Owned(n, o) {
        assert if o.Lessee? then a in Owned(m, o) else a in HeldAddrs(n.flights);
      }
      if o :| a in Owned(m, o) {
        assert a in Owned(n, o);
      }
    }
    forall o, a | a in Owned(m, o) ensures a !in m.orphans {
      if a in HeldAddrs(n.flights) {
        var k := HeldBelong(n, a);
      }
    }
  }

  lemma RebootIsGood(v: Server, n: Net)
    requires Good(v, n)
    ensures Enabled(v, n, Reboot)
    ensures var m := Act(v, n, Reboot);
      && Good(v, m) && m.store == n.store && m.flights == map[]
      && forall a :: a in m.orphans <==> a in n.orphans || exists k :: a in Owned(n, InFlight(k))
  {
    RebootKeepsAccounts(n);
    forall a | a in HeldAddrs(n.flights) ensures exists k :: a in Owned(n, InFlight(k)) {
      var k := HeldBelong(n, a);
    }
  }

  /** No step of any request breaks the accounts or a promise, whatever the others are in the middle of. */
  lemma ActIsGood(v: Server, n: Net, e: Action)
    requires Good(v, n) && Enabled(v, n, e)
    ensures Good(v, Act(v, n, e))
  {
    match e
    case Begin(k, ips, t) => BeginIsGood(v, n, k, ips, t);
    case Delete(k) => DeleteIsGood(v, n, k);
    case Free(k) => FreeIsGood(v, n, k);
    case Try(k, a) => TryIsGood(v, n, k, a);
    case GiveUp(k) => GiveUpIsGood(v, n, k);
    case Stamp(k, t, inPlace) => StampIsGood(v, n, k, t, inPlace);
    case Save(k) => SaveIsGood(v, n, k);
    case Sweep(t, now) => SweepIsGood(v, n, t, now);
    case Reboot => RebootIsGood(v, n);
  }

  ghost predicate Interleaves(v: Server, n: Net, es: seq<Action>, m: Net)
    decreases |es|
  {
    if es == [] then m == n
    else Enabled(v, n, es[0]) && Interleaves(v, Act(v, n, es[0]), es[1..], m)
  }

  lemma {:induction false} InterleavingIsGood(v: Server, n: Net, es: seq<Action>, m: Net)
    requires Good(v, n) && Interleaves(v, n, es, m)
    ensures Good(v, m)
    decreases |es|
  {
    if es != [] {
      ActIsGood(v, n, es[0]);
      InterleavingIsGood(v, Act(v, n, es[0]), es[1..], m);
    }
  }

  /** A server on an empty store, with nothing in flight. */
  ghost function Idle(v: Server, clock: int): Net
    requires GoodServer(v)
  {
    Net(Started(v).meter.store, map[], clock, {}, {})
  }

  lemma IdleIsGood(v: Server, clock: int)
    requires GoodServer(v)
    ensures Good(v, Idle(v, clock))
  {
    StartedIsSafe(v, clock);
    Quiet(Idle(v, clock));
  }

  /** Only restarts make orphans, and what is orphaned stays so. */
  lemma {:induction false} OrphansStay(v: Server, n: Net, es: seq<Action>, m: Net)
    requires Interleaves(v, n, es, m)
    ensures n.orphans <= m.orphans && (Reboot !in es ==> m.orphans == n.orphans)
    decreases |es|
  {
    if es != [] {
      OrphansStay(v, Act(v, n, es[0]), es[1..], m);
      assert Reboot !in es ==> es[0] != Reboot && Reboot !in es[1..];
    }
  }

  /**
   * In every interleaving an address is allocated exactly when it has an owner or is orphaned, it never has two owners,
   * and no orphan has one. Without restarts there are no orphans, and with nothing in flight only leases own addresses.
   */
  lemma EveryAddressHasOneOwner(v: Server, clock: int, es: seq<Action>, n: Net)
    requires GoodServer(v) && Interleaves(v, Idle(v, clock), es, n)
    ensures forall a :: a in AddrsOf(n.store.subnets) <==> a in n.orphans || exists o :: a in Owned(n, o)
    ensures forall o, p, a :: a in Owned(n, o) && a in Owned(n, p) ==> o == p
    ensures forall o, a :: a in Owned(n, o) ==> a !in n.orphans
    ensures forall j, k, a :: j in n.store.leases && k in n.store.leases && j != k && a in n.store.leases[j].ips ==>
      a !in n.store.leases[k].ips
    ensures forall k, a :: k in n.store.leases && a in n.store.leases[k].ips ==>
      exists b :: b in n.store.subnets && a in n.store.subnets[b]
    ensures Reboot !in es ==> n.orphans == {}
    ensures n.flights == map[] && n.orphans == {} ==> Conserved(n.store)
  {
    IdleIsGood(v, clock);
    InterleavingIsGood(v, Idle(v, clock), es, n);
    OrphansStay(v, Idle(v, clock), es, n);
    LeasesOwnApart(n);
    forall k, a | k in n.store.leases && a in n.store.leases[k].ips
      ensures exists b :: b in n.store.subnets && a in n.store.subnets[b]
    {
      assert a in Owned(n, Lessee(k));
      assert a in AddrsOf(n.store.subnets);
    }
    if n.flights == map[] {
      Quiet(n);
    }
  }

  /** An address orphaned by a restart is never given out again. */
  lemma OrphansAreLost(v: Server, clock: int, es: seq<Action>, n: Net, fs: seq<Action>, m: Net, a: Addr, o: Owner)
    requires GoodServer(v) && Interleaves(v, Idle(v, clock), es, n) && Interleaves(v, n, fs, m) && a in n.orphans
    ensures a in AddrsOf(m.store.subnets) && a !in Owned(m, o)
  {
    IdleIsGood(v, clock);
    InterleavingIsGood(v, Idle(v, clock), es, n);
    InterleavingIsGood(v, n, fs, m);
    OrphansStay(v, n, fs, m);
  }

  lemma SavingRespects(v: Server, n: Net, key: Key, p: Promise)
    requires Good(v, n) && Enabled(v, n, Save(key))
    requires p in n.promises && p.key != key && p.addr in n.flights[key].lease.ips
    ensures p.expiry <= n.clock
  {
    SaveIsGood(v, n, key);
    var m := Act(v, n, Save(key));
    assert p in m.promises && Kept(m.store.leases, m.clock, p);
    assert p.addr in Owned(m, Lessee(key));
    assert p.expiry > n.clock ==> p.addr in Owned(m, Lessee(p.key));
  }

  /** In every interleaving, a reply gives out no address that an earlier reply still promises to another client. */
  lemma InterleavedPromisesAreExclusive(v: Server, clock: int, es: seq<Action>, n: Net, key: Key, p: Promise)
    requires GoodServer(v) && Interleaves(v, Idle(v, clock), es, n)
    requires Enabled(v, n, Save(key)) && p in n.promises && p.key != key && p.addr in n.flights[key].lease.ips
    ensures p.expiry <= n.clock
  {
    IdleIsGood(v, clock);
    InterleavingIsGood(v, Idle(v, clock), es, n);
    SavingRespects(v, n, key, p);
  }

  lemma {:induction false} PromisesStay(v: Server, n: Net, es: seq<Action>, m: Net)
    requires Interleaves(v, n, es, m)
    ensures n.promises <= m.promises
    decreases |es|
  {
    if es != [] {
      PromisesStay(v, Act(v, n, es[0]), es[1..], m);
    }
  }

  lemma SavingPromises(v: Server, n: Net, key: Key, a: Addr)
    requires Enabled(v, n, Save(key)) && a in n.flights[key].lease.ips
    ensures var l := n.flights[key].lease;
      Promise(key, a, l.start + l.length) in Act(v, n, Save(key)).promises
  {
  }

  /** Once a lease with the address is saved, and from any state after that. */
  lemma PromisedSaveRespects(v: Server, n: Net, fs: seq<Action>, m: Net, other: Key, p: Promise)
    requires Good(v, n) && p in n.promises && Interleaves(v, n, fs, m)
    requires Enabled(v, m, Save(other)) && p.key != other && p.addr in m.flights[other].lease.ips
    ensures p.expiry <= m.clock
  {
    InterleavingIsGood(v, n, fs, m);
    PromisesStay(v, n, fs, m);
    SavingRespects(v, m, other, p);
  }

  lemma SavedTwice(v: Server, n: Net, key: Key, fs: seq<Action>, m: Net, other: Key, a: Addr)
    requires Good(v, n) && Enabled(v, n, Save(key))
    requires Interleaves(v, Act(v, n, Save(key)), fs, m) && Enabled(v, m, Save(other)) && key != other
    requires a in n.flights[key].lease.ips && a in m.flights[other].lease.ips
    ensures n.flights[key].lease.start + n.flights[key].lease.length <= m.clock
  {
    ActIsGood(v, n, Save(key));
    SavingPromises(v, n, key, a);
    var l := n.flights[key].lease;
    PromisedSaveRespects(v, Act(v, n, Save(key)), fs, m, other, Promise(key, a, l.start + l.length));
  }

  /**
   * The same without the promises: when a second client's lease with an address is saved, the first client's lease with
   * it is over, however the steps of all requests, purges and restarts come to lie between.
   */
  lemma SavedLeasesAreExclusive(v: Server, clock: int, es: seq<Action>, n: Net, key: Key, fs: seq<Action>, m: Net,
      other: Key, a: Addr)
    requires GoodServer(v) && Interleaves(v, Idle(v, clock), es, n) && Enabled(v, n, Save(key))
    requires Interleaves(v, Act(v, n, Save(key)), fs, m) && Enabled(v, m, Save(other)) && key != other
    requires a in n.flights[key].lease.ips && a in m.flights[other].lease.ips
    ensures n.flights[key].lease.start + n.flights[key].lease.length <= m.clock
  {
    IdleIsGood(v, clock);
    InterleavingIsGood(v, Idle(v, clock), es, n);
    SavedTwice(v, n, key, fs, m, other, a);
  }
}
