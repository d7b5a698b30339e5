/**
 * What a purge does to requests in flight when it takes a lease from under one: exactly when that breaks the
 * accounts.
 */
module Disturbed {
  import opened Address
  import opened Store
  import opened Metrics
  import opened Engine
  import opened Runs
  import opened Concurrent
  import opened Interleavings
  import opened Schedules

  predicate PurgeFree(es: seq<Action>) {
    forall e :: e in es ==> !e.Sweep?
  }

  /** An expired lease's addresses are not allocated after the purge. */
  lemma SweptAway(n: Net, t: int, now: int, key: Key)
    requires Placed(n.store.subnets) && key in n.store.leases && Expired(n.store.leases[key], t)
    ensures key !in Swept(n, t, now).store.leases
    ensures forall a :: a in n.store.leases[key].ips ==> a !in AddrsOf(Swept(n, t, now).store.subnets)
  {
    SweptAddrs(n.store.subnets, FreedAddrs(n.store.leases, t));
    forall a | a in n.store.leases[key].ips ensures a in FreedAddrs(n.store.leases, t) {
    }
  }

  /** An owner of an address that is not allocated. */
  lemma Unaccounted(n: Net, o: Owner, a: Addr)
    requires a in Owned(n, o) && a !in AddrsOf(n.store.subnets)
    ensures !Accounted(n)
  {
  }

  /** The disturbed request itself breaks the accounts with its next steps. */
  lemma DisturbedBreaks(v: Server, n: Net, t: int, now: int, key: Key) returns (es: seq<Action>, z: Net)
    requires Good(v, n) && n.clock <= now && t <= now
    requires key in n.flights && key in n.store.leases && Expired(n.store.leases[key], t)
    ensures (forall e :: e in es ==> !e.Sweep?) && Interleaves(v, Swept(n, t, now), es, z) && !Accounted(z)
  {
    var m, f, a := Swept(n, t, now), n.flights[key], n.store.leases[key].ips[0];
    assert Coherent(v, n.store.leases, n.clock, key, f);
    SweptAway(n, t, now, key);
    match f
    case Deleting(l, wanted) =>
      es, z := [Delete(key)], Act(v, m, Delete(key));
      Single(v, m, Delete(key));
      assert a in Owned(z, InFlight(key));
      Unaccounted(z, InFlight(key), a);
    case Renewing(l) =>
      es, z := [Stamp(key, now, false)] + [Save(key)], Act(v, Act(v, m, Stamp(key, now, false)), Save(key));
      Single(v, Act(v, m, Stamp(key, now, false)), Save(key));
      Before(v, m, Stamp(key, now, false), [Save(key)], z);
      assert a in Owned(z, Lessee(key));
      Unaccounted(z, Lessee(key), a);
    case Saving(l, renewal) =>
      es, z := [Save(key)], Act(v, m, Save(key));
      Single(v, m, Save(key));
      assert a in Owned(z, Lessee(key));
      Unaccounted(z, Lessee(key), a);
  }

  /** A purge is harmless to the accounts, however the requests go on, exactly when it disturbs none of them. */
  lemma SweepIsHarmlessIff(v: Server, n: Net, t: int, now: int)
    requires Good(v, n) && n.clock <= now && t <= now
    ensures (forall es, z :: PurgeFree(es) && Interleaves(v, Swept(n, t, now), es, z) ==> Accounted(z))
      <==> Undisturbed(n, t)
  {
    if Undisturbed(n, t) {
      SweepIsGood(v, n, t, now);
      forall es, z | PurgeFree(es) && Interleaves(v, Swept(n, t, now), es, z) ensures Accounted(z) {
        InterleavingIsGood(v, Swept(n, t, now), es, z);
      }
    } else {
      var key :| key in n.flights && key in n.store.leases && Expired(n.store.leases[key], t);
      var es, z := DisturbedBreaks(v, n, t, now, key);
      assert PurgeFree(es);
    }
  }

  /** What a purge leaves intact, whatever is in flight. */
  ghost predicate InOrder(v: Server, n: Net) {
    GoodServer(v) && Accounted(n) && Placed(n.store.subnets) && n.store.subnets.Keys == Blocks(v)
  }

  /** A free address of the last subnet to be asked completes the allocation. */
  lemma TakesLast(v: Server, n: Net, key: Key, a: Addr)
    requires InOrder(v, n)
    requires Enabled(v, n, Try(key, a)) && a !in AddrsOf(n.store.subnets)
    ensures var f, z := n.flights[key], Act(v, n, Try(key, a));
      && z.flights == n.flights[key := Allocating(f.families, f.held + [a])] && z.clock == n.clock
      && Placed(z.store.subnets) && a in AddrsOf(z.store.subnets)
  {
    var f := n.flights[key];
    var b := Consulted(v, f.families)[|f.held|].block;
    ConsultedAreConfigured(v, f.families);
    assert b in Blocks(v);
    TriedGains(n, key, f.families, f.held, b, a);
    assert a in Owned(Act(v, n, Try(key, a)), InFlight(key));
  }

  /** A request that can get the address from the last subnet it has to ask. */
  ghost predicate Completes(v: Server, n: Net, key: Key, a: Addr) {
    && Enabled(v, n, Try(key, a))
    && |n.flights[key].held| + 1 == |Consulted(v, n.flights[key].families)|
  }

  /** The address is in the client's lease and promised to it. */
  ghost predicate Promised(n: Net, key: Key, a: Addr, until: int) {
    key in n.store.leases && a in n.store.leases[key].ips && Promise(key, a, until) in n.promises
  }

  /** A request that allocates its last address and gets its lease. */
  lemma TakesAndSaves(v: Server, n: Net, key: Key, a: Addr) returns (es: seq<Action>, z: Net)
    requires InOrder(v, n)
    requires Completes(v, n, key, a) && a !in AddrsOf(n.store.subnets)
    ensures PurgeFree(es) && Interleaves(v, n, es, z)
    ensures Promised(z, key, a, Seconds(n.clock) + v.duration) && z.flights == n.flights - {key}
    ensures Placed(z.store.subnets) && a in AddrsOf(z.store.subnets)
  {
    TakesLast(v, n, key, a);
    var f, tried := n.flights[key], Act(v, n, Try(key, a));
    var rest := StampAndSave(v, tried, key, f.families, n.clock);
    var l := Lease(f.held + [a], Seconds(n.clock), v.duration);
    z := Saved(tried.(clock := n.clock), key, l);
    es := [Try(key, a)] + rest;
    Before(v, n, Try(key, a), rest, z);
    assert tried.flights - {key} == n.flights - {key};
    assert a in l.ips;
  }

  /** A request that deletes the lease it found and frees the first of its addresses. */
  lemma DeletesAndFrees(v: Server, n: Net, key: Key) returns (es: seq<Action>, z: Net)
    requires Placed(n.store.subnets) && key in n.flights && n.flights[key].Deleting? && n.flights[key].lease.ips != []
    requires n.flights[key].lease.ips[0] in AddrsOf(n.store.subnets)
    ensures PurgeFree(es) && Interleaves(v, n, es, z)
    ensures z.store.leases == n.store.leases - {key} && z.promises == n.promises
    ensures n.flights[key].lease.ips[0] !in AddrsOf(z.store.subnets)
  {
    var deleted := Act(v, n, Delete(key));
    FreedOne(deleted.store, n.flights[key].lease.ips[0]);
    z := Act(v, deleted, Free(key));
    Single(v, deleted, Free(key));
    Before(v, n, Delete(key), [Free(key)], z);
    es := [Delete(key)] + [Free(key)];
  }

  lemma SweptForAnother(v: Server, n: Net, key: Key, t: int, now: int)
    requires Good(v, n) && key in n.flights && n.flights[key].Deleting? && Expired(n.flights[key].lease, t)
    ensures var swept := Swept(n, t, now);
      && InOrder(v, swept)
      && forall a :: a in n.flights[key].lease.ips ==> a !in AddrsOf(swept.store.subnets)
  {
    assert Coherent(v, n.store.leases, n.clock, key, n.flights[key]);
    SweptAway(n, t, now, key);
    SweptAddrs(n.store.subnets, FreedAddrs(n.store.leases, t));
    SweepKeepsAccounts(n, t, now);
  }

  /** Another request takes an address that a deletion in flight is about to free. */
  lemma TakenThenFreed(v: Server, n: Net, key: Key, other: Key, a: Addr) returns (es: seq<Action>, z: Net)
    requires InOrder(v, n) && key != other && key in n.flights && n.flights[key].Deleting?
    requires n.flights[key].lease.ips != [] && a == n.flights[key].lease.ips[0]
    requires Completes(v, n, other, a) && a !in AddrsOf(n.store.subnets)
    ensures PurgeFree(es) && Interleaves(v, n, es, z)
    ensures Promised(z, other, a, Seconds(n.clock) + v.duration) && a !in AddrsOf(z.store.subnets)
  {
    var first, saved := TakesAndSaves(v, n, other, a);
    var second;
    second, z := DeletesAndFrees(v, saved, key);
    es := first + second;
    Joined(v, n, first, saved, second, z);
  }

  /**
   * The harm when a deletion is disturbed: another client is given one of the purged addresses, and then the first
   * request frees it from under that client's promise.
   */
  lemma SweepUnderDeletionFreesAnothers(v: Server, n: Net, key: Key, other: Key, a: Addr, t: int, now: int)
    returns (es: seq<Action>, z: Net)
    requires Good(v, n) && n.clock <= now && t <= now && key != other
    requires key in n.flights && n.flights[key].Deleting? && Expired(n.flights[key].lease, t)
    requires n.flights[key].lease.ips != [] && a == n.flights[key].lease.ips[0]
    requires Enabled(v, n, Try(other, a)) && |n.flights[other].held| + 1 == |Consulted(v, n.flights[other].families)|
    ensures PurgeFree(es) && Interleaves(v, Swept(n, t, now), es, z)
    ensures other in z.store.leases && a in z.store.leases[other].ips
    ensures Promise(other, a, Seconds(now) + v.duration) in z.promises
    ensures forall b :: b in z.store.subnets ==> a !in z.store.subnets[b]
  {
    SweptForAnother(v, n, key, t, now);
    es, z := TakenThenFreed(v, Swept(n, t, now), key, other, a);
    assert a !in AddrsOf(z.store.subnets);
  }
}
