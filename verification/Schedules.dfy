/** A request that runs alone is one of the interleavings: the atomic engine and the stepwise one agree. */
module Schedules {
  import opened Util
  import opened Address
  import opened Config
  import opened Store
  import opened Metrics
  import opened Engine
  import opened Leasing
  import opened Runs
  import opened Concurrent
  import opened Interleavings

  lemma {:induction false} Joined(v: Server, n: Net, es: seq<Action>, m: Net, fs: seq<Action>, l: Net)
    requires Interleaves(v, n, es, m) && Interleaves(v, m, fs, l)
    ensures Interleaves(v, n, es + fs, l)
    decreases |es|
  {
    if es == [] {
      assert es + fs == fs;
    } else {
      Joined(v, Act(v, n, es[0]), es[1..], m, fs, l);
      assert (es + fs)[1..] == es[1..] + fs;
    }
  }

  /** A single action before a schedule. */
  lemma Before(v: Server, n: Net, e: Action, es: seq<Action>, m: Net)
    requires Enabled(v, n, e) && Interleaves(v, Act(v, n, e), es, m)
    ensures Interleaves(v, n, [e] + es, m)
  {
    assert ([e] + es)[1..] == es;
  }

  /** Freeing through the family's subnets, one after the other, is one store operation. */
  lemma FreeOneIsOneFreed(v: Server, y: Sys, a: Addr)
    requires Sound(v, y) && a in Taken(y)
    ensures FreeOne(v, y, a).meter.store == OneFreed(y.meter.store, a)
  {
    FreeOneEffect(v, y, a);
    FreedOne(y.meter.store, a);
    PlacedDetermined(FreeOne(v, y, a).meter.store.subnets, OneFreed(y.meter.store, a).subnets);
  }

  /** The same interleaving with another store and this request elsewhere. */
  function At(n: Net, s: State<Key>, key: Key, f: Flight): Net {
    Flown(n.(store := s), key, f)
  }

  lemma AtTwice(n: Net, s: State<Key>, f: Flight, t: State<Key>, g: Flight, key: Key)
    ensures At(At(n, s, key, f), t, key, g) == At(n, t, key, g)
  {
    assert n.flights[key := f][key := g] == n.flights[key := g];
  }

  lemma AtSelf(n: Net, key: Key)
    requires key in n.flights
    ensures At(n, n.store, key, n.flights[key]) == n
  {
    assert n.flights[key := n.flights[key]] == n.flights;
  }

  lemma FreeStep(v: Server, y: Sys, n: Net, key: Key, rest: seq<Addr>, wanted: Option<set<Family>>)
    requires Sound(v, y) && y.meter.store == n.store && rest != [] && rest[0] in Taken(y)
    requires key in n.flights && n.flights[key] == Freeing(rest, wanted)
    ensures Enabled(v, n, Free(key))
    ensures Act(v, n, Free(key)) == At(n, FreeOne(v, y, rest[0]).meter.store, key, Freeing(rest[1..], wanted))
  {
    FreeOneIsOneFreed(v, y, rest[0]);
  }

  lemma {:induction false} FreeSchedule(v: Server, y: Sys, n: Net, key: Key, rest: seq<Addr>,
      wanted: Option<set<Family>>)
    returns (es: seq<Action>)
    requires Sound(v, y) && y.meter.store == n.store && NoDup(rest) && forall a :: a in rest ==> a in Taken(y)
    requires key in n.flights && n.flights[key] == Freeing(rest, wanted)
    ensures Interleaves(v, n, es, At(n, FreeEach(v, y, rest).meter.store, key, Freeing([], wanted)))
    decreases |rest|
  {
    es := [];
    if rest == [] {
      AtSelf(n, key);
    } else {
      FreeStep(v, y, n, key, rest, wanted);
      FreeOneEffect(v, y, rest[0]);
      NoDupTail(rest);
      var z := FreeOne(v, y, rest[0]);
      var m := Act(v, n, Free(key));
      es := FreeSchedule(v, z, m, key, rest[1..], wanted);
      var s := FreeEach(v, z, rest[1..]).meter.store;
      AtTwice(n, z.meter.store, Freeing(rest[1..], wanted), s, Freeing([], wanted), key);
      Before(v, n, Free(key), es, At(m, s, key, Freeing([], wanted)));
      es := [Free(key)] + es;
    }
  }

  /** An allocator that settles on an address has the store allocate it. */
  lemma SettledOn(v: Server, y: Sys, s: Subnet)
    requires Sound(v, y) && s in SubnetsOf(v) && AllocateOne(s, y).Address?
    ensures var one := AllocateOne(s, y);
      && Sound(v, one.sys) && Contains(s.block, one.a)
      && MemoryStep(y.meter.store, AllocateIP(s.block, one.a)) == (one.sys.meter.store, Allocated(true))
  {
    var one := AllocateOne(s, y);
    AllocateOneEffect(v, s, y);
    AllocateEffect(y.meter, s.block, one.a);
    assert MeteredStep(y.meter, AllocateIP(s.block, one.a)) == (one.sys.meter, Allocated(true));
  }

  /** In the stepwise system this is one successful attempt. */
  lemma TryStep(v: Server, y: Sys, n: Net, key: Key, families: set<Family>, held: seq<Addr>)
    requires Sound(v, y) && y.meter.store == n.store && |held| < |Consulted(v, families)|
    requires key in n.flights && n.flights[key] == Allocating(families, held)
    requires AllocateOne(Consulted(v, families)[|held|], y).Address?
    ensures var one := AllocateOne(Consulted(v, families)[|held|], y);
      && Sound(v, one.sys) && Enabled(v, n, Try(key, one.a))
      && Act(v, n, Try(key, one.a)) == At(n, one.sys.meter.store, key, Allocating(families, held + [one.a]))
  {
    ConsultedAreConfigured(v, families);
    SettledOn(v, y, Consulted(v, families)[|held|]);
  }

  /** What the allocators of the consulted subnets from position |held| on come to. */
  ghost function Onwards(v: Server, y: Sys, families: set<Family>, held: seq<Addr>): Many
    requires Sound(v, y) && |held| <= |Consulted(v, families)|
  {
    TryAllocate(Consulted(v, families)[|held|..], y)
  }

  lemma OnwardsStep(v: Server, y: Sys, families: set<Family>, held: seq<Addr>)
    requires Sound(v, y) && |held| < |Consulted(v, families)|
    ensures var one := AllocateOne(Consulted(v, families)[|held|], y);
      match one
      case OnePanic => Onwards(v, y, families, held).ManyPanic?
      case NoAddress(z) => Onwards(v, y, families, held) == Many([], false, z)
      case Address(a, z) =>
        Sound(v, z) && Onwards(v, y, families, held) == Prepend([a], Onwards(v, z, families, held + [a]))
  {
    var subs := Consulted(v, families)[|held|..];
    ConsultedAreConfigured(v, families);
    var one := AllocateOne(subs[0], y);
    if !one.OnePanic? {
      AllocateOneEffect(v, subs[0], y);
    }
    assert subs[1..] == Consulted(v, families)[|held| + 1..];
  }

  lemma TryThen(v: Server, n: Net, m: Net, key: Key, families: set<Family>, held: seq<Addr>, a: Addr, rest: Many,
      es: seq<Action>)
    requires Enabled(v, n, Try(key, a)) && m == Act(v, n, Try(key, a)) && rest.Many?
    requires exists s :: m == At(n, s, key, Allocating(families, held + [a]))
    requires Interleaves(v, m, es, At(m, rest.sys.meter.store, key, Allocating(families, held + [a] + rest.ips)))
    ensures var f := Allocating(families, held + Prepend([a], rest).ips);
      Interleaves(v, n, [Try(key, a)] + es, At(n, rest.sys.meter.store, key, f))
  {
    var s :| m == At(n, s, key, Allocating(families, held + [a]));
    assert held + [a] + rest.ips == held + ([a] + rest.ips);
    var f := Allocating(families, held + [a] + rest.ips);
    AtTwice(n, s, Allocating(families, held + [a]), rest.sys.meter.store, f, key);
    Before(v, n, Try(key, a), es, At(m, rest.sys.meter.store, key, f));
  }

  lemma Nowhere(v: Server, n: Net, key: Key)
    requires key in n.flights
    ensures Interleaves(v, n, [], At(n, n.store, key, n.flights[key]))
  {
    AtSelf(n, key);
  }

  lemma {:induction false} TrySchedule(v: Server, y: Sys, n: Net, key: Key, families: set<Family>, held: seq<Addr>)
    returns (es: seq<Action>)
    requires Sound(v, y) && y.meter.store == n.store && |held| <= |Consulted(v, families)|
    requires key in n.flights && n.flights[key] == Allocating(families, held)
    requires Onwards(v, y, families, held).Many?
    ensures var r := Onwards(v, y, families, held);
      Interleaves(v, n, es, At(n, r.sys.meter.store, key, Allocating(families, held + r.ips)))
    decreases |Consulted(v, families)| - |held|
  {
    es := [];
    if |held| == |Consulted(v, families)| {
      assert held + [] == held;
      Nowhere(v, n, key);
    } else {
      var one := AllocateOne(Consulted(v, families)[|held|], y);
      OnwardsStep(v, y, families, held);
      if one.NoAddress? {
        ConsultedAreConfigured(v, families);
        AllocateOneEffect(v, Consulted(v, families)[|held|], y);
        assert held + [] == held;
        Nowhere(v, n, key);
      } else {
        TryStep(v, y, n, key, families, held);
        var m := Act(v, n, Try(key, one.a));
        es := TrySchedule(v, one.sys, m, key, families, held + [one.a]);
        TryThen(v, n, m, key, families, held, one.a, Onwards(v, one.sys, families, held + [one.a]), es);
        es := [Try(key, one.a)] + es;
      }
    }
  }

  lemma {:induction false} OnwardsLength(v: Server, y: Sys, families: set<Family>, held: seq<Addr>)
    requires Sound(v, y) && |held| <= |Consulted(v, families)| && Onwards(v, y, families, held).Many?
    ensures var r := Onwards(v, y, families, held);
      if r.ok then |held| + |r.ips| == |Consulted(v, families)| else |held| + |r.ips| < |Consulted(v, families)|
    decreases |Consulted(v, families)| - |held|
  {
    if |held| < |Consulted(v, families)| {
      OnwardsStep(v, y, families, held);
      var one := AllocateOne(Consulted(v, families)[|held|], y);
      if one.Address? {
        OnwardsLength(v, one.sys, families, held + [one.a]);
      }
    }
  }

  lemma Single(v: Server, n: Net, e: Action)
    requires Enabled(v, n, e)
    ensures Interleaves(v, n, [e], Act(v, n, e))
  {
    assert Interleaves(v, Act(v, n, e), [], Act(v, n, e));
    Before(v, n, e, [], Act(v, n, e));
    assert [e] + [] == [e];
  }

  /** A request that has left the interleaving. */
  function Finished(n: Net, s: State<Key>, key: Key): Net {
    Landed(n.(store := s), key)
  }

  lemma StampAndSave(v: Server, n: Net, key: Key, families: set<Family>, t: int)
    returns (es: seq<Action>)
    requires key in n.flights && n.flights[key].Allocating? && n.clock <= t
    requires n.flights[key].families == families && n.flights[key].held != []
    requires |n.flights[key].held| == |Consulted(v, families)|
    ensures es == [Stamp(key, t, false)] + [Save(key)]
    ensures var l := Lease(n.flights[key].held, Seconds(t), v.duration);
      Interleaves(v, n, es, Saved(n.(clock := t), key, l))
  {
    var l := Lease(n.flights[key].held, Seconds(t), v.duration);
    var m := Act(v, n, Stamp(key, t, false));
    assert m.flights - {key} == n.flights - {key};
    assert Act(v, m, Save(key)) == Saved(n.(clock := t), key, l);
    Single(v, m, Save(key));
    Before(v, n, Stamp(key, t, false), [Save(key)], Saved(n.(clock := t), key, l));
    es := [Stamp(key, t, false)] + [Save(key)];
  }

  lemma RollbackSchedule(v: Server, y: Sys, n: Net, key: Key, families: set<Family>, held: seq<Addr>)
    returns (es: seq<Action>)
    requires Sound(v, y) && y.meter.store == n.store && NoDup(held) && forall a :: a in held ==> a in Taken(y)
    requires key in n.flights && n.flights[key] == Allocating(families, held)
    requires |held| < |Consulted(v, families)| || held == []
    ensures Interleaves(v, n, es, Finished(n, FreeEach(v, y, held).meter.store, key))
  {
    var m := Act(v, n, GiveUp(key));
    es := FreeSchedule(v, y, m, key, held, None);
    var s := FreeEach(v, y, held).meter.store;
    AtTwice(n, n.store, Freeing(held, None), s, Freeing([], None), key);
    var last := At(n, s, key, Freeing([], None));
    assert last.flights - {key} == n.flights - {key};
    assert Act(v, last, Free(key)) == Finished(n, s, key);
    Single(v, last, Free(key));
    Joined(v, m, es, last, [Free(key)], Finished(n, s, key));
    Before(v, n, GiveUp(key), es + [Free(key)], Finished(n, s, key));
    es := [GiveUp(key)] + (es + [Free(key)]);
  }

  lemma TriesFrom(v: Server, y: Sys, n: Net, key: Key, families: set<Family>) returns (r: Many, es: seq<Action>)
    requires Sound(v, y) && y.meter.store == n.store
    requires key in n.flights && n.flights[key] == Allocating(families, [])
    requires TryAllocate(Consulted(v, families), y).Many?
    ensures r == TryAllocate(Consulted(v, families), y)
    ensures Sound(v, r.sys) && NoDup(r.ips) && (forall a :: a in r.ips ==> a in Taken(r.sys))
    ensures Interleaves(v, n, es, At(n, r.sys.meter.store, key, Allocating(families, r.ips)))
    ensures if r.ok then |r.ips| == |Consulted(v, families)| else |r.ips| < |Consulted(v, families)|
  {
    var subs := Consulted(v, families);
    assert subs[0..] == subs;
    r := Onwards(v, y, families, []);
    assert [] + r.ips == r.ips;
    ConsultedAreConfigured(v, families);
    TryAllocateEffect(v, subs, y);
    OnwardsLength(v, y, families, []);
    es := TrySchedule(v, y, n, key, families, []);
  }

  lemma SavedAt(n: Net, s: State<Key>, key: Key, f: Flight, t: int, l: Lease)
    ensures Saved(At(n, s, key, f).(clock := t), key, l) == Saved(n.(clock := t, store := s), key, l)
  {
    assert n.flights[key := f] - {key} == n.flights - {key};
  }

  lemma GrantSchedule(v: Server, y: Sys, n: Net, key: Key, families: set<Family>, t: int) returns (es: seq<Action>)
    requires Sound(v, y) && y.meter.store == n.store && n.clock <= t
    requires key in n.flights && n.flights[key] == Allocating(families, [])
    requires AllocateAll(v, y, families).Granted?
    ensures var g := AllocateAll(v, y, families);
      var l := Lease(g.ips, Seconds(t), v.duration);
      Interleaves(v, n, es, Saved(n.(clock := t, store := g.sys.meter.store), key, l))
  {
    var g := AllocateAll(v, y, families);
    var r, tries := TriesFrom(v, y, n, key, families);
    var m := At(n, g.sys.meter.store, key, Allocating(families, g.ips));
    var rest := StampAndSave(v, m, key, families, t);
    var l := Lease(g.ips, Seconds(t), v.duration);
    SavedAt(n, g.sys.meter.store, key, Allocating(families, g.ips), t, l);
    Joined(v, n, tries, m, rest, Saved(m.(clock := t), key, l));
    es := tries + rest;
  }

  lemma FinishedAt(n: Net, s: State<Key>, key: Key, f: Flight, t: State<Key>)
    ensures Finished(At(n, s, key, f), t, key) == Finished(n, t, key)
  {
    assert n.flights[key := f] - {key} == n.flights - {key};
  }

  lemma RefuseSchedule(v: Server, y: Sys, n: Net, key: Key, families: set<Family>) returns (es: seq<Action>)
    requires Sound(v, y) && y.meter.store == n.store
    requires key in n.flights && n.flights[key] == Allocating(families, [])
    requires AllocateAll(v, y, families).Refused?
    ensures Interleaves(v, n, es, Finished(n, AllocateAll(v, y, families).sys.meter.store, key))
  {
    var r, tries := TriesFrom(v, y, n, key, families);
    var m := At(n, r.sys.meter.store, key, Allocating(families, r.ips));
    var back := RollbackSchedule(v, r.sys, m, key, families, r.ips);
    var s := FreeEach(v, r.sys, r.ips).meter.store;
    FinishedAt(n, r.sys.meter.store, key, Allocating(families, r.ips), s);
    Joined(v, n, tries, m, back, Finished(m, s, key));
    es := tries + back;
  }

  /** The state after a turn, in the interleaving's terms: the request is gone, and its reply is a promise. */
  ghost predicate Settles(n: Net, turn: Turn, key: Key, m: Net)
    requires turn.Turn?
  {
    && m.store == turn.sys.meter.store && m.flights == n.flights - {key}
    && m.promises == n.promises + (if turn.response.Grant? then PromisesOf(key, turn.response) else {})
  }

  lemma NewLeaseSchedule(v: Server, y: Sys, n: Net, key: Key, ips: seq<Addr>, t: int) returns (es: seq<Action>, m: Net)
    requires Sound(v, y) && y.meter.store == n.store && n.clock <= t && Wanted(ips).Some?
    requires key in n.flights && n.flights[key] == Allocating(Wanted(ips).value, [])
    requires NewLease(v, y, key, ips, t).Turn?
    ensures Interleaves(v, n, es, m) && Settles(n, NewLease(v, y, key, ips, t), key, m) && m.clock <= t
  {
    var families := Wanted(ips).value;
    var g := AllocateAll(v, y, families);
    if g.Granted? {
      es := GrantSchedule(v, y, n, key, families, t);
      m := Saved(n.(clock := t, store := g.sys.meter.store), key, Lease(g.ips, Seconds(t), v.duration));
    } else {
      es := RefuseSchedule(v, y, n, key, families);
      m := Finished(n, g.sys.meter.store, key);
    }
  }

  lemma RenewSchedule(v: Server, y: Sys, n: Net, key: Key, ips: seq<Addr>, l: Lease, t: int, inPlace: bool)
    returns (es: seq<Action>, m: Net)
    requires y.meter.store == n.store && n.clock <= t
    requires key in n.flights && n.flights[key] == Renewing(l) && Honoured(ips, l)
    ensures Interleaves(v, n, es, m) && Settles(n, RenewLease(v, y, key, ips, l, t), key, m) && m.clock == t
  {
    var l' := Lease(l.ips, Seconds(t), v.duration);
    var stamped := Act(v, n, Stamp(key, t, inPlace));
    assert stamped.store.leases[key := l'] == n.store.leases[key := l'];
    assert stamped.flights - {key} == n.flights - {key};
    m := Act(v, stamped, Save(key));
    Single(v, stamped, Save(key));
    Before(v, n, Stamp(key, t, inPlace), [Save(key)], m);
    es := [Stamp(key, t, inPlace)] + [Save(key)];
  }

  /** Deleting an expired lease and freeing its addresses. */
  lemma LapseSchedule(v: Server, y: Sys, n: Net, key: Key, wanted: Option<set<Family>>) returns (es: seq<Action>)
    requires Sound(v, y) && Conserved(y.meter.store) && y.meter.store == n.store
    requires key in n.store.leases && key in n.flights && n.flights[key] == Deleting(n.store.leases[key], wanted)
    ensures Interleaves(v, n, es, StartAllocating(n.(store := Lapsed(v, y, key).meter.store), key, wanted))
  {
    var l, y' := n.store.leases[key], Deleted(y, key);
    LeasesKeepSound(v, y, y');
    forall a | a in l.ips ensures a in Taken(y') {
      assert a in LeasedAddrs(y.meter.store.leases);
    }
    var m := Act(v, n, Delete(key));
    es := FreeSchedule(v, y', m, key, l.ips, wanted);
    var s := Lapsed(v, y, key).meter.store;
    AtTwice(n, y'.meter.store, Freeing(l.ips, wanted), s, Freeing([], wanted), key);
    var last := At(n, s, key, Freeing([], wanted));
    StartAt(n, s, key, Freeing([], wanted), wanted);
    Single(v, last, Free(key));
    Joined(v, m, es, last, [Free(key)], StartAllocating(n.(store := s), key, wanted));
    Before(v, n, Delete(key), es + [Free(key)], StartAllocating(n.(store := s), key, wanted));
    es := [Delete(key)] + (es + [Free(key)]);
  }

  lemma StartAt(n: Net, s: State<Key>, key: Key, f: Flight, wanted: Option<set<Family>>)
    ensures StartAllocating(At(n, s, key, f), key, wanted) == StartAllocating(n.(store := s), key, wanted)
  {
    assert n.flights[key := f] - {key} == n.flights - {key};
    if wanted.Some? {
      var g := Allocating(wanted.value, []);
      assert n.flights[key := f][key := g] == n.flights[key := g];
    }
  }

  /** The rest of a request that holds no lease, from the moment it turns to the allocators. */
  lemma FreshSchedule(v: Server, y: Sys, n: Net, key: Key, ips: seq<Addr>, t: int) returns (es: seq<Action>, m: Net)
    requires Sound(v, y) && y.meter.store == n.store && n.clock <= t && NewLease(v, y, key, ips, t).Turn?
    ensures Interleaves(v, StartAllocating(n, key, Wanted(ips)), es, m)
    ensures Settles(n, NewLease(v, y, key, ips, t), key, m) && m.clock <= t
  {
    var started := StartAllocating(n, key, Wanted(ips));
    assert started.flights - {key} == n.flights - {key};
    if Wanted(ips).Some? {
      es, m := NewLeaseSchedule(v, y, started, key, ips, t);
    } else {
      es, m := [], started;
    }
  }

  lemma RequestSchedule(v: Server, y: Sys, n: Net, key: Key, ips: seq<Addr>, t1: int, t2: int,
      inPlace: bool)
    returns (es: seq<Action>, m: Net)
    requires Sound(v, y) && Conserved(y.meter.store) && y.meter.store == n.store && key !in n.flights
    requires n.clock <= t1 <= t2 && Request(v, y, key, ips, t1, t2).Turn?
    ensures Interleaves(v, n, es, m) && Settles(n, Request(v, y, key, ips, t1, t2), key, m) && m.clock <= t2
  {
    var begun := Act(v, n, Begin(key, ips, t1));
    assert begun.flights - {key} == n.flights - {key};
    if key !in n.store.leases {
      es, m := FreshSchedule(v, y, n.(clock := t1), key, ips, t2);
    } else {
      var l := n.store.leases[key];
      if Expired(l, t1) {
        LapseEffect(v, y, key);
        var lapsed := Lapsed(v, y, key);
        var drop := LapseSchedule(v, y, begun, key, Wanted(ips));
        var rest;
        rest, m := FreshSchedule(v, lapsed, begun.(store := lapsed.meter.store), key, ips, t2);
        Joined(v, begun, drop, StartAllocating(begun.(store := lapsed.meter.store), key, Wanted(ips)), rest, m);
        es := drop + rest;
      } else if Honoured(ips, l) {
        es, m := RenewSchedule(v, y, begun, key, ips, l, t2, inPlace);
      } else {
        es, m := [], begun;
      }
    }
    Before(v, n, Begin(key, ips, t1), es, m);
    es := [Begin(key, ips, t1)] + es;
  }

  lemma SettledMeans(n: Net, turn: Turn, key: Key, m: Net)
    requires turn.Turn? && Settles(n, turn, key, m) && key !in n.flights
    ensures m.store == turn.sys.meter.store && m.flights == n.flights
    ensures forall p :: p in m.promises <==> p in n.promises || PromisedBy(turn.response, key, p)
  {
    assert n.flights - {key} == n.flights;
  }

  /** What a reply promises: each of its addresses to this client until its end. */
  predicate PromisedBy(r: Response, key: Key, p: Promise) {
    r.Grant? && p.key == key && p.addr in r.ips && p.expiry == r.start + r.length
  }

  /**
   * With nothing else in flight, the atomic request is one schedule of the stepwise one: same store, same reply, for
   * either way of stamping a renewal.
   */
  lemma AtomicRequestIsAnInterleaving(v: Server, y: Sys, n: Net, key: Key, ips: seq<Addr>, t1: int, t2: int,
      inPlace: bool)
    returns (es: seq<Action>, m: Net)
    requires Sound(v, y) && Conserved(y.meter.store) && y.meter.store == n.store && key !in n.flights
    requires n.clock <= t1 <= t2 && Request(v, y, key, ips, t1, t2).Turn?
    ensures Interleaves(v, n, es, m) && m.clock <= t2
    ensures var turn := Request(v, y, key, ips, t1, t2);
      && m.store == turn.sys.meter.store && m.flights == n.flights
      && forall p :: p in m.promises <==> p in n.promises || PromisedBy(turn.response, key, p)
  {
    es, m := RequestSchedule(v, y, n, key, ips, t1, t2, inPlace);
    SettledMeans(n, Request(v, y, key, ips, t1, t2), key, m);
  }
}
