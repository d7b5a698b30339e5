/**
 * Requests of different clients interleaved at every store operation, with restarts of the process on the same file in
 * between. At most one request per key is in flight, and a purge takes no lease from under one. An allocator may try
 * any address of its subnet, in any order, and may give up at any time, so every schedule of the real cursors is among
 * the schedules here.
 */
module Concurrent {
  import opened Util
  import opened Address
  import opened Store
  import opened Purging
  import opened Metrics
  import opened Engine
  import opened Leasing
  import opened Runs

  /** How far a request has come. Wanted is what it will ask the allocators for, if anything, once it gets there. */
  datatype Flight =
    | Deleting(lease: Lease, wanted: Option<set<Family>>)
    | Freeing(rest: seq<Addr>, wanted: Option<set<Family>>)
    | Allocating(families: set<Family>, held: seq<Addr>)
    | Renewing(lease: Lease)
    | Saving(lease: Lease, renewal: bool)

  /** Orphans are the addresses that requests held when a restart interrupted them. */
  datatype Net =
    Net(store: State<Key>, flights: map<Key, Flight>, clock: int, promises: set<Promise>, orphans: set<Addr>)

  datatype Action =
    | Begin(key: Key, ips: seq<Addr>, t: int)
    | Delete(key: Key)
    | Free(key: Key)
    | Try(key: Key, addr: Addr)
    | GiveUp(key: Key)
    | Stamp(key: Key, t: int, inPlace: bool)
    | Save(key: Key)
    | Sweep(t: int, now: int)
    | Reboot

  function Flown(n: Net, key: Key, f: Flight): Net {
    n.(flights := n.flights[key := f])
  }

  function Landed(n: Net, key: Key): Net {
    n.(flights := n.flights - {key})
  }

  function StartAllocating(n: Net, key: Key, wanted: Option<set<Family>>): Net {
    match wanted
    case None => Landed(n, key)
    case Some(families) => Flown(n, key, Allocating(families, []))
  }

  /** The lease is looked up and judged; nothing is changed yet. */
  function Begun(n: Net, key: Key, ips: seq<Addr>): Net {
    if key !in n.store.leases then StartAllocating(n, key, Wanted(ips))
    else
      var l := n.store.leases[key];
      if Expired(l, n.clock) then Flown(n, key, Deleting(l, Wanted(ips)))
      else if Honoured(ips, l) then Flown(n, key, Renewing(l))
      else n
  }

  function LeaseDeleted(n: Net, key: Key, l: Lease, wanted: Option<set<Family>>): Net {
    Flown(n.(store := n.store.(leases := n.store.leases - {key})), key, Freeing(l.ips, wanted))
  }

  /** The registered subnet that contains the address. */
  ghost function HomeOf(s: State<Key>, a: Addr): (home: Option<Block>)
    ensures home.Some? ==> home.value in s.subnets && Contains(home.value, a)
    ensures home.None? ==> forall b :: b in s.subnets ==> !Contains(b, a)
  {
    if exists b :: b in s.subnets && Contains(b, a) then
      var b :| b in s.subnets && Contains(b, a);
      Some(b)
    else None
  }

  /** One address is freed in the subnet that contains it. */
  ghost function OneFreed(s: State<Key>, a: Addr): State<Key> {
    var home := HomeOf(s, a);
    if home.Some? then MemoryStep(s, FreeIP(home.value, a)).0 else s
  }

  ghost function FreedNext(n: Net, key: Key, rest: seq<Addr>, wanted: Option<set<Family>>): Net {
    if rest == [] then StartAllocating(n, key, wanted)
    else Flown(n.(store := OneFreed(n.store, rest[0])), key, Freeing(rest[1..], wanted))
  }

  /** One attempt at one address; a taken one leaves everything as it is. */
  ghost function Tried(n: Net, key: Key, families: set<Family>, held: seq<Addr>, b: Block, a: Addr): Net {
    var (store, r) := MemoryStep(n.store, AllocateIP(b, a));
    if r == Allocated(true) then Flown(n.(store := store), key, Allocating(families, held + [a])) else n
  }

  /** The memory store hands out its lease object, so a renewal is visible before it is saved; the file store copies. */
  function Stamped(n: Net, key: Key, l: Lease, renewal: bool, inPlace: bool): Net {
    var m := Flown(n, key, Saving(l, renewal));
    if renewal && inPlace && key in m.store.leases then m.(store := m.store.(leases := m.store.leases[key := l])) else m
  }

  function Saved(n: Net, key: Key, l: Lease): Net {
    var m := Landed(n, key);
    m.(store := m.store.(leases := m.store.leases[key := l]),
       promises := m.promises + PromisesOf(key, Grant(l.ips, l.start, l.length)))
  }

  ghost function Swept(n: Net, t: int, now: int): Net {
    n.(clock := now, store := MemoryStep(n.store, Purge(t)).0)
  }

  ghost function HeldAddrs(flights: map<Key, Flight>): set<Addr> {
    set k, a | k in flights && a in HeldBy(flights[k]) :: a
  }

  /** The requests in flight are gone; what they held stays allocated on the file. */
  ghost function Rebooted(n: Net): Net {
    n.(flights := map[], orphans := n.orphans + HeldAddrs(n.flights))
  }

  /** No request in flight works on a stored lease that has expired at t. */
  ghost predicate Undisturbed(n: Net, t: int) {
    forall k :: k in n.flights && k in n.store.leases ==> !Expired(n.store.leases[k], t)
  }

  ghost predicate Enabled(v: Server, n: Net, e: Action) {
    match e
    case Begin(k, _, t) => k !in n.flights && n.clock <= t
    case Delete(k) => k in n.flights && n.flights[k].Deleting?
    case Free(k) => k in n.flights && n.flights[k].Freeing?
    case Try(k, a) =>
      k in n.flights && n.flights[k].Allocating? &&
      var f := n.flights[k];
      |f.held| < |Consulted(v, f.families)| && Contains(Consulted(v, f.families)[|f.held|].block, a)
    case GiveUp(k) =>
      k in n.flights && n.flights[k].Allocating? &&
      (|n.flights[k].held| < |Consulted(v, n.flights[k].families)| || n.flights[k].held == [])
    case Stamp(k, t, _) =>
      k in n.flights && n.clock <= t &&
      (n.flights[k].Renewing? ||
       (n.flights[k].Allocating? && n.flights[k].held != []
        && |n.flights[k].held| == |Consulted(v, n.flights[k].families)|))
    case Save(k) => k in n.flights && n.flights[k].Saving?
    case Sweep(t, now) => Undisturbed(n, t) && n.clock <= now && t <= now
    case Reboot => true
  }

  ghost function Act(v: Server, n: Net, e: Action): Net
    requires Enabled(v, n, e)
  {
    match e
    case Begin(k, ips, t) => Begun(n.(clock := t), k, ips)
    case Delete(k) => LeaseDeleted(n, k, n.flights[k].lease, n.flights[k].wanted)
    case Free(k) => FreedNext(n, k, n.flights[k].rest, n.flights[k].wanted)
    case Try(k, a) =>
      var f := n.flights[k];
      Tried(n, k, f.families, f.held, Consulted(v, f.families)[|f.held|].block, a)
    case GiveUp(k) => Flown(n, k, Freeing(n.flights[k].held, None))
    case Stamp(k, t, inPlace) =>
      var ips := if n.flights[k].Renewing? then n.flights[k].lease.ips else n.flights[k].held;
      Stamped(n.(clock := t), k, Lease(ips, Seconds(t), v.duration), n.flights[k].Renewing?, inPlace)
    case Save(k) => Saved(n, k, n.flights[k].lease)
    case Sweep(t, now) => Swept(n, t, now)
    case Reboot => Rebooted(n)
  }

  /** An address belongs to a client's stored lease or to its request in flight. */
  datatype Owner = Lessee(key: Key) | InFlight(key: Key)

  function HeldBy(f: Flight): seq<Addr> {
    match f
    case Freeing(rest, _) => rest
    case Allocating(_, held) => held
    case Saving(l, renewal) => if renewal then [] else l.ips
    case _ => []
  }

  function Owned(n: Net, o: Owner): seq<Addr> {
    match o
    case Lessee(k) => if k in n.store.leases then n.store.leases[k].ips else []
    case InFlight(k) => if k in n.flights then HeldBy(n.flights[k]) else []
  }

  /** The allocated addresses are the disjoint union of what the owners have and of the orphans. */
  ghost predicate Accounted(n: Net) {
    && (forall o :: NoDup(Owned(n, o)))
    && (forall o, p, a :: o != p && a in Owned(n, o) ==> a !in Owned(n, p))
    && (forall o, a :: a in Owned(n, o) ==> a !in n.orphans)
    && (forall a :: a in AddrsOf(n.store.subnets) <==> a in n.orphans || exists o :: a in Owned(n, o))
  }

  /** What a request in flight may rely on while others run. */
  ghost predicate Coherent(v: Server, leases: map<Key, Lease>, clock: int, key: Key, f: Flight) {
    match f
    case Deleting(l, _) => key in leases && leases[key] == l && Expired(l, clock)
    case Freeing(_, _) => key !in leases
    case Allocating(families, held) => key !in leases && |held| <= |Consulted(v, families)|
    case Renewing(l) => key in leases && leases[key] == l
    case Saving(l, renewal) =>
      && Timely(v, clock, l) && l.ips != []
      && (if renewal then key in leases && leases[key].ips == l.ips && Expiry(leases[key]) <= Expiry(l)
          else key !in leases)
  }

  ghost predicate Good(v: Server, n: Net) {
    && GoodServer(v) && n.store.subnets.Keys == Blocks(v) && Placed(n.store.subnets)
    && Accounted(n)
    && (forall k :: k in n.flights ==> Coherent(v, n.store.leases, n.clock, k, n.flights[k]))
    && (forall k :: k in n.store.leases ==> Timely(v, n.clock, n.store.leases[k]) && n.store.leases[k].ips != [])
    && (forall p :: p in n.promises ==> Kept(n.store.leases, n.clock, p))
  }

  lemma NothingMoves(n: Net, m: Net)
    requires Accounted(n) && m.store.subnets == n.store.subnets && m.orphans == n.orphans
    requires forall o :: Owned(m, o) == Owned(n, o)
    ensures Accounted(m)
  {
  }

  /** Everything one owner has passes to another that had nothing. */
  lemma Passes(n: Net, m: Net, o: Owner, p: Owner)
    requires Accounted(n) && m.store.subnets == n.store.subnets && m.orphans == n.orphans && o != p
    requires Owned(n, p) == [] && Owned(m, p) == Owned(n, o) && Owned(m, o) == []
    requires forall q :: q != o && q != p ==> Owned(m, q) == Owned(n, q)
    ensures Accounted(m)
  {
    forall a ensures a in AddrsOf(m.store.subnets) <==> a in m.orphans || exists q :: a in Owned(m, q) {
      if q :| a in Owned(n, q) {
        assert a in Owned(m, if q == o then p else q);
      }
      if q :| a in Owned(m, q) {
        assert a in Owned(n, if q == p then o else q);
      }
    }
  }

  lemma Gains(n: Net, m: Net, o: Owner, a: Addr)
    requires Accounted(n) && a !in AddrsOf(n.store.subnets) && m.orphans == n.orphans
    requires AddrsOf(m.store.subnets) == AddrsOf(n.store.subnets) + {a}
    requires Owned(m, o) == Owned(n, o) + [a] && forall q :: q != o ==> Owned(m, q) == Owned(n, q)
    ensures Accounted(m)
  {
    assert a in Owned(m, o);
    forall x ensures x in AddrsOf(m.store.subnets) <==> x in m.orphans || exists q :: x in Owned(m, q) {
      if q :| x in Owned(n, q) {
        assert x in Owned(m, q);
      }
      if q :| x in Owned(m, q) {
        assert x == a || x in Owned(n, q);
      }
    }
  }

  lemma Loses(n: Net, m: Net, o: Owner)
    requires Accounted(n) && Owned(n, o) != [] && m.orphans == n.orphans
    requires AddrsOf(m.store.subnets) == AddrsOf(n.store.subnets) - {Owned(n, o)[0]}
    requires Owned(m, o) == Owned(n, o)[1..] && forall q :: q != o ==> Owned(m, q) == Owned(n, q)
    ensures Accounted(m)
  {
    var a := Owned(n, o)[0];
    NoDupTail(Owned(n, o));
    forall x ensures x in AddrsOf(m.store.subnets) <==> x in m.orphans || exists q :: x in Owned(m, q) {
      if x in AddrsOf(m.store.subnets) && x !in n.orphans {
        var q :| x in Owned(n, q);
        assert x in Owned(m, q);
      }
      if q :| x in Owned(m, q) {
        assert x in Owned(n, q) && x != a;
      }
    }
  }

  lemma FreedOne(s: State<Key>, a: Addr)
    requires Placed(s.subnets) && a in AddrsOf(s.subnets)
    ensures var r := OneFreed(s, a);
      && Placed(r.subnets) && r.subnets.Keys == s.subnets.Keys && r.leases == s.leases
      && AddrsOf(r.subnets) == AddrsOf(s.subnets) - {a}
  {
    var b :| b in s.subnets && a in s.subnets[b];
    assert Contains(b, a);
    FreeEffect(Metered(s, map[]), HomeOf(s, a).value, a);
  }

  /** A step that keeps the accounts and touches one client only has to answer for that client. */
  lemma OnlyOne(v: Server, n: Net, m: Net, key: Key)
    requires Good(v, n) && Accounted(m) && n.clock <= m.clock && m.promises == n.promises
    requires m.store.subnets.Keys == n.store.subnets.Keys && Placed(m.store.subnets)
    requires m.flights - {key} == n.flights - {key} && m.store.leases - {key} == n.store.leases - {key}
    requires key in m.flights ==> Coherent(v, m.store.leases, m.clock, key, m.flights[key])
    requires key in m.store.leases ==> Timely(v, m.clock, m.store.leases[key]) && m.store.leases[key].ips != []
    requires forall p :: p in m.promises && p.key == key ==> Kept(m.store.leases, m.clock, p)
    ensures Good(v, m)
  {
    SecondsMonotone(n.clock, m.clock);
    forall k | k != key ensures
      && (k in m.flights <==> k in n.flights) && (k in m.flights ==> m.flights[k] == n.flights[k])
      && (k in m.store.leases <==> k in n.store.leases)
      && (k in m.store.leases ==> m.store.leases[k] == n.store.leases[k])
    {
      assert k in m.flights <==> k in m.flights - {key};
      assert k in n.flights <==> k in n.flights - {key};
      assert k in m.store.leases <==> k in m.store.leases - {key};
      assert k in n.store.leases <==> k in n.store.leases - {key};
    }
    forall p | p in m.promises ensures Kept(m.store.leases, m.clock, p) {
      assert Kept(n.store.leases, n.clock, p);
    }
  }

  lemma BeginIsGood(v: Server, n: Net, key: Key, ips: seq<Addr>, t: int)
    requires Good(v, n) && Enabled(v, n, Begin(key, ips, t))
    ensures Good(v, Act(v, n, Begin(key, ips, t)))
  {
    var m := Act(v, n, Begin(key, ips, t));
    SecondsMonotone(n.clock, t);
    assert m.store == n.store && m.flights - {key} == n.flights - {key};
    NothingMoves(n, m);
    OnlyOne(v, n, m, key);
  }

  lemma DeleteIsGood(v: Server, n: Net, key: Key)
    requires Good(v, n) && Enabled(v, n, Delete(key))
    ensures Good(v, Act(v, n, Delete(key)))
  {
    var m := Act(v, n, Delete(key));
    Passes(n, m, Lessee(key), InFlight(key));
  }

  /** Another store with the same leases, and this request one step further. */
  lemma MovesOn(v: Server, n: Net, s: State<Key>, key: Key, f: Flight)
    requires Good(v, n) && key in n.flights && key !in n.store.leases && s.leases == n.store.leases
    requires s.subnets.Keys == n.store.subnets.Keys && Placed(s.subnets)
    requires Coherent(v, s.leases, n.clock, key, f) && Accounted(Flown(n.(store := s), key, f))
    ensures Good(v, Flown(n.(store := s), key, f))
  {
    var m := Flown(n.(store := s), key, f);
    assert m.flights - {key} == n.flights - {key};
    OnlyOne(v, n, m, key);
  }

  lemma StartIsGood(v: Server, n: Net, key: Key, wanted: Option<set<Family>>)
    requires Good(v, n) && key in n.flights && n.flights[key] == Freeing([], wanted)
    ensures Good(v, StartAllocating(n, key, wanted))
  {
    var m := StartAllocating(n, key, wanted);
    assert Coherent(v, n.store.leases, n.clock, key, n.flights[key]);
    assert m.flights - {key} == n.flights - {key};
    NothingMoves(n, m);
    OnlyOne(v, n, m, key);
  }

  lemma FreeIsGood(v: Server, n: Net, key: Key)
    requires Good(v, n) && Enabled(v, n, Free(key))
    ensures Good(v, Act(v, n, Free(key)))
  {
    var rest, wanted := n.flights[key].rest, n.flights[key].wanted;
    if rest == [] {
      StartIsGood(v, n, key, wanted);
    } else {
      var m := Act(v, n, Free(key));
      assert Coherent(v, n.store.leases, n.clock, key, n.flights[key]);
      assert rest[0] in Owned(n, InFlight(key));
      FreedOne(n.store, rest[0]);
      Loses(n, m, InFlight(key));
      MovesOn(v, n, OneFreed(n.store, rest[0]), key, Freeing(rest[1..], wanted));
    }
  }

  /** One attempt, as the store sees it. */
  lemma StoreAllocates(s: State<Key>, b: Block, a: Addr)
    requires Placed(s.subnets) && b in s.subnets && Contains(b, a)
    ensures var (z, r) := MemoryStep(s, AllocateIP(b, a));
      if a in AddrsOf(s.subnets) then z == s && r == Allocated(false)
      else
        && r == Allocated(true) && z.leases == s.leases && z.subnets.Keys == s.subnets.Keys && Placed(z.subnets)
        && AddrsOf(z.subnets) == AddrsOf(s.subnets) + {a}
  {
    var (n, r) := MeteredStep(Metered(s, map[]), AllocateIP(b, a));
    assert MemoryStep(s, AllocateIP(b, a)) == (n.store, r);
    AllocateEffect(Metered(s, map[]), b, a);
  }

  /** A successful attempt gives the address to the request; any other changes nothing. */
  lemma TriedGains(n: Net, key: Key, families: set<Family>, held: seq<Addr>, b: Block, a: Addr)
    requires Accounted(n) && Placed(n.store.subnets) && b in n.store.subnets && Contains(b, a)
    requires key in n.flights && n.flights[key] == Allocating(families, held)
    ensures a in AddrsOf(n.store.subnets) ==> Tried(n, key, families, held, b, a) == n
    ensures a !in AddrsOf(n.store.subnets) ==>
      var s := MemoryStep(n.store, AllocateIP(b, a)).0;
      && s.leases == n.store.leases && s.subnets.Keys == n.store.subnets.Keys && Placed(s.subnets)
      && Tried(n, key, families, held, b, a) == Flown(n.(store := s), key, Allocating(families, held + [a]))
      && Accounted(Tried(n, key, families, held, b, a))
  {
    StoreAllocates(n.store, b, a);
    if a !in AddrsOf(n.store.subnets) {
      Gains(n, Tried(n, key, families, held, b, a), InFlight(key), a);
    }
  }

  lemma TriedIsGood(v: Server, n: Net, key: Key, families: set<Family>, held: seq<Addr>, b: Block, a: Addr)
    requires Good(v, n) && key in n.flights && n.flights[key] == Allocating(families, held)
    requires |held| < |Consulted(v, families)| && b in Blocks(v) && Contains(b, a)
    ensures Good(v, Tried(n, key, families, held, b, a))
  {
    assert Coherent(v, n.store.leases, n.clock, key, n.flights[key]);
    TriedGains(n, key, families, held, b, a);
    if a !in AddrsOf(n.store.subnets) {
      MovesOn(v, n, MemoryStep(n.store, AllocateIP(b, a)).0, key, Allocating(families, held + [a]));
    }
  }

  lemma TryIsGood(v: Server, n: Net, key: Key, a: Addr)
    requires Good(v, n) && Enabled(v, n, Try(key, a))
    ensures Good(v, Act(v, n, Try(key, a)))
  {
    var f := n.flights[key];
    var s := Consulted(v, f.families)[|f.held|];
    ConsultedAreConfigured(v, f.families);
    assert s.block in Blocks(v);
    TriedIsGood(v, n, key, f.families, f.held, s.block, a);
  }

  lemma GiveUpIsGood(v: Server, n: Net, key: Key)
    requires Good(v, n) && Enabled(v, n, GiveUp(key))
    ensures Good(v, Act(v, n, GiveUp(key)))
  {
    NothingMoves(n, Act(v, n, GiveUp(key)));
  }

  lemma StampIsGood(v: Server, n: Net, key: Key, t: int, inPlace: bool)
    requires Good(v, n) && Enabled(v, n, Stamp(key, t, inPlace))
    ensures Good(v, Act(v, n, Stamp(key, t, inPlace)))
  {
    SecondsMonotone(n.clock, t);
    NothingMoves(n, Act(v, n, Stamp(key, t, inPlace)));
  }

  lemma SaveIsGood(v: Server, n: Net, key: Key)
    requires Good(v, n) && Enabled(v, n, Save(key))
    ensures Good(v, Act(v, n, Save(key)))
  {
    var m := Act(v, n, Save(key));
    if n.flights[key].renewal {
      NothingMoves(n, m);
    } else {
      Passes(n, m, InFlight(key), Lessee(key));
    }
  }

  /** With nothing in flight and no orphans the accounts are those of the atomic engine. */
  lemma Quiet(n: Net)
    requires n.flights == map[]
    ensures Accounted(n) <==>
      && LeasesApart(n.store.leases) && LeasedAddrs(n.store.leases) !! n.orphans
      && AddrsOf(n.store.subnets) == LeasedAddrs(n.store.leases) + n.orphans
  {
    var leases := n.store.leases;
    forall a ensures a in LeasedAddrs(leases) <==> exists o :: a in Owned(n, o) {
      if a in LeasedAddrs(leases) {
        var k :| k in leases && a in leases[k].ips;
        assert a in Owned(n, Lessee(k));
      }
    }
    if Accounted(n) {
      LeasesOwnApart(n);
    }
  }

  lemma LeasesOwnApart(n: Net)
    requires Accounted(n)
    ensures LeasesApart(n.store.leases)
  {
    var leases := n.store.leases;
    forall k | k in leases ensures NoDup(leases[k].ips) {
      assert NoDup(Owned(n, Lessee(k)));
    }
    forall j, k, a | j in leases && k in leases && j != k && a in leases[j].ips ensures a !in leases[k].ips {
      assert a in Owned(n, Lessee(j)) && a !in Owned(n, Lessee(k));
    }
  }
}
