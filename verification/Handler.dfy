/** The request handler: lease objects and allocations updated step by step, proved against the lease state machine. */
module Handlers {
  import opened Util
  import opened Address
  import opened Store
  import opened Metrics
  import opened Engine
  import opened Leasing
  import opened MemoryStores
  import opened MultiAllocators

  /** A response, or the nil dereference of an allocator. */
  datatype Outcome = Replied(response: Response) | Died

  lemma StoredAgain(y: Sys, key: Key, l: Lease)
    requires key in y.meter.store.leases && y.meter.store.leases[key] == l
    ensures Stored(y, key, l) == y
  {
    assert y.meter.store.leases[key := l] == y.meter.store.leases;
  }

  class Handler {
    const leases: MemoryStore
    const ips: MultiAllocator
    const duration: int

    ghost predicate Valid()
      reads this, leases, ips, set a | a in ips.as4 + ips.as6, set a | a in ips.as4 + ips.as6 :: a.c
    {
      && leases.Valid() && ips.Valid()
      && ips.s.store == leases && ips.server.duration == duration
    }

    ghost function View(): Sys
      reads this, ips, ips.s, ips.s.store, ips.s.store.leases.Values, ips.cursorOf.Values
    {
      ips.View()
    }

    constructor (leases: MemoryStore, ips: MultiAllocator, duration: int)
      requires leases.Valid() && ips.Valid() && ips.s.store == leases && ips.server.duration == duration
      ensures Valid() && this.leases == leases && this.ips == ips && this.duration == duration
    {
      this.leases, this.ips, this.duration := leases, ips, duration;
    }

    /** The families a client without a lease asks for; none if it names an address. */
    method RequestedFamilies(req: seq<Addr>) returns (wanted: Option<set<Family>>)
      ensures wanted == Wanted(req)
      ensures wanted.None? <==> exists a :: a in req && a.value != 0
      ensures wanted.Some? ==> forall f :: f in wanted.value <==> AsksFor(req, f)
    {
      WantedMeans(req);
      if |req| == 0 {
        return Some({IPv4, IPv6});
      }
      var family: set<Family> := {};
      for i := 0 to |req|
        invariant forall j :: 0 <= j < i ==> IsZero(req[j])
        invariant family == set a | a in req[..i] :: a.family
      {
        if !IsZero(req[i]) {
          assert req[i] in req;
          return None;
        }
        assert req[..i + 1] == req[..i] + [req[i]];
        family := family + {req[i].family};
      }
      assert req[..|req|] == req;
      wanted := Some(family);
    }

    /** Saving a lease object that no other key holds. */
    method SaveLease(key: Key, l: LeaseRecord)
      requires Valid() && forall k :: k in leases.leases && k != key ==> leases.leases[k] != l
      modifies leases
      ensures Valid() && View() == Stored(old(View()), key, l.Value())
    {
      leases.SaveLease(key, l);
    }

    /** Restarting the clock of a stored lease object, in place. */
    method Restamp(key: Key, l: LeaseRecord, start: int, length: int)
      requires Valid() && key in leases.leases && leases.leases[key] == l
      modifies l
      ensures Valid() && l.ips == old(l.ips) && l.start == start && l.length == length
      ensures View() == Stored(old(View()), key, Store.Lease(l.ips, start, length))
    {
      ghost var was := View().meter.store.leases;
      l.start, l.length := start, length;
      assert View().meter.store.leases == was[key := Store.Lease(l.ips, start, length)];
    }

    method DeleteLease(key: Key)
      requires Valid()
      modifies leases
      ensures Valid() && leases.leases == old(leases.leases) - {key} && View() == Deleted(old(View()), key)
    {
      leases.DeleteLease(key);
    }

    /** Stores a fresh lease of these addresses and replies with it. */
    method GrantLease(key: Key, given: seq<Addr>, now: int) returns (r: Outcome)
      requires Valid()
      modifies leases
      ensures Valid() && r == Replied(Grant(given, Seconds(now), duration))
      ensures View() == Stored(old(View()), key, Store.Lease(given, Seconds(now), duration))
    {
      var l := new LeaseRecord(Store.Lease(given, Seconds(now), duration));
      SaveLease(key, l);
      r := Replied(Grant(l.ips, l.start, l.length));
    }

    method NewLease(key: Key, req: seq<Addr>, now: int) returns (r: Outcome)
      requires Valid() && Sound(ips.server, View())
      modifies leases, ips.s, ips.cursorOf.Values
      ensures Valid()
      ensures match Leasing.NewLease(ips.server, old(View()), key, req, now)
        case Crashed => r == Died
        case Turn(y, response) => r == Replied(response) && View() == y
    {
      ghost var turn := Leasing.NewLease(ips.server, View(), key, req, now);
      var wanted := RequestedFamilies(req);
      if wanted.None? {
        return Replied(IPUnavailable);
      }
      ghost var given := AllocateAll(ips.server, View(), wanted.value);
      assert turn == (match given
        case GrantPanic => Crashed
        case Refused(y) => Turn(y, IPUnavailable)
        case Granted(x, y) =>
          Turn(Stored(y, key, Store.Lease(x, Seconds(now), duration)), Grant(x, Seconds(now), duration)));
      var g := ips.Allocate(wanted.value);
      if g.MultiPanic? {
        return Died;
      }
      if g.Unavailable? {
        return Replied(IPUnavailable);
      }
      r := GrantLease(key, g.ips, now);
    }

    /** Whether every requested address is zero or one of the client's own. */
    method OwnOrZero(req: seq<Addr>, own: seq<Addr>) returns (ok: bool)
      ensures ok <==> forall a :: a in req ==> a.value == 0 || a in own
    {
      for i := 0 to |req|
        invariant forall j :: 0 <= j < i ==> IsZero(req[j]) || req[j] in own
      {
        if IsZero(req[i]) {
          continue;
        }
        var found := false;
        for j := 0 to |own|
          invariant !found && req[i] !in own[..j]
        {
          if req[i] == own[j] {
            found := true;
            break;
          }
        }
        if !found {
          assert req[i] in req;
          return false;
        }
      }
      ok := true;
    }

    /** Renews the stored lease object in place and saves it. */
    method RenewLease(key: Key, req: seq<Addr>, l: LeaseRecord, now: int) returns (r: Response)
      requires Valid() && key in leases.leases && leases.leases[key] == l
      modifies leases, l
      ensures Valid()
      ensures Leasing.RenewLease(ips.server, old(View()), key, req, old(l.Value()), now) == Turn(View(), r)
      ensures r.Grant? <==> forall a :: a in req ==> a.value == 0 || a in old(l.ips)
    {
      var ok := OwnOrZero(req, l.ips);
      if !ok {
        return IPUnavailable;
      }
      Restamp(key, l, Seconds(now), duration);
      StoredAgain(View(), key, l.Value());
      SaveLease(key, l);
      r := Grant(l.ips, l.start, l.length);
    }

    /** Frees each of these addresses wherever a subnet contains it. */
    method FreeAll(freed: seq<Addr>)
      requires Valid()
      modifies ips.s, leases`subnets
      ensures Valid() && View() == FreeEach(ips.server, old(View()), freed)
    {
      ghost var y := View();
      for i := 0 to |freed|
        invariant Valid() && FreeEach(ips.server, y, freed) == FreeEach(ips.server, View(), freed[i..])
      {
        assert freed[i..][0] == freed[i] && freed[i..][1..] == freed[i + 1..];
        ips.Free(freed[i]);
      }
    }

    /** Drops an expired lease: the record goes first, then its addresses are freed. */
    method Drop(key: Key, l: LeaseRecord)
      requires Valid() && key in leases.leases && leases.leases[key] == l
      modifies leases, ips.s
      ensures Valid() && View() == Lapsed(ips.server, old(View()), key)
    {
      DeleteLease(key);
      FreeAll(l.ips);
    }

    /** An expired lease gives way to a new one. */
    method Replace(key: Key, req: seq<Addr>, l: LeaseRecord, now: int) returns (r: Outcome)
      requires Valid() && Sound(ips.server, View()) && Conserved(View().meter.store)
      requires key in leases.leases && leases.leases[key] == l
      modifies leases, ips.s, ips.cursorOf.Values
      ensures Valid()
      ensures (LapseEffect(ips.server, old(View()), key);
        match Leasing.NewLease(ips.server, Lapsed(ips.server, old(View()), key), key, req, now)
        case Crashed => r == Died
        case Turn(y, response) => r == Replied(response) && View() == y)
    {
      LapseEffect(ips.server, View(), key);
      Drop(key, l);
      r := NewLease(key, req, now);
    }

    /** One request: renew a current lease, or drop an expired one, and otherwise create a new lease. */
    method RequestIP(key: Key, req: seq<Addr>, t1: int, t2: int) returns (r: Outcome)
      requires Valid() && Sound(ips.server, View()) && Conserved(View().meter.store)
      modifies leases, leases.leases.Values, ips.s, ips.cursorOf.Values
      ensures Valid()
      ensures match Request(ips.server, old(View()), key, req, t1, t2)
        case Crashed => r == Died
        case Turn(y, response) => r == Replied(response) && View() == y
    {
      ghost var turn := Request(ips.server, View(), key, req, t1, t2);
      var l := leases.Lease(key);
      if l == null {
        assert turn == Leasing.NewLease(ips.server, View(), key, req, t2);
        r := NewLease(key, req, t2);
      } else if t1 < l.start + l.length {
        assert turn == Leasing.RenewLease(ips.server, View(), key, req, l.Value(), t2);
        var response := RenewLease(key, req, l, t2);
        r := Replied(response);
      } else {
        LapseEffect(ips.server, View(), key);
        assert turn == Leasing.NewLease(ips.server, Lapsed(ips.server, View(), key), key, req, t2);
        r := Replace(key, req, l, t2);
      }
    }
  }
}
