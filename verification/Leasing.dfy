/** The lease state machine of one client key: no lease, current or expired; then grant, renew, refuse or replace. */
module Leasing {
  import opened Util
  import opened Address
  import opened Store
  import opened Purging
  import opened Metrics
  import opened Engine

  datatype Response = Grant(ips: seq<Addr>, start: int, length: int) | IPUnavailable

  /** Crashed is a nil dereference in some allocator: the process is gone. */
  datatype Turn = Turn(sys: Sys, response: Response) | Crashed

  predicate IsZero(a: Addr) {
    a.value == 0
  }

  /** The families a client asks for; none when it names an address of its own choice. */
  function Wanted(ips: seq<Addr>): Option<set<Family>> {
    if ips == [] then Some({IPv4, IPv6})
    else if exists a :: a in ips && !IsZero(a) then None
    else Some(set a | a in ips :: a.family)
  }

  /** Lease operations go to the store through the metrics wrapper, which leaves its gauge alone. */
  ghost function Stored(y: Sys, key: Key, l: Lease): Sys {
    y.(meter := MeteredStep(y.meter, SaveLease(key, l)).0)
  }

  ghost function Deleted(y: Sys, key: Key): Sys {
    y.(meter := MeteredStep(y.meter, DeleteLease(key)).0)
  }

  ghost function NewLease(v: Server, y: Sys, key: Key, ips: seq<Addr>, now: int): Turn
    requires Sound(v, y)
  {
    match Wanted(ips)
    case None => Turn(y, IPUnavailable)
    case Some(wanted) =>
      match AllocateAll(v, y, wanted)
      case GrantPanic => Crashed
      case Refused(y') => Turn(y', IPUnavailable)
      case Granted(given, y') =>
        var l := Lease(given, Seconds(now), v.duration);
        Turn(Stored(y', key, l), Grant(given, l.start, l.length))
  }

  /** A client may name zero addresses and addresses of its lease. */
  predicate Honoured(ips: seq<Addr>, l: Lease) {
    forall a :: a in ips ==> IsZero(a) || a in l.ips
  }

  ghost function RenewLease(v: Server, y: Sys, key: Key, ips: seq<Addr>, l: Lease, now: int): Turn {
    if !Honoured(ips, l) then Turn(y, IPUnavailable)
    else
      var l' := Lease(l.ips, Seconds(now), v.duration);
      Turn(Stored(y, key, l'), Grant(l.ips, l'.start, l'.length))
  }

  /** One request: checked at time t1, and stamped at time t2. */
  ghost function Request(v: Server, y: Sys, key: Key, ips: seq<Addr>, t1: int, t2: int): Turn
    requires Sound(v, y) && Conserved(y.meter.store)
  {
    if key !in y.meter.store.leases then NewLease(v, y, key, ips, t2)
    else
      var l := y.meter.store.leases[key];
      if !Expired(l, t1) then RenewLease(v, y, key, ips, l, t2)
      else
        LapseEffect(v, y, key);
        NewLease(v, Lapsed(v, y, key), key, ips, t2)
  }

  /** The state once an expired lease is deleted and its addresses are freed. */
  ghost function Lapsed(v: Server, y: Sys, key: Key): Sys
    requires key in y.meter.store.leases
  {
    FreeEach(v, Deleted(y, key), y.meter.store.leases[key].ips)
  }

  lemma LeasesKeepSound(v: Server, y: Sys, z: Sys)
    requires Sound(v, y)
    requires z.cursors == y.cursors && z.meter.gauge == y.meter.gauge && z.meter.store.subnets == y.meter.store.subnets
    ensures Sound(v, z)
  {
    assert forall s :: s in SubnetsOf(v) ==> Served(s, y) && Served(s, z);
  }

  lemma LeasedWithout(leases: map<Key, Lease>, key: Key)
    requires LeasesApart(leases) && key in leases
    ensures LeasedAddrs(leases - {key}) == LeasedAddrs(leases) - Elems(leases[key].ips)
    ensures LeasesApart(leases - {key})
  {
    var rest := leases - {key};
    forall a ensures a in LeasedAddrs(rest) <==> a in LeasedAddrs(leases) && a !in leases[key].ips {
      if a in LeasedAddrs(leases) && a !in leases[key].ips {
        var k :| k in leases && a in leases[k].ips;
        assert k in rest;
      }
      if a in LeasedAddrs(rest) {
        var k :| k in rest && a in rest[k].ips;
        assert k in leases && k != key && a in leases[k].ips;
      }
    }
  }

  lemma LeasedWith(leases: map<Key, Lease>, key: Key, l: Lease)
    requires LeasesApart(leases) && key !in leases && NoDup(l.ips) && Elems(l.ips) !! LeasedAddrs(leases)
    ensures LeasedAddrs(leases[key := l]) == LeasedAddrs(leases) + Elems(l.ips)
    ensures LeasesApart(leases[key := l])
  {
    var more := leases[key := l];
    forall a ensures a in LeasedAddrs(more) <==> a in LeasedAddrs(leases) || a in l.ips {
      if a in LeasedAddrs(leases) {
        var k :| k in leases && a in leases[k].ips;
        assert k in more;
      }
      if a in l.ips {
        assert key in more;
      }
    }
    forall j, k, a | j in more && k in more && j != k && a in more[j].ips ensures a !in more[k].ips {
      if j == key {
        assert a in Elems(l.ips);
        assert a in more[k].ips ==> a in LeasedAddrs(leases);
      } else {
        assert a in LeasedAddrs(leases);
        assert k == key && a in more[k].ips ==> a in Elems(l.ips);
      }
    }
  }

  lemma LeasedRenewed(leases: map<Key, Lease>, key: Key, l: Lease)
    requires LeasesApart(leases) && key in leases && l.ips == leases[key].ips
    ensures LeasedAddrs(leases[key := l]) == LeasedAddrs(leases)
    ensures LeasesApart(leases[key := l])
  {
    var more := leases[key := l];
    forall a ensures a in LeasedAddrs(more) <==> a in LeasedAddrs(leases) {
      if a in LeasedAddrs(leases) {
        var k :| k in leases && a in leases[k].ips;
        assert k in more && a in more[k].ips;
      }
    }
  }

  /** Dropping an expired lease frees exactly its addresses. */
  lemma LapseEffect(v: Server, y: Sys, key: Key)
    requires Sound(v, y) && Conserved(y.meter.store) && key in y.meter.store.leases
    ensures var z := Lapsed(v, y, key);
      && Sound(v, z) && Conserved(z.meter.store)
      && z.meter.store.leases == y.meter.store.leases - {key} && z.cursors == y.cursors
  {
    var l := y.meter.store.leases[key];
    LeasesKeepSound(v, y, Deleted(y, key));
    forall a | a in l.ips ensures a in Taken(y) {
      assert a in LeasedAddrs(y.meter.store.leases);
    }
    FreeEachEffect(v, Deleted(y, key), l.ips);
    LeasedWithout(y.meter.store.leases, key);
  }

  lemma LapseFrees(v: Server, y: Sys, key: Key)
    requires Sound(v, y) && Conserved(y.meter.store) && key in y.meter.store.leases
    ensures Taken(Lapsed(v, y, key)) == Taken(y) - Elems(y.meter.store.leases[key].ips)
  {
    LapseEffect(v, y, key);
    LeasedWithout(y.meter.store.leases, key);
  }

  /** Storing a lease of freshly allocated addresses keeps the books. */
  lemma GrantKeepsBooks(v: Server, y: Sys, z: Sys, key: Key, l: Lease)
    requires Conserved(y.meter.store) && key !in y.meter.store.leases
    requires Sound(v, z) && z.meter.store.leases == y.meter.store.leases
    requires NoDup(l.ips) && Elems(l.ips) !! Taken(y) && Taken(z) == Taken(y) + Elems(l.ips)
    ensures var x := Stored(z, key, l);
      Sound(v, x) && Conserved(x.meter.store) && x.meter.store.leases == y.meter.store.leases[key := l]
  {
    LeasedWith(y.meter.store.leases, key, l);
    LeasesKeepSound(v, z, Stored(z, key, l));
  }

  lemma NewLeaseEffect(v: Server, y: Sys, key: Key, ips: seq<Addr>, now: int)
    requires Sound(v, y) && Conserved(y.meter.store) && key !in y.meter.store.leases
    ensures var r := NewLease(v, y, key, ips, now);
      var before := y.meter.store.leases;
      r.Turn? ==>
        && Sound(v, r.sys) && Conserved(r.sys.meter.store)
        && r.sys.meter.store.leases == (
             if r.response.Grant? then before[key := Lease(r.response.ips, r.response.start, r.response.length)]
             else before)
        && (r.response.Grant? ==> r.response.start == Seconds(now) && r.response.length == v.duration)
  {
    var wanted := Wanted(ips);
    if wanted.Some? {
      AllocateAllEffect(v, y, wanted.value);
      var g := AllocateAll(v, y, wanted.value);
      if g.Granted? {
        GrantKeepsBooks(v, y, g.sys, key, Lease(g.ips, Seconds(now), v.duration));
      }
    }
  }

  /** The request asks for addresses of this family: it names none at all, or one of the family. */
  predicate AsksFor(ips: seq<Addr>, f: Family) {
    ips == [] || exists a :: a in ips && a.family == f
  }

  lemma WantedMeans(ips: seq<Addr>)
    ensures Wanted(ips).None? <==> exists a :: a in ips && a.value != 0
    ensures Wanted(ips).Some? ==> forall f :: f in Wanted(ips).value <==> AsksFor(ips, f)
  {
    if Wanted(ips).Some? {
      forall f ensures f in Wanted(ips).value <==> AsksFor(ips, f) {
        assert f == IPv4 || f == IPv6;
      }
    }
  }

  /** A request that turns to the allocators is granted when they grant, and gets what they grant. */
  lemma NewLeaseIsGranted(v: Server, y: Sys, key: Key, ips: seq<Addr>, now: int)
    requires Sound(v, y) && Wanted(ips).Some?
    ensures var r, g := NewLease(v, y, key, ips, now), AllocateAll(v, y, Wanted(ips).value);
      && (r.Turn? <==> !g.GrantPanic?)
      && (r.Turn? ==> (r.response.Grant? <==> g.Granted?) && (g.Granted? ==> r.response.ips == g.ips))
  {
  }

  /** A client that names an address gets nothing, and nothing changes. */
  lemma NamedIsRefused(v: Server, y: Sys, key: Key, ips: seq<Addr>, now: int)
    requires Sound(v, y) && exists a :: a in ips && a.value != 0
    ensures NewLease(v, y, key, ips, now) == Turn(y, IPUnavailable)
  {
    WantedMeans(ips);
  }

  lemma GrantedLeaseIsOneEach(v: Server, y: Sys, key: Key, ips: seq<Addr>, now: int)
    requires Sound(v, y)
    ensures var r := NewLease(v, y, key, ips, now);
      r.Turn? && r.response.Grant? ==>
        Wanted(ips).Some? && OneEach(v, IPv4 in Wanted(ips).value, IPv6 in Wanted(ips).value, r.response.ips)
  {
    if Wanted(ips).Some? {
      NewLeaseIsGranted(v, y, key, ips, now);
      GrantIsOneEach(v, y, Wanted(ips).value);
    }
  }

  lemma SharesMean(v: Server, ips: seq<Addr>, given: seq<Addr>)
    requires Wanted(ips).Some? && OneEach(v, IPv4 in Wanted(ips).value, IPv6 in Wanted(ips).value, given)
    ensures OneEach(v, AsksFor(ips, IPv4), AsksFor(ips, IPv6), given)
  {
    WantedMeans(ips);
  }

  /**
   * A client that is granted a lease gets exactly one address of each subnet of the families it names, or of all
   * subnets if it names none; IPv4 first, in configured order.
   */
  lemma NewLeaseGives(v: Server, y: Sys, key: Key, ips: seq<Addr>, now: int)
    requires Sound(v, y)
    ensures var r := NewLease(v, y, key, ips, now);
      var n4, n6 := if AsksFor(ips, IPv4) then |v.subs4| else 0, if AsksFor(ips, IPv6) then |v.subs6| else 0;
      r.Turn? && r.response.Grant? ==>
        && |r.response.ips| == n4 + n6 > 0
        && (forall i :: 0 <= i < n4 ==> Contains(v.subs4[i].block, r.response.ips[i]))
        && (forall i :: 0 <= i < n6 ==> Contains(v.subs6[i].block, r.response.ips[n4 + i]))
  {
    GrantedLeaseIsOneEach(v, y, key, ips, now);
    var r := NewLease(v, y, key, ips, now);
    if r.Turn? && r.response.Grant? {
      SharesMean(v, ips, r.response.ips);
    }
  }

  /** A renewal keeps the books: the lease goes on with the same addresses, or stays as it is. */
  lemma RenewEffect(v: Server, y: Sys, key: Key, ips: seq<Addr>, now: int)
    requires Sound(v, y) && Conserved(y.meter.store) && key in y.meter.store.leases
    ensures var before := y.meter.store.leases;
      var r := RenewLease(v, y, key, ips, before[key], now);
      && r.Turn? && Sound(v, r.sys) && Conserved(r.sys.meter.store)
      && r.sys.meter.store.subnets == y.meter.store.subnets
      && (r.response.Grant? <==> forall a :: a in ips ==> a.value == 0 || a in before[key].ips)
      && r.sys.meter.store.leases ==
        (if r.response.Grant? then before[key := Lease(before[key].ips, Seconds(now), v.duration)] else before)
      && (r.response.Grant? ==>
            r.response == Grant(before[key].ips, r.sys.meter.store.leases[key].start, v.duration))
  {
    var l := y.meter.store.leases[key];
    if Honoured(ips, l) {
      var l' := Lease(l.ips, Seconds(now), v.duration);
      LeasedRenewed(y.meter.store.leases, key, l');
      LeasesKeepSound(v, y, Stored(y, key, l'));
    }
  }

  /** A request of a client without a current lease starts over, from the state without an expired one. */
  lemma FreshRequest(v: Server, y: Sys, key: Key, ips: seq<Addr>, t1: int, t2: int) returns (z: Sys)
    requires Sound(v, y) && Conserved(y.meter.store)
    requires var leases := y.meter.store.leases; key in leases ==> leases[key].start + leases[key].length <= t1
    ensures Sound(v, z) && Conserved(z.meter.store) && z.meter.store.leases == y.meter.store.leases - {key}
    ensures Request(v, y, key, ips, t1, t2) == NewLease(v, z, key, ips, t2)
  {
    z := y;
    if key in y.meter.store.leases {
      LapseEffect(v, y, key);
      z := Lapsed(v, y, key);
    } else {
      assert y.meter.store.leases - {key} == y.meter.store.leases;
    }
  }

  lemma FreshRequestEffect(v: Server, y: Sys, key: Key, ips: seq<Addr>, t1: int, t2: int)
    requires Sound(v, y) && Conserved(y.meter.store)
    requires var leases := y.meter.store.leases; key in leases ==> leases[key].start + leases[key].length <= t1
    ensures var r, rest := Request(v, y, key, ips, t1, t2), y.meter.store.leases - {key};
      r.Turn? ==>
        && Sound(v, r.sys) && Conserved(r.sys.meter.store)
        && ((exists a :: a in ips && a.value != 0) ==> r.response.IPUnavailable?)
        && (if r.response.Grant? then
              && r.sys.meter.store.leases == rest[key := Lease(r.response.ips, Seconds(t2), v.duration)]
              && r.response == Grant(r.response.ips, Seconds(t2), v.duration)
            else r.sys.meter.store.leases == rest)
  {
    var z := FreshRequest(v, y, key, ips, t1, t2);
    NewLeaseEffect(v, z, key, ips, t2);
    if exists a :: a in ips && a.value != 0 {
      NamedIsRefused(v, z, key, ips, t2);
    }
  }

  lemma CurrentRequestEffect(v: Server, y: Sys, key: Key, ips: seq<Addr>, t1: int, t2: int)
    requires Sound(v, y) && Conserved(y.meter.store)
    requires var leases := y.meter.store.leases; key in leases && t1 < leases[key].start + leases[key].length
    ensures var r, before := Request(v, y, key, ips, t1, t2), y.meter.store.leases;
      && r.Turn? && Sound(v, r.sys) && Conserved(r.sys.meter.store)
      && (r.response.Grant? <==> forall a :: a in ips ==> a.value == 0 || a in before[key].ips)
      && (if r.response.Grant? then
            && r.sys.meter.store.leases == before[key := Lease(before[key].ips, Seconds(t2), v.duration)]
            && r.response == Grant(before[key].ips, Seconds(t2), v.duration)
          else r.sys.meter.store.leases == before)
  {
    RenewEffect(v, y, key, ips, t2);
  }

  lemma OnlyThisKey(leases: map<Key, Lease>, key: Key, l: Lease)
    ensures leases[key := l] - {key} == leases - {key}
    ensures (leases - {key})[key := l] - {key} == leases - {key}
    ensures leases - {key} - {key} == leases - {key}
  {
  }

  /** Every request keeps the books, and changes no lease but the client's own. */
  lemma RequestEffect(v: Server, y: Sys, key: Key, ips: seq<Addr>, t1: int, t2: int)
    requires Sound(v, y) && Conserved(y.meter.store)
    ensures var r := Request(v, y, key, ips, t1, t2);
      var before := y.meter.store.leases;
      var current := key in before && t1 < before[key].start + before[key].length;
      r.Turn? ==>
        var after := r.sys.meter.store.leases;
        && Sound(v, r.sys) && Conserved(r.sys.meter.store)
        && after - {key} == before - {key}
        && (r.response.Grant? ==>
              && key in after && after[key] == Lease(r.response.ips, r.response.start, r.response.length)
              && r.response.start == Seconds(t2) && r.response.length == v.duration)
        && (current ==>
              && key in after && after[key].ips == before[key].ips
              && (r.response.Grant? <==> forall a :: a in ips ==> a.value == 0 || a in before[key].ips)
              && (!r.response.Grant? ==> after == before))
        && (!current && (exists a :: a in ips && a.value != 0) ==> r.response.IPUnavailable?)
        && (!current && r.response.IPUnavailable? ==> key !in after)
  {
    var leases := y.meter.store.leases;
    var r := Request(v, y, key, ips, t1, t2);
    if r.Turn? && r.response.Grant? {
      OnlyThisKey(leases, key, Lease(r.response.ips, Seconds(t2), v.duration));
    } else {
      OnlyThisKey(leases, key, Lease([], 0, 0));
    }
    if key in leases && t1 < leases[key].start + leases[key].length {
      CurrentRequestEffect(v, y, key, ips, t1, t2);
    } else {
      FreshRequestEffect(v, y, key, ips, t1, t2);
    }
  }
}
