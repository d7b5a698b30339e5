/** Laws of the purge: composition in time, and its exact effect on every allocated set. */
module Purging {
  import opened Util
  import opened Address
  import opened Store

  /** The state and the freed counts after one purge. */
  ghost function Purged(s: State<Key>, t: int): State<Key> {
    MemoryStep(s, Purge(t)).0
  }

  ghost function FreedBy(s: State<Key>, t: int): map<Block, nat> {
    MemoryStep(s, Purge(t)).1.ips
  }

  lemma SlotsSplit(s: State<Key>, t1: int, t2: int, b: Block)
    requires t1 <= t2
    ensures |FreedSlots(s.leases, t2, b)|
      == |FreedSlots(s.leases, t1, b)| + |FreedSlots(Surviving(s.leases, t1), t2, b)|
  {
    var x, y, z := FreedSlots(s.leases, t1, b), FreedSlots(Surviving(s.leases, t1), t2, b), FreedSlots(s.leases, t2, b);
    assert z == x + y;
    assert x !! y;
  }

  lemma FreedAddrsSplit(s: State<Key>, t1: int, t2: int)
    requires t1 <= t2
    ensures FreedAddrs(s.leases, t2) == FreedAddrs(s.leases, t1) + FreedAddrs(Surviving(s.leases, t1), t2)
  {
    var late := Surviving(s.leases, t1);
    forall a | a in FreedAddrs(s.leases, t2) ensures a in FreedAddrs(s.leases, t1) + FreedAddrs(late, t2) {
      var k :| k in s.leases && Expired(s.leases[k], t2) && a in s.leases[k].ips;
      assert !Expired(s.leases[k], t1) ==> k in late;
    }
  }

  lemma SweepsCompose(subnets: map<Block, set<Addr>>, f1: set<Addr>, f2: set<Addr>)
    ensures SweptSubnets(SweptSubnets(subnets, subnets.Keys, f1), subnets.Keys, f2)
      == SweptSubnets(subnets, subnets.Keys, f1 + f2)
  {
    forall b | b in subnets ensures Without(Without(subnets[b], b, f1), b, f2) == Without(subnets[b], b, f1 + f2) {
    }
  }

  lemma CountsSplit(s: State<Key>, t1: int, t2: int, b: Block)
    requires t1 <= t2
    ensures CountFor(FreedBy(s, t1), b) + CountFor(FreedBy(Purged(s, t1), t2), b) == CountFor(FreedBy(s, t2), b)
  {
    SlotsSplit(s, t1, t2, b);
    assert Purged(s, t1).subnets.Keys == s.subnets.Keys;
  }

  /** An earlier purge followed by a later one does what the later one does alone, and the counts add up. */
  lemma PurgesCompose(s: State<Key>, t1: int, t2: int)
    requires t1 <= t2
    ensures Purged(Purged(s, t1), t2) == Purged(s, t2)
    ensures forall b ::
      CountFor(FreedBy(s, t1), b) + CountFor(FreedBy(Purged(s, t1), t2), b) == CountFor(FreedBy(s, t2), b)
  {
    FreedAddrsSplit(s, t1, t2);
    SweepsCompose(s.subnets, FreedAddrs(s.leases, t1), FreedAddrs(Surviving(s.leases, t1), t2));
    assert Surviving(Surviving(s.leases, t1), t2) == Surviving(s.leases, t2);
    forall b
      ensures CountFor(FreedBy(s, t1), b) + CountFor(FreedBy(Purged(s, t1), t2), b) == CountFor(FreedBy(s, t2), b)
    {
      CountsSplit(s, t1, t2, b);
    }
  }

  /** A purge for an earlier or equal time after a later one changes and frees nothing. */
  lemma EarlierPurgeIsIdle(s: State<Key>, t1: int, t2: int)
    requires t1 <= t2
    ensures Purged(Purged(s, t2), t1) == Purged(s, t2)
    ensures FreedBy(Purged(s, t2), t1) == map[]
  {
    var one := Purged(s, t2);
    assert Surviving(one.leases, t1) == one.leases;
    assert FreedAddrs(one.leases, t1) == {};
    forall b | b in one.subnets ensures Without(one.subnets[b], b, {}) == one.subnets[b] {
    }
    assert Purged(one, t1).subnets == one.subnets;
    forall b ensures FreedSlots(one.leases, t1, b) == {} {
    }
  }

  /** No address is leased twice, within a lease or across leases. */
  ghost predicate LeasesApart<K(!new)>(leases: map<K, Lease>) {
    && (forall k :: k in leases ==> NoDup(leases[k].ips))
    && (forall j, k, a :: j in leases && k in leases && j != k && a in leases[j].ips ==> a !in leases[k].ips)
  }

  /** Every leased address a subnet contains is allocated in it. */
  ghost predicate LeasedIsAllocated<K(!new)>(leases: map<K, Lease>, b: Block, addrs: set<Addr>) {
    forall k, a :: k in leases && a in leases[k].ips && Contains(b, a) ==> a in addrs
  }

  ghost function SlotAddr<K>(leases: map<K, Lease>, s: (K, int)): Addr {
    if s.0 in leases && 0 <= s.1 < |leases[s.0].ips| then leases[s.0].ips[s.1] else Addr(IPv4, 0)
  }

  lemma SlotsAreApart<K(!new)>(leases: map<K, Lease>, t: int, b: Block, x: (K, int), y: (K, int))
    requires LeasesApart(leases) && x in FreedSlots(leases, t, b) && y in FreedSlots(leases, t, b)
    requires SlotAddr(leases, x) == SlotAddr(leases, y)
    ensures x == y
  {
    assert SlotAddr(leases, x) in leases[x.0].ips && SlotAddr(leases, y) in leases[y.0].ips;
  }

  /** Without double leases the freed count is the exact drop of the allocated set. */
  lemma FreedCountIsDrop<K(!new)>(leases: map<K, Lease>, t: int, b: Block, addrs: set<Addr>)
    requires LeasesApart(leases) && LeasedIsAllocated(leases, b, addrs)
    ensures |FreedSlots(leases, t, b)| == |addrs| - |Without(addrs, b, FreedAddrs(leases, t))|
  {
    var slots, kept := FreedSlots(leases, t, b), Without(addrs, b, FreedAddrs(leases, t));
    var gone := addrs - kept;
    var f := (s: (K, int)) => SlotAddr(leases, s);
    forall x, y | x in slots && y in slots && f(x) == f(y) ensures x == y {
      SlotsAreApart(leases, t, b, x, y);
    }
    forall x | x in slots ensures f(x) in gone {
      assert f(x) in leases[x.0].ips && f(x) in FreedAddrs(leases, t);
    }
    forall z | z in gone ensures exists s :: s in slots && f(s) == z {
      var k :| k in leases && Expired(leases[k], t) && z in leases[k].ips;
      var i :| 0 <= i < |leases[k].ips| && leases[k].ips[i] == z;
      assert (k, i) in slots && f((k, i)) == z;
    }
    MatchedCard(slots, gone, f);
  }
}
