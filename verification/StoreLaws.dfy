/** What the store interface promises its callers, of both stores, by what can be read back. */
module StoreLaws {
  import opened Util
  import opened Address
  import opened Store
  import opened BoltSpec

  /** A purge ends exactly the leases whose start and length add up to at most t, and touches no other. */
  lemma PurgeEnds<K(!new)>(leases: map<K, Lease>, t: int)
    ensures var left := Surviving(leases, t);
      && (forall k :: k in left <==> k in leases && leases[k].start + leases[k].length > t)
      && (forall k :: k in left ==> left[k] == leases[k])
  {
  }

  /** It frees their addresses in each subnet it sweeps that contains them, and nothing else anywhere. */
  lemma PurgeFrees<K(!new)>(leases: map<K, Lease>, subnets: map<Block, set<Addr>>, swept: set<Block>, t: int)
    ensures var ended := set k | k in leases && leases[k].start + leases[k].length <= t;
      var z := SweptSubnets(subnets, swept, FreedAddrs(leases, t));
      && z.Keys == subnets.Keys
      && forall b, a :: b in subnets && a in subnets[b] ==>
           (a !in z[b] <==> b in swept && Contains(b, a) && exists k :: k in ended && a in leases[k].ips)
    ensures var z := SweptSubnets(subnets, swept, FreedAddrs(leases, t));
      forall b :: b in subnets ==> z[b] <= subnets[b]
  {
  }

  /** The places in the address lists of ended leases that hold an address of the subnet. */
  ghost function Places<K(!new)>(leases: map<K, Lease>, t: int, b: Block): set<(K, int)> {
    set k, i | k in leases && leases[k].start + leases[k].length <= t
      && 0 <= i < |leases[k].ips| && Contains(b, leases[k].ips[i]) :: (k, i)
  }

  /** It counts these places, for each subnet that it sweeps and that has any. */
  lemma PurgeCounts<K(!new)>(leases: map<K, Lease>, swept: set<Block>, t: int, b: Block)
    ensures var counts := FreedIPs(leases, t, swept);
      && (b in counts <==> b in swept && Places(leases, t, b) != {})
      && (b in counts ==> counts[b] == |Places(leases, t, b)|)
  {
    assert Places(leases, t, b) == FreedSlots(leases, t, b);
  }

  /** So much for a purge of the memory store, which sweeps every registered subnet. */
  lemma MemoryPurge(s: State<Key>, t: int)
    ensures var (z, r) := MemoryStep(s, Purge(t));
      && (forall k :: k in z.leases <==> k in s.leases && s.leases[k].start + s.leases[k].length > t)
      && (forall k :: k in z.leases ==> z.leases[k] == s.leases[k])
      && z.subnets.Keys == s.subnets.Keys
      && (forall b, a :: b in s.subnets && a in s.subnets[b] ==>
            (a !in z.subnets[b] <==> Contains(b, a) && exists k ::
              k in s.leases && s.leases[k].start + s.leases[k].length <= t && a in s.leases[k].ips))
      && (forall b :: b in s.subnets ==> z.subnets[b] <= s.subnets[b])
      && r.Freed?
      && (forall b :: b in r.ips <==> b in s.subnets && Places(s.leases, t, b) != {})
      && (forall b :: b in r.ips ==> r.ips[b] == |Places(s.leases, t, b)|)
  {
    PurgeEnds(s.leases, t);
    PurgeFrees(s.leases, s.subnets, s.subnets.Keys, t);
    var counts := FreedIPs(s.leases, t, s.subnets.Keys);
    forall b
      ensures b in counts <==> b in s.subnets.Keys && Places(s.leases, t, b) != {}
      ensures b in counts ==> counts[b] == |Places(s.leases, t, b)|
    {
      PurgeCounts(s.leases, s.subnets.Keys, t, b);
    }
  }

  /** The file store sweeps only the subnets that its process has registered. */
  lemma FilePurge(s: Bolt, t: int)
    ensures var (z, r) := BoltStep(s, Purge(t));
      && (forall kb :: kb in z.db.leases <==>
            kb in s.db.leases && s.db.leases[kb].start + s.db.leases[kb].length > t)
      && (forall kb :: kb in z.db.leases ==> z.db.leases[kb] == s.db.leases[kb])
      && z.db.subnets.Keys == s.db.subnets.Keys && z.cache == s.cache
      && (forall b, a :: b in s.db.subnets && a in s.db.subnets[b] ==>
            (a !in z.db.subnets[b] <==> b in s.cache && Contains(b, a) && exists kb ::
              kb in s.db.leases && s.db.leases[kb].start + s.db.leases[kb].length <= t && a in s.db.leases[kb].ips))
      && (forall b :: b in s.db.subnets ==> z.db.subnets[b] <= s.db.subnets[b])
      && r.Freed?
      && (forall b :: b in r.ips <==> b in s.cache && Places(s.db.leases, t, b) != {})
      && (forall b :: b in r.ips ==> r.ips[b] == |Places(s.db.leases, t, b)|)
  {
    PurgeEnds(s.db.leases, t);
    PurgeFrees(s.db.leases, s.db.subnets, s.cache, t);
    var counts := FreedIPs(s.db.leases, t, s.cache);
    forall b
      ensures b in counts <==> b in s.cache && Places(s.db.leases, t, b) != {}
      ensures b in counts ==> counts[b] == |Places(s.db.leases, t, b)|
    {
      PurgeCounts(s.db.leases, s.cache, t, b);
    }
  }

  /** A read leaves the store alone, so these are what a client sees of it. */
  ghost function LeaseAt(s: State<Key>, k: Key): Reply {
    MemoryStep(s, GetLease(k)).1
  }

  ghost function AddressesOf(s: State<Key>, b: Block): Reply {
    MemoryStep(s, AllocatedIPs(b)).1
  }

  ghost function FileLeaseAt(s: Bolt, k: Key): Reply {
    BoltStep(s, GetLease(k)).1
  }

  ghost function FileAddressesOf(s: Bolt, b: Block): Reply {
    BoltStep(s, AllocatedIPs(b)).1
  }

  /** A saved lease is read back under its own key only, and a deleted one is gone. */
  lemma LeasesReadBack(s: State<Key>, k: Key, l: Lease, j: Key)
    ensures LeaseAt(MemoryStep(s, SaveLease(k, l)).0, j) == if j == k then OneLease(Some(l)) else LeaseAt(s, j)
    ensures LeaseAt(MemoryStep(s, DeleteLease(k)).0, j) == if j == k then OneLease(None) else LeaseAt(s, j)
    ensures MemoryStep(MemoryStep(s, DeleteLease(k)).0, DeleteLease(k)) == (MemoryStep(s, DeleteLease(k)).0, Done)
  {
    assert s.leases - {k} - {k} == s.leases - {k};
  }

  /** On the file this takes that different keys have different bytes. */
  lemma FileLeasesReadBack(s: Bolt, k: Key, l: Lease, j: Key)
    ensures FileLeaseAt(BoltStep(s, SaveLease(k, l)).0, j) == if j == k then OneLease(Some(l)) else FileLeaseAt(s, j)
    ensures FileLeaseAt(BoltStep(s, DeleteLease(k)).0, j) == if j == k then OneLease(None) else FileLeaseAt(s, j)
    ensures BoltStep(BoltStep(s, DeleteLease(k)).0, DeleteLease(k)) == (BoltStep(s, DeleteLease(k)).0, Done)
  {
    KeyBytesRoundTrip(k);
    KeyBytesRoundTrip(j);
    assert s.db.leases - {KeyBytes(k)} - {KeyBytes(k)} == s.db.leases - {KeyBytes(k)};
  }

  /** An address is allocated once: with an error if it cannot be, with false if it is, and else read back at once. */
  lemma AllocationReadsBack(s: State<Key>, b: Block, a: Addr, c: Block)
    ensures var (z, r) := MemoryStep(s, AllocateIP(b, a));
      && (r == Failed <==> !Contains(b, a) || AddressesOf(s, b) == Failed)
      && (r == Failed || r == Allocated(a !in AddressesOf(s, b).addrs))
      && (r != Allocated(true) ==> z == s)
      && (r == Allocated(true) ==>
            && AddressesOf(z, c) == (if c == b then AddrList(AddressesOf(s, b).addrs + {a}) else AddressesOf(s, c))
            && MemoryStep(z, AllocateIP(b, a)) == (z, Allocated(false)))
      && z.leases == s.leases
  {
  }

  lemma FileAllocationReadsBack(s: Bolt, b: Block, a: Addr, c: Block)
    ensures var (z, r) := BoltStep(s, AllocateIP(b, a));
      && (r == Failed <==> !Contains(b, a) || FileAddressesOf(s, b) == Failed)
      && (r == Failed || r == Allocated(a !in FileAddressesOf(s, b).addrs))
      && (r != Allocated(true) ==> z == s)
      && (r == Allocated(true) ==>
            && FileAddressesOf(z, c)
              == (if c == b then AddrList(FileAddressesOf(s, b).addrs + {a}) else FileAddressesOf(s, c))
            && BoltStep(z, AllocateIP(b, a)) == (z, Allocated(false)))
      && z.db.leases == s.db.leases && z.cache == s.cache
  {
  }

  /** A freed address is no longer read back, and can be allocated again; freeing twice is freeing once. */
  lemma FreeReadsBack(s: State<Key>, b: Block, a: Addr, c: Block)
    ensures var (z, r) := MemoryStep(s, FreeIP(b, a));
      && (r == Failed <==> !Contains(b, a) || AddressesOf(s, b) == Failed)
      && (r == Failed ==> z == s)
      && (r != Failed ==>
            && r == Done && MemoryStep(z, FreeIP(b, a)) == (z, Done)
            && AddressesOf(z, c) == (if c == b then AddrList(AddressesOf(s, b).addrs - {a}) else AddressesOf(s, c))
            && MemoryStep(z, AllocateIP(b, a)).1 == Allocated(true))
      && z.leases == s.leases
  {
    if b in s.subnets {
      var z := s.subnets[b := s.subnets[b] - {a}];
      assert s.subnets[b] - {a} - {a} == s.subnets[b] - {a};
      assert z[b := z[b] - {a}] == z;
    }
  }

  lemma FileFreeReadsBack(s: Bolt, b: Block, a: Addr, c: Block)
    ensures var (z, r) := BoltStep(s, FreeIP(b, a));
      && (r == Failed <==> !Contains(b, a) || FileAddressesOf(s, b) == Failed)
      && (r == Failed ==> z == s)
      && (r != Failed ==>
            && r == Done && BoltStep(z, FreeIP(b, a)) == (z, Done)
            && FileAddressesOf(z, c)
              == (if c == b then AddrList(FileAddressesOf(s, b).addrs - {a}) else FileAddressesOf(s, c))
            && BoltStep(z, AllocateIP(b, a)).1 == Allocated(true))
      && z.db.leases == s.db.leases && z.cache == s.cache
  {
    var subnets := s.db.subnets;
    if b in subnets {
      var z := subnets[b := subnets[b] - {a}];
      assert subnets[b] - {a} - {a} == subnets[b] - {a};
      assert z[b := z[b] - {a}] == z;
    }
  }

  /** A registered subnet is listed, and known from then on: empty in memory, with what it had on the file. */
  lemma RegistrationReadsBack(s: State<Key>, b: Block, c: Block)
    ensures var z := MemoryStep(s, SaveSubnet(b)).0;
      && (c in MemoryStep(z, Subnets).1.subnets <==> c == b || c in MemoryStep(s, Subnets).1.subnets)
      && (c in MemoryStep(s, Subnets).1.subnets <==> AddressesOf(s, c) != Failed)
      && AddressesOf(z, c) == (if c == b then AddrList({}) else AddressesOf(s, c))
      && z.leases == s.leases
  {
  }

  lemma FileRegistrationReadsBack(s: Bolt, b: Block, c: Block)
    ensures var z := BoltStep(s, SaveSubnet(b)).0;
      && (c in BoltStep(z, Subnets).1.subnets <==> c == b || c in BoltStep(s, Subnets).1.subnets)
      && (c in BoltStep(s, Subnets).1.subnets <==> FileAddressesOf(s, c) != Failed)
      && FileAddressesOf(z, c)
        == (if c == b && FileAddressesOf(s, b) == Failed then AddrList({}) else FileAddressesOf(s, c))
      && z.db.leases == s.db.leases
  {
  }
}
