/** The file store: database buckets and the process's subnet list, updated in place. */
module BoltStores {
  import opened Util
  import opened Address
  import opened Store
  import opened BoltSpec
  import opened MemoryStores

  class BoltStore {
    var bLeases: map<seq<Byte>, Lease>
    var bSubnets: map<Block, set<Addr>>
    var cache: set<Block>

    ghost function View(): Bolt
      reads this
    {
      Bolt(State(bLeases, bSubnets), cache)
    }

    /** Every subnet the process has registered has its bucket; without it a purge dereferences nil. */
    ghost predicate Valid()
      reads this
    {
      cache <= bSubnets.Keys
    }

    /** Opens a database with these buckets' contents; the subnet list starts empty. */
    constructor (db: State<seq<Byte>>)
      ensures Valid() && View() == Bolt(db, {}) == Reopened(Bolt(db, {}))
    {
      bLeases, bSubnets, cache := db.leases, db.subnets, {};
    }

    /** Every lease once, in the database's order. */
    method Leases() returns (ls: seq<Lease>)
      ensures BoltStep(View(), Op.Leases) == (View(), LeaseList(multiset(ls)))
    {
      ls := [];
      ghost var keys: seq<seq<Byte>> := [];
      var todo := bLeases.Keys;
      while todo != {}
        invariant todo <= bLeases.Keys && Elems(keys) == bLeases.Keys - todo
        invariant NoDup(keys) && |ls| == |keys|
        invariant forall i :: 0 <= i < |keys| ==> keys[i] in bLeases && ls[i] == bLeases[keys[i]]
        decreases todo
      {
        var kb :| kb in todo;
        assert kb !in Elems(keys);
        ghost var was := keys;
        ls, keys := ls + [bLeases[kb]], keys + [kb];
        assert Elems(keys) == Elems(was) + {kb};
        todo := todo - {kb};
      }
      ListingIsBag(bLeases, keys, ls);
    }

    method Lease(key: Key) returns (r: Reply)
      ensures (View(), r) == BoltStep(View(), GetLease(key))
    {
      var kb := KeyBytes(key);
      if kb !in bLeases {
        return OneLease(None);
      }
      r := OneLease(Some(bLeases[kb]));
    }

    method SaveLease(key: Key, l: Lease)
      requires Valid()
      modifies this
      ensures Valid() && View() == BoltStep(old(View()), Op.SaveLease(key, l)).0
    {
      bLeases := bLeases[KeyBytes(key) := l];
    }

    method DeleteLease(key: Key)
      requires Valid()
      modifies this
      ensures Valid() && View() == BoltStep(old(View()), Op.DeleteLease(key)).0
    {
      bLeases := bLeases - {KeyBytes(key)};
    }

    /** The expired keys and their addresses, read before anything is deleted. */
    method FindExpired(t: int) returns (expired: set<seq<Byte>>, freed: seq<Addr>)
      ensures expired == set kb | kb in bLeases && bLeases[kb].start + bLeases[kb].length <= t
      ensures Collected(bLeases, {}, t, freed)
    {
      expired, freed := {}, [];
      var todo := bLeases.Keys;
      assert Visited(bLeases, todo) == map[];
      while todo != {}
        invariant todo <= bLeases.Keys
        invariant expired == set kb | kb in bLeases && kb !in todo && Expired(bLeases[kb], t)
        invariant Collected(bLeases, todo, t, freed)
        decreases todo
      {
        var kb :| kb in todo;
        if !Expired(bLeases[kb], t) {
          VisitCurrent(bLeases, todo, t, kb, freed);
        } else {
          VisitExpired(bLeases, todo, t, kb, freed);
          expired, freed := expired + {kb}, freed + bLeases[kb].ips;
        }
        todo := todo - {kb};
      }
    }

    method SweepCached(freed: seq<Addr>) returns (stats: map<Block, nat>)
      requires Valid()
      modifies this`bSubnets
      ensures Valid() && bSubnets == SweptSubnets(old(bSubnets), cache, Elems(freed))
      ensures stats == Counts(freed, cache)
    {
      stats := map[];
      var todo := cache;
      ghost var rest := bSubnets.Keys - cache;
      while todo != {}
        invariant todo <= cache && bSubnets.Keys == old(bSubnets).Keys
        invariant SweptBut(bSubnets, old(bSubnets), todo + rest, Elems(freed))
        invariant stats == Counts(freed, cache - todo)
        decreases todo
      {
        var b :| b in todo;
        var left, count := Sweep(b, bSubnets[b], freed);
        bSubnets := bSubnets[b := left];
        CountsNext(freed, cache - todo, b);
        assert cache - (todo - {b}) == cache - todo + {b};
        if count > 0 {
          stats := stats[b := count];
        }
        todo := todo - {b};
      }
      assert cache - todo == cache;
    }

    method Purge(t: int) returns (stats: map<Block, nat>)
      requires Valid()
      modifies this
      ensures Valid() && (View(), Freed(stats)) == BoltStep(old(View()), Op.Purge(t))
      ensures forall kb :: kb in bLeases <==> kb in old(bLeases) && old(bLeases)[kb].start + old(bLeases)[kb].length > t
      ensures forall kb :: kb in bLeases ==> bLeases[kb] == old(bLeases)[kb]
    {
      var expired, freed := FindExpired(t);
      bLeases := bLeases - expired;
      stats := SweepCached(freed);
      CollectedCounts(old(bLeases), t, freed, cache);
      assert bLeases == Surviving(old(bLeases), t);
    }

    method Subnets() returns (r: Reply)
      ensures (View(), r) == BoltStep(View(), Op.Subnets)
    {
      r := SubnetList(bSubnets.Keys);
    }

    /** Registering a subnet keeps whatever the database holds for it. */
    method SaveSubnet(b: Block)
      requires Valid()
      modifies this
      ensures Valid() && View() == BoltStep(old(View()), Op.SaveSubnet(b)).0
    {
      cache := cache + {b};
      if b !in bSubnets {
        bSubnets := bSubnets[b := {}];
      }
    }

    method AllocatedIPs(b: Block) returns (r: Reply)
      ensures (View(), r) == BoltStep(View(), Op.AllocatedIPs(b))
    {
      if b !in bSubnets {
        return Failed;
      }
      r := AddrList(bSubnets[b]);
    }

    method AllocateIP(b: Block, a: Addr) returns (r: Reply)
      requires Valid()
      modifies this
      ensures Valid() && (View(), r) == BoltStep(old(View()), Op.AllocateIP(b, a))
    {
      if !Contains(b, a) {
        return Failed;
      }
      if b !in bSubnets {
        return Failed;
      }
      if a in bSubnets[b] {
        return Allocated(false);
      }
      bSubnets := bSubnets[b := bSubnets[b] + {a}];
      r := Allocated(true);
    }

    method FreeIP(b: Block, a: Addr) returns (r: Reply)
      requires Valid()
      modifies this
      ensures Valid() && (View(), r) == BoltStep(old(View()), Op.FreeIP(b, a))
    {
      if !Contains(b, a) {
        return Failed;
      }
      if b !in bSubnets {
        return Failed;
      }
      bSubnets := bSubnets[b := bSubnets[b] - {a}];
      r := Done;
    }
  }
}
