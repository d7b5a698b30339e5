/** The in-memory store: maps updated in place, proved against the store's specification. */
module MemoryStores {
  import opened Util
  import opened Address
  import opened Store

  /** A lease as the memory store shares it with its callers: one object, updated in place by a renewal. */
  class LeaseRecord {
    var ips: seq<Addr>
    var start: int
    var length: int

    constructor (l: Lease)
      ensures Value() == l
    {
      ips, start, length := l.ips, l.start, l.length;
    }

    function Value(): Lease
      reads this
    {
      Lease(ips, start, length)
    }
  }

  function ValuesOf(ls: seq<LeaseRecord>): seq<Lease>
    reads ls
  {
    seq(|ls|, i requires 0 <= i < |ls| reads ls => ls[i].Value())
  }

  /** Among freed addresses, those a subnet contains. */
  function CountIn(freed: seq<Addr>, b: Block): nat {
    if freed == [] then 0 else CountIn(freed[..|freed| - 1], b) + (if Contains(b, freed[|freed| - 1]) then 1 else 0)
  }

  lemma {:induction false} CountInAppend(s: seq<Addr>, t: seq<Addr>, b: Block)
    ensures CountIn(s + t, b) == CountIn(s, b) + CountIn(t, b)
  {
    if t == [] {
      assert s + t == s;
    } else {
      var n := |t| - 1;
      assert (s + t)[..|s + t| - 1] == s + t[..n];
      CountInAppend(s, t[..n], b);
    }
  }

  /** The freed slots of one lease. */
  ghost function SlotsOfKey<K>(leases: map<K, Lease>, b: Block, k: K, n: nat): set<(K, int)>
    requires k in leases && n <= |leases[k].ips|
  {
    set i | 0 <= i < n && Contains(b, leases[k].ips[i]) :: (k, i)
  }

  lemma {:induction false} SlotsOfKeyCount<K>(leases: map<K, Lease>, b: Block, k: K, n: nat)
    requires k in leases && n <= |leases[k].ips|
    ensures |SlotsOfKey(leases, b, k, n)| == CountIn(leases[k].ips[..n], b)
  {
    if n == 0 {
      assert SlotsOfKey(leases, b, k, 0) == {};
    } else {
      SlotsOfKeyCount(leases, b, k, n - 1);
      assert leases[k].ips[..n][..n - 1] == leases[k].ips[..n - 1];
      var before, after := SlotsOfKey(leases, b, k, n - 1), SlotsOfKey(leases, b, k, n);
      if Contains(b, leases[k].ips[n - 1]) {
        assert after == before + {(k, n - 1)};
      } else {
        assert after == before;
      }
    }
  }

  /** The leases a purge has visited so far. */
  ghost function Visited<K>(leases: map<K, Lease>, todo: set<K>): map<K, Lease> {
    leases - todo
  }

  ghost predicate Collected<K(!new)>(leases: map<K, Lease>, todo: set<K>, t: int, freed: seq<Addr>) {
    && (forall b :: CountIn(freed, b) == |FreedSlots(Visited(leases, todo), t, b)|)
    && Elems(freed) == FreedAddrs(Visited(leases, todo), t)
  }

  lemma VisitSlots<K>(leases: map<K, Lease>, todo: set<K>, t: int, k: K, b: Block)
    requires k in leases && k in todo && Expired(leases[k], t)
    ensures |FreedSlots(Visited(leases, todo - {k}), t, b)|
      == |FreedSlots(Visited(leases, todo), t, b)| + CountIn(leases[k].ips, b)
  {
    var n := |leases[k].ips|;
    var more, old' := FreedSlots(Visited(leases, todo - {k}), t, b), FreedSlots(Visited(leases, todo), t, b);
    var own := SlotsOfKey(leases, b, k, n);
    forall z ensures z in more <==> z in old' || z in own {
      if z in own {
        assert z == (k, z.1) && 0 <= z.1 < n;
      }
    }
    assert more == old' + own && old' !! own;
    SlotsOfKeyCount(leases, b, k, n);
    assert leases[k].ips[..n] == leases[k].ips;
  }

  lemma VisitAddrs<K(!new)>(leases: map<K, Lease>, todo: set<K>, t: int, k: K)
    requires k in leases && k in todo && Expired(leases[k], t)
    ensures FreedAddrs(Visited(leases, todo - {k}), t) == FreedAddrs(Visited(leases, todo), t) + Elems(leases[k].ips)
  {
    var was, now := Visited(leases, todo), Visited(leases, todo - {k});
    forall a ensures a in FreedAddrs(now, t) <==> a in FreedAddrs(was, t) || a in leases[k].ips {
      if a in FreedAddrs(was, t) {
        var j :| j in was && Expired(was[j], t) && a in was[j].ips;
        assert j in now;
      }
      if a in leases[k].ips {
        assert k in now;
      }
      if a in FreedAddrs(now, t) && a !in leases[k].ips {
        var j :| j in now && Expired(now[j], t) && a in now[j].ips;
        assert j in was;
      }
    }
  }

  lemma VisitExpired<K(!new)>(leases: map<K, Lease>, todo: set<K>, t: int, k: K, freed: seq<Addr>)
    requires Collected(leases, todo, t, freed) && k in leases && k in todo && Expired(leases[k], t)
    ensures Collected(leases, todo - {k}, t, freed + leases[k].ips)
  {
    forall b ensures CountIn(freed + leases[k].ips, b) == |FreedSlots(Visited(leases, todo - {k}), t, b)| {
      CountInAppend(freed, leases[k].ips, b);
      VisitSlots(leases, todo, t, k, b);
    }
    VisitAddrs(leases, todo, t, k);
  }

  lemma VisitCurrent<K(!new)>(leases: map<K, Lease>, todo: set<K>, t: int, k: K, freed: seq<Addr>)
    requires Collected(leases, todo, t, freed) && k in leases && k in todo && !Expired(leases[k], t)
    ensures Collected(leases, todo - {k}, t, freed)
  {
    var was, now := Visited(leases, todo), Visited(leases, todo - {k});
    assert forall j :: j in now && j != k <==> j in was;
    forall b ensures FreedSlots(now, t, b) == FreedSlots(was, t, b) {
    }
    forall a ensures a in FreedAddrs(now, t) <==> a in FreedAddrs(was, t) {
      if a in FreedAddrs(was, t) {
        var j :| j in was && Expired(was[j], t) && a in was[j].ips;
        assert j in now;
      }
      if a in FreedAddrs(now, t) {
        var j :| j in now && Expired(now[j], t) && a in now[j].ips;
        assert j in was;
      }
    }
  }

  ghost function Counts(freed: seq<Addr>, subnets: set<Block>): map<Block, nat> {
    map b | b in subnets && CountIn(freed, b) > 0 :: CountIn(freed, b)
  }

  lemma CollectedCounts<K(!new)>(leases: map<K, Lease>, t: int, freed: seq<Addr>, subnets: set<Block>)
    requires Collected(leases, {}, t, freed)
    ensures Counts(freed, subnets) == FreedIPs(leases, t, subnets) && Elems(freed) == FreedAddrs(leases, t)
  {
    assert Visited(leases, {}) == leases;
  }

  /** Frees within one subnet: each contained address is counted and deleted. */
  method Sweep(b: Block, addrs: set<Addr>, freed: seq<Addr>) returns (kept: set<Addr>, count: nat)
    ensures kept == Without(addrs, b, Elems(freed))
    ensures count == CountIn(freed, b)
  {
    kept, count := addrs, 0;
    for i := 0 to |freed|
      invariant kept == Without(addrs, b, Elems(freed[..i]))
      invariant count == CountIn(freed[..i], b)
    {
      assert freed[..i + 1][..i] == freed[..i];
      assert Elems(freed[..i + 1]) == Elems(freed[..i]) + {freed[i]};
      if Contains(b, freed[i]) {
        count := count + 1;
        kept := kept - {freed[i]};
      }
    }
    assert freed[..|freed|] == freed;
  }

  ghost predicate SweptBut(now: map<Block, set<Addr>>, was: map<Block, set<Addr>>, todo: set<Block>, freed: set<Addr>) {
    && now.Keys == was.Keys
    && forall b :: b in was ==> now[b] == if b in todo then was[b] else Without(was[b], b, freed)
  }

  lemma CountsNext(freed: seq<Addr>, done: set<Block>, b: Block)
    ensures Counts(freed, done + {b})
      == if CountIn(freed, b) > 0 then Counts(freed, done)[b := CountIn(freed, b)] else Counts(freed, done) - {b}
  {
  }

  lemma BagCons<K>(leases: map<K, Lease>, k: K, ls: seq<Lease>)
    requires ls != [] && k in leases && ls[0] == leases[k] && multiset(ls[1..]) == LeaseBag(leases - {k})
    ensures multiset(ls) == LeaseBag(leases)
  {
    LeaseBagTakes(leases, k);
    assert ls == [ls[0]] + ls[1..];
  }

  /** A list of the leases by some order of their keys is the specification's bag of leases. */
  lemma {:induction false} ListingIsBag<K>(leases: map<K, Lease>, keys: seq<K>, ls: seq<Lease>)
    requires NoDup(keys) && Elems(keys) == leases.Keys && |ls| == |keys|
    requires forall i :: 0 <= i < |keys| ==> keys[i] in leases && ls[i] == leases[keys[i]]
    ensures multiset(ls) == LeaseBag(leases)
    decreases |keys|
  {
    if keys == [] {
      assert leases.Keys == {};
      assert leases == map[];
    } else {
      var k, rest := keys[0], leases - {keys[0]};
      NoDupTail(keys);
      assert rest.Keys == Elems(keys[1..]);
      forall i | 0 <= i < |keys[1..]| ensures keys[1..][i] in rest && ls[1..][i] == rest[keys[1..][i]] {
        assert keys[1..][i] == keys[i + 1] && ls[1..][i] == ls[i + 1];
      }
      ListingIsBag(rest, keys[1..], ls[1..]);
      BagCons(leases, k, ls);
    }
  }

  class MemoryStore {
    var leases: map<Key, LeaseRecord>
    var subnets: map<Block, set<Addr>>

    /** Different keys never share a lease object. */
    ghost predicate Valid()
      reads this
    {
      forall j, k :: j in leases && k in leases && j != k ==> leases[j] != leases[k]
    }

    ghost function View(): State<Key>
      reads this, leases.Values
    {
      State(map k | k in leases :: leases[k].Value(), subnets)
    }

    constructor ()
      ensures Valid() && View() == EMPTY
    {
      leases, subnets := map[], map[];
    }

    /** Every lease once, in whatever order the map yields the keys. */
    method Leases() returns (ls: seq<LeaseRecord>)
      ensures forall l :: l in ls ==> l in leases.Values
      ensures MemoryStep(View(), Op.Leases) == (View(), LeaseList(multiset(ValuesOf(ls))))
    {
      ls := [];
      ghost var keys: seq<Key> := [];
      var todo := leases.Keys;
      while todo != {}
        invariant todo <= leases.Keys && Elems(keys) == leases.Keys - todo
        invariant NoDup(keys) && |ls| == |keys|
        invariant forall i :: 0 <= i < |keys| ==> keys[i] in leases && ls[i] == leases[keys[i]]
        decreases todo
      {
        var k :| k in todo;
        assert k !in Elems(keys);
        ghost var was := keys;
        ls, keys := ls + [leases[k]], keys + [k];
        assert Elems(keys) == Elems(was) + {k};
        todo := todo - {k};
      }
      ListingIsBag(View().leases, keys, ValuesOf(ls));
    }

    method Lease(key: Key) returns (l: LeaseRecord?)
      ensures l == if key in leases then leases[key] else null
      ensures MemoryStep(View(), GetLease(key)) == (View(), OneLease(if l == null then None else Some(l.Value())))
    {
      l := if key in leases then leases[key] else null;
    }

    method SaveLease(key: Key, l: LeaseRecord)
      requires Valid() && forall k :: k in leases && k != key ==> leases[k] != l
      modifies this`leases
      ensures Valid() && leases == old(leases)[key := l]
      ensures View() == MemoryStep(old(View()), Op.SaveLease(key, l.Value())).0
    {
      leases := leases[key := l];
    }

    method DeleteLease(key: Key)
      requires Valid()
      modifies this`leases
      ensures Valid() && leases == old(leases) - {key}
      ensures View() == MemoryStep(old(View()), Op.DeleteLease(key)).0
    {
      leases := leases - {key};
    }

    /** Drops the expired leases and collects their addresses, in whatever order the map yields them. */
    method DropExpired(t: int) returns (freed: seq<Addr>)
      requires Valid()
      modifies this`leases
      ensures Valid() && (forall k :: k in leases ==> k in old(leases) && leases[k] == old(leases)[k])
      ensures forall k :: k in leases <==> k in old(leases) && old(leases[k].start + leases[k].length) > t
      ensures View().leases == Surviving(old(View()).leases, t)
      ensures Collected(old(View()).leases, {}, t, freed)
    {
      ghost var all := View().leases;
      freed := [];
      var todo := leases.Keys;
      assert Visited(all, todo) == map[];
      while todo != {}
        invariant todo <= old(leases).Keys
        invariant forall k :: k in leases ==> k in old(leases) && leases[k] == old(leases)[k]
        invariant forall k :: k in old(leases) ==> (k in leases <==> k in todo || !Expired(all[k], t))
        invariant Collected(all, todo, t, freed)
        decreases todo
      {
        var k :| k in todo;
        if leases[k].start + leases[k].length > t {
          VisitCurrent(all, todo, t, k, freed);
        } else {
          VisitExpired(all, todo, t, k, freed);
          freed := freed + leases[k].ips;
          leases := leases - {k};
        }
        todo := todo - {k};
      }
    }

    /** Sweeps every registered subnet, and counts what each of them contained. */
    method SweepAll(freed: seq<Addr>) returns (stats: map<Block, nat>)
      modifies this`subnets
      ensures subnets == SweptSubnets(old(subnets), old(subnets).Keys, Elems(freed))
      ensures stats == Counts(freed, old(subnets).Keys)
    {
      stats := map[];
      var todo := subnets.Keys;
      while todo != {}
        invariant todo <= old(subnets).Keys
        invariant SweptBut(subnets, old(subnets), todo, Elems(freed))
        invariant stats == Counts(freed, old(subnets).Keys - todo)
        decreases todo
      {
        var b :| b in todo;
        var left, count := Sweep(b, subnets[b], freed);
        subnets := subnets[b := left];
        CountsNext(freed, old(subnets).Keys - todo, b);
        assert old(subnets).Keys - (todo - {b}) == old(subnets).Keys - todo + {b};
        if count > 0 {
          stats := stats[b := count];
        }
        todo := todo - {b};
      }
      assert old(subnets).Keys - todo == old(subnets).Keys;
    }

    method Purge(t: int) returns (stats: map<Block, nat>)
      requires Valid()
      modifies this
      ensures Valid() && (forall k :: k in leases ==> k in old(leases) && leases[k] == old(leases)[k])
      ensures forall k :: k in leases <==> k in old(leases) && old(leases[k].start + leases[k].length) > t
      ensures (View(), Freed(stats)) == MemoryStep(old(View()), Op.Purge(t))
    {
      ghost var before := View();
      var freed := DropExpired(t);
      ghost var kept := View().leases;
      stats := SweepAll(freed);
      assert View().leases == kept;
      CollectedCounts(before.leases, t, freed, before.subnets.Keys);
    }

    method Subnets() returns (r: Reply)
      ensures (View(), r) == MemoryStep(View(), Op.Subnets)
    {
      r := SubnetList(subnets.Keys);
    }

    /** Registering a subnet starts it with nothing allocated, even if it was registered before. */
    method SaveSubnet(b: Block)
      modifies this`subnets
      ensures subnets == old(subnets)[b := {}]
      ensures View() == MemoryStep(old(View()), Op.SaveSubnet(b)).0
    {
      subnets := subnets[b := {}];
    }

    method AllocatedIPs(b: Block) returns (r: Reply)
      ensures (View(), r) == MemoryStep(View(), Op.AllocatedIPs(b))
    {
      if b !in subnets {
        return Failed;
      }
      r := AddrList(subnets[b]);
    }

    method AllocateIP(b: Block, a: Addr) returns (r: Reply)
      modifies this`subnets
      ensures (View(), r) == MemoryStep(old(View()), Op.AllocateIP(b, a))
    {
      if !Contains(b, a) {
        return Failed;
      }
      if b !in subnets {
        return Failed;
      }
      if a in subnets[b] {
        return Allocated(false);
      }
      subnets := subnets[b := subnets[b] + {a}];
      r := Allocated(true);
      assert View().leases == old(View().leases);
    }

    method FreeIP(b: Block, a: Addr) returns (r: Reply)
      modifies this`subnets
      ensures (View(), r) == MemoryStep(old(View()), Op.FreeIP(b, a))
    {
      if !Contains(b, a) {
        return Failed;
      }
      if b !in subnets {
        return Failed;
      }
      subnets := subnets[b := subnets[b] - {a}];
      r := Done;
      assert View().leases == old(View().leases);
    }
  }
}
