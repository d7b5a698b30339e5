/** What both stores promise: leases by key, and the allocated addresses of every registered subnet. */
module Store {
  import opened Util
  import opened Address

  /** Client keys are 64-bit hashes. */
  type Key = k: nat | k < 0x1_0000_0000_0000_0000

  /** Times and durations are whole nanoseconds. */
  datatype Lease = Lease(ips: seq<Addr>, start: int, length: int)

  function Expiry(l: Lease): int {
    l.start + l.length
  }

  predicate Expired(l: Lease, t: int) {
    Expiry(l) <= t
  }

  /** The current time cut to whole seconds, in nanoseconds. */
  function Seconds(now: int): (s: int)
    ensures s <= now < s + 1_000_000_000
    ensures s % 1_000_000_000 == 0
  {
    now / 1_000_000_000 * 1_000_000_000
  }

  lemma SecondsMonotone(t: int, u: int)
    requires t <= u
    ensures Seconds(t) <= Seconds(u)
  {
  }

  /** One (key, position) pair for each address of an expired lease that subnet b contains. */
  ghost function FreedSlots<K>(leases: map<K, Lease>, t: int, b: Block): set<(K, int)> {
    set k, i |
      k in leases && Expired(leases[k], t) && 0 <= i < |leases[k].ips| && Contains(b, leases[k].ips[i]) :: (k, i)
  }

  ghost function FreedAddrs<K>(leases: map<K, Lease>, t: int): set<Addr> {
    set k, a | k in leases && Expired(leases[k], t) && a in leases[k].ips :: a
  }

  ghost function FreedIPs<K>(leases: map<K, Lease>, t: int, subnets: set<Block>): map<Block, nat> {
    map b | b in subnets && |FreedSlots(leases, t, b)| > 0 :: |FreedSlots(leases, t, b)|
  }

  function CountFor(ips: map<Block, nat>, b: Block): nat {
    if b in ips then ips[b] else 0
  }

  function Surviving<K>(leases: map<K, Lease>, t: int): map<K, Lease> {
    map k | k in leases && !Expired(leases[k], t) :: leases[k]
  }

  function Without(addrs: set<Addr>, b: Block, freed: set<Addr>): set<Addr> {
    set a | a in addrs && !(a in freed && Contains(b, a))
  }

  function SweptSubnets(subnets: map<Block, set<Addr>>, swept: set<Block>, freed: set<Addr>): map<Block, set<Addr>> {
    map b | b in subnets :: if b in swept then Without(subnets[b], b, freed) else subnets[b]
  }

  ghost function Pick<K>(leases: map<K, Lease>): (k: K)
    requires leases != map[]
    ensures k in leases
  {
    var k :| k in leases;
    k
  }

  /** All leases, in no particular order. */
  ghost function LeaseBag<K>(leases: map<K, Lease>): multiset<Lease>
    decreases |leases|
  {
    if leases == map[] then multiset{}
    else
      var k := Pick(leases);
      multiset{leases[k]} + LeaseBag(leases - {k})
  }

  lemma RemovalsCommute<K>(leases: map<K, Lease>, j: K, k: K)
    ensures leases - {j} - {k} == leases - {k} - {j}
  {
  }

  lemma {:induction false} LeaseBagTakes<K>(leases: map<K, Lease>, k: K)
    requires k in leases
    ensures LeaseBag(leases) == multiset{leases[k]} + LeaseBag(leases - {k})
    decreases |leases|
  {
    var j := Pick(leases);
    if j != k {
      var a, b := leases - {j}, leases - {k};
      assert |a| < |leases| && |b| < |leases|;
      LeaseBagTakes(a, k);
      LeaseBagTakes(b, j);
      RemovalsCommute(leases, j, k);
    }
  }

  ghost predicate Injective<K(!new), L(!new)>(f: K -> L) {
    forall j, k :: f(j) == f(k) ==> j == k
  }

  /** The same leases under other keys. */
  ghost function Rekeyed<K(!new), L(!new)>(leases: map<K, Lease>, f: K -> L): (r: map<L, Lease>)
    requires Injective(f)
    ensures forall k :: k in leases ==> f(k) in r && r[f(k)] == leases[k]
    ensures forall l :: l in r ==> exists k :: k in leases && f(k) == l
  {
    map k | k in leases :: f(k) := leases[k]
  }

  lemma RekeyedMinus<K(!new), L(!new)>(leases: map<K, Lease>, f: K -> L, k: K)
    requires Injective(f)
    ensures Rekeyed(leases - {k}, f) == Rekeyed(leases, f) - {f(k)}
  {
    var a, b := Rekeyed(leases - {k}, f), Rekeyed(leases, f) - {f(k)};
    forall l ensures l in a <==> l in b {
      if l in b {
        var j :| j in leases && f(j) == l;
        assert j in leases - {k};
      }
    }
  }

  lemma RekeyedPlus<K(!new), L(!new)>(leases: map<K, Lease>, f: K -> L, k: K, lease: Lease)
    requires Injective(f)
    ensures Rekeyed(leases[k := lease], f) == Rekeyed(leases, f)[f(k) := lease]
  {
    var a, b := Rekeyed(leases[k := lease], f), Rekeyed(leases, f)[f(k) := lease];
    forall l ensures l in a <==> l in b {
      if l in b && l != f(k) {
        var j :| j in leases && f(j) == l;
        assert j in leases[k := lease];
      }
    }
  }

  lemma {:induction false} RekeyedBag<K(!new), L(!new)>(leases: map<K, Lease>, f: K -> L)
    requires Injective(f)
    ensures LeaseBag(Rekeyed(leases, f)) == LeaseBag(leases)
    decreases |leases|
  {
    if leases == map[] {
      assert Rekeyed(leases, f) == map[];
    } else {
      var k := Pick(leases);
      RekeyedBag(leases - {k}, f);
      RekeyedMinus(leases, f, k);
      LeaseBagTakes(Rekeyed(leases, f), f(k));
    }
  }

  lemma RekeyedSurviving<K(!new), L(!new)>(leases: map<K, Lease>, f: K -> L, t: int)
    requires Injective(f)
    ensures Surviving(Rekeyed(leases, f), t) == Rekeyed(Surviving(leases, t), f)
  {
    var a, b := Surviving(Rekeyed(leases, f), t), Rekeyed(Surviving(leases, t), f);
    forall l ensures l in a <==> l in b {
      if l in a {
        var k :| k in leases && f(k) == l;
        assert k in Surviving(leases, t);
      }
    }
  }

  lemma RekeyedFreed<K(!new), L(!new)>(leases: map<K, Lease>, f: K -> L, t: int)
    requires Injective(f)
    ensures FreedAddrs(Rekeyed(leases, f), t) == FreedAddrs(leases, t)
  {
    var r := Rekeyed(leases, f);
    forall a ensures a in FreedAddrs(r, t) <==> a in FreedAddrs(leases, t) {
      if a in FreedAddrs(leases, t) {
        var k :| k in leases && Expired(leases[k], t) && a in leases[k].ips;
        assert f(k) in r;
      }
    }
  }

  lemma RekeyedSlots<K(!new), L(!new)>(leases: map<K, Lease>, f: K -> L, t: int, b: Block)
    requires Injective(f)
    ensures |FreedSlots(Rekeyed(leases, f), t, b)| == |FreedSlots(leases, t, b)|
  {
    var g := (s: (K, int)) => (f(s.0), s.1);
    var from, to := FreedSlots(leases, t, b), FreedSlots(Rekeyed(leases, f), t, b);
    forall z | z in to ensures exists s :: s in from && g(s) == z {
      var k :| k in leases && f(k) == z.0;
      assert (k, z.1) in from && g((k, z.1)) == z;
    }
    MatchedCard(from, to, g);
  }

  lemma RekeyedFreedIPs<K(!new), L(!new)>(leases: map<K, Lease>, f: K -> L, t: int, subnets: set<Block>)
    requires Injective(f)
    ensures FreedIPs(Rekeyed(leases, f), t, subnets) == FreedIPs(leases, t, subnets)
  {
    forall b ensures |FreedSlots(Rekeyed(leases, f), t, b)| == |FreedSlots(leases, t, b)| {
      RekeyedSlots(leases, f, t, b);
    }
  }

  datatype Op =
    | Leases
    | GetLease(key: Key)
    | SaveLease(key: Key, lease: Lease)
    | DeleteLease(key: Key)
    | Purge(t: int)
    | Subnets
    | SaveSubnet(subnet: Block)
    | AllocatedIPs(subnet: Block)
    | AllocateIP(subnet: Block, ip: Addr)
    | FreeIP(subnet: Block, ip: Addr)

  datatype Reply =
    | Done
    | Failed
    | LeaseList(leases: multiset<Lease>)
    | OneLease(lease: Option<Lease>)
    | Freed(ips: map<Block, nat>)
    | SubnetList(subnets: set<Block>)
    | AddrList(addrs: set<Addr>)
    | Allocated(ok: bool)

  datatype State<K> = State(leases: map<K, Lease>, subnets: map<Block, set<Addr>>)

  const EMPTY: State<Key> := State(map[], map[])

  /** One operation of the memory store. */
  ghost function MemoryStep(s: State<Key>, op: Op): (State<Key>, Reply) {
    match op
    case Leases => (s, LeaseList(LeaseBag(s.leases)))
    case GetLease(k) => (s, OneLease(if k in s.leases then Some(s.leases[k]) else None))
    case SaveLease(k, l) => (s.(leases := s.leases[k := l]), Done)
    case DeleteLease(k) => (s.(leases := s.leases - {k}), Done)
    case Purge(t) =>
      (State(Surviving(s.leases, t), SweptSubnets(s.subnets, s.subnets.Keys, FreedAddrs(s.leases, t))),
       Freed(FreedIPs(s.leases, t, s.subnets.Keys)))
    case Subnets => (s, SubnetList(s.subnets.Keys))
    case SaveSubnet(b) => (s.(subnets := s.subnets[b := {}]), Done)
    case AllocatedIPs(b) => (s, if b in s.subnets then AddrList(s.subnets[b]) else Failed)
    case AllocateIP(b, a) =>
      if !Contains(b, a) || b !in s.subnets then (s, Failed)
      else if a in s.subnets[b] then (s, Allocated(false))
      else (s.(subnets := s.subnets[b := s.subnets[b] + {a}]), Allocated(true))
    case FreeIP(b, a) =>
      if !Contains(b, a) || b !in s.subnets then (s, Failed)
      else (s.(subnets := s.subnets[b := s.subnets[b] - {a}]), Done)
  }
}
