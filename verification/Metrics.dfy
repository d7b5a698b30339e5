/** The gauge of allocated addresses kept beside a store. */
module Metrics {
  import opened Address
  import opened Store
  import opened Purging

  datatype Metered = Metered(store: State<Key>, gauge: map<Block, int>)

  function Gauge(gauge: map<Block, int>, b: Block): int {
    if b in gauge then gauge[b] else 0
  }

  function Debited(gauge: map<Block, int>, counts: map<Block, nat>): map<Block, int> {
    map b | b in gauge.Keys + counts.Keys :: Gauge(gauge, b) - CountFor(counts, b)
  }

  /** What the wrapper does to the gauge, given the store's reply. */
  function GaugeAfter(gauge: map<Block, int>, op: Op, r: Reply): map<Block, int> {
    match op
    case AllocateIP(b, _) => if r == Allocated(true) then gauge[b := Gauge(gauge, b) + 1] else gauge
    case FreeIP(b, _) => if r == Done then gauge[b := Gauge(gauge, b) - 1] else gauge
    case Purge(_) => if r.Freed? then Debited(gauge, r.ips) else gauge
    case _ => gauge
  }

  /** One operation through the metrics wrapper: the store's own step, and the gauge moved by its reply. */
  ghost function MeteredStep(m: Metered, op: Op): (Metered, Reply) {
    var (store, r) := MemoryStep(m.store, op);
    (Metered(store, GaugeAfter(m.gauge, op, r)), r)
  }

  /** How far one operation moves a subnet's gauge: by what it does to the allocated set, and by a free in any case. */
  lemma GaugeMoves(m: Metered, op: Op, b: Block)
    ensures var (n, r) := MeteredStep(m, op);
      Gauge(n.gauge, b) - Gauge(m.gauge, b) == match op
        case AllocateIP(c, a) =>
          if c == b && b in m.store.subnets && Contains(b, a) && a !in m.store.subnets[b] then 1 else 0
        case FreeIP(c, a) => if c == b && b in m.store.subnets && Contains(b, a) then -1 else 0
        case Purge(_) => if b in r.ips then -(r.ips[b] as int) else 0
        case _ => 0
  {
  }

  /** The gauge as the wrapper sets it when it is put around an existing store. */
  function InitialGauge(subnets: map<Block, set<Addr>>): map<Block, int> {
    map b | b in subnets :: |subnets[b]|
  }

  ghost predicate GaugeAgrees(m: Metered) {
    forall b :: b in m.store.subnets ==> Gauge(m.gauge, b) == |m.store.subnets[b]|
  }

  /** Every address allocated from any subnet. */
  ghost function AddrsOf(subnets: map<Block, set<Addr>>): set<Addr> {
    set b, a | b in subnets && a in subnets[b] :: a
  }

  /** Registered blocks share no address, and hold only their own addresses. */
  ghost predicate Placed(subnets: map<Block, set<Addr>>) {
    && (forall b, c :: b in subnets && c in subnets && b != c ==> Disjoint(b, c))
    && (forall b, a :: b in subnets && a in subnets[b] ==> Contains(b, a))
  }

  lemma PlacedSubnet(subnets: map<Block, set<Addr>>, b: Block, a: Addr)
    requires Placed(subnets) && b in subnets && Contains(b, a)
    ensures a in subnets[b] <==> a in AddrsOf(subnets)
  {
    if a in AddrsOf(subnets) {
      var c :| c in subnets && a in subnets[c];
      assert c == b || Disjoint(b, c);
    }
  }

  /** Placed allocations are determined by the overall set of addresses. */
  lemma PlacedDetermined(m: map<Block, set<Addr>>, n: map<Block, set<Addr>>)
    requires Placed(m) && Placed(n) && m.Keys == n.Keys && AddrsOf(m) == AddrsOf(n)
    ensures m == n
  {
    forall b | b in m ensures m[b] == n[b] {
      forall a ensures a in m[b] <==> a in n[b] {
        if Contains(b, a) {
          PlacedSubnet(m, b, a);
          PlacedSubnet(n, b, a);
        }
      }
    }
  }

  lemma AddrsOfAdd(m: map<Block, set<Addr>>, b: Block, a: Addr)
    requires b in m
    ensures AddrsOf(m[b := m[b] + {a}]) == AddrsOf(m) + {a}
  {
    var n := m[b := m[b] + {a}];
    assert a in n[b];
    forall x | x in AddrsOf(m) ensures x in AddrsOf(n) {
      var c :| c in m && x in m[c];
      assert x in n[c];
    }
  }

  lemma AddrsOfRemove(m: map<Block, set<Addr>>, b: Block, a: Addr)
    requires Placed(m) && b in m && Contains(b, a)
    ensures AddrsOf(m[b := m[b] - {a}]) == AddrsOf(m) - {a}
  {
    var n := m[b := m[b] - {a}];
    forall x ensures x in AddrsOf(n) <==> x in AddrsOf(m) && x != a {
      if x in AddrsOf(m) && x != a {
        var c :| c in m && x in m[c];
        assert x in n[c];
      }
      if x in AddrsOf(n) {
        var c :| c in n && x in n[c];
        assert x in m[c] && (c == b || Disjoint(b, c));
      }
    }
  }

  lemma PlacedAdd(m: map<Block, set<Addr>>, b: Block, a: Addr)
    requires Placed(m) && b in m && Contains(b, a)
    ensures Placed(m[b := m[b] + {a}])
  {
    var n := m[b := m[b] + {a}];
    forall c, x | c in n && x in n[c] ensures Contains(c, x) {
      assert c == b || x in m[c];
    }
  }

  lemma GaugeAdd(m: Metered, b: Block, a: Addr)
    requires GaugeAgrees(m) && b in m.store.subnets && Contains(b, a)
    ensures GaugeAgrees(MeteredStep(m, AllocateIP(b, a)).0)
  {
  }

  lemma AllocateEffect(m: Metered, b: Block, a: Addr)
    requires Placed(m.store.subnets) && b in m.store.subnets && Contains(b, a)
    ensures var (n, r) := MeteredStep(m, AllocateIP(b, a));
      && r == Allocated(a !in AddrsOf(m.store.subnets))
      && Placed(n.store.subnets) && n.store.subnets.Keys == m.store.subnets.Keys && n.store.leases == m.store.leases
      && AddrsOf(n.store.subnets) == AddrsOf(m.store.subnets) + {a}
      && (GaugeAgrees(m) ==> GaugeAgrees(n))
      && (a in AddrsOf(m.store.subnets) ==> n == m)
  {
    var subnets := m.store.subnets;
    var n := MeteredStep(m, AllocateIP(b, a)).0;
    PlacedSubnet(subnets, b, a);
    if GaugeAgrees(m) {
      GaugeAdd(m, b, a);
    }
    if a in subnets[b] {
      assert n == m;
      assert AddrsOf(subnets) + {a} == AddrsOf(subnets);
    } else {
      assert n.store == State(m.store.leases, subnets[b := subnets[b] + {a}]);
      AddrsOfAdd(subnets, b, a);
      PlacedAdd(subnets, b, a);
    }
  }

  lemma FreeEffect(m: Metered, b: Block, a: Addr)
    requires Placed(m.store.subnets) && b in m.store.subnets && Contains(b, a)
    ensures var (n, r) := MeteredStep(m, FreeIP(b, a));
      && r == Done
      && Placed(n.store.subnets) && n.store.subnets.Keys == m.store.subnets.Keys && n.store.leases == m.store.leases
      && AddrsOf(n.store.subnets) == AddrsOf(m.store.subnets) - {a}
      && (GaugeAgrees(m) && a in AddrsOf(m.store.subnets) ==> GaugeAgrees(n))
  {
    PlacedSubnet(m.store.subnets, b, a);
    AddrsOfRemove(m.store.subnets, b, a);
  }

  /** Allocations are exactly the leased addresses, and no address is leased twice. */
  ghost predicate Conserved(s: State<Key>) {
    LeasesApart(s.leases) && LeasedAddrs(s.leases) == AddrsOf(s.subnets)
  }

  ghost function LeasedAddrs<K(!new)>(leases: map<K, Lease>): set<Addr> {
    set k, a | k in leases && a in leases[k].ips :: a
  }

  /** A purge keeps the books: what it frees is what expired, and each gauge drops by what its subnet lost. */
  lemma PurgeEffect(m: Metered, t: int)
    requires Placed(m.store.subnets) && Conserved(m.store) && GaugeAgrees(m)
    ensures var (n, r) := MeteredStep(m, Purge(t));
      && Placed(n.store.subnets) && n.store.subnets.Keys == m.store.subnets.Keys
      && n.store.leases == Surviving(m.store.leases, t)
      && Conserved(n.store) && GaugeAgrees(n)
      && forall b :: b in m.store.subnets ==> CountFor(r.ips, b) == |m.store.subnets[b]| - |n.store.subnets[b]|
  {
    var subnets, leases := m.store.subnets, m.store.leases;
    var (n, r) := MeteredStep(m, Purge(t));
    forall b | b in subnets
      ensures CountFor(r.ips, b) == |subnets[b]| - |n.store.subnets[b]|
    {
      forall k, a | k in leases && a in leases[k].ips && Contains(b, a) ensures a in subnets[b] {
        assert a in LeasedAddrs(leases);
        PlacedSubnet(subnets, b, a);
      }
      FreedCountIsDrop(leases, t, b, subnets[b]);
    }
    PurgeConserves(m.store, t);
  }

  lemma PurgeConserves(s: State<Key>, t: int)
    requires Placed(s.subnets) && Conserved(s)
    ensures Conserved(Purged(s, t))
  {
    var n := Purged(s, t);
    forall a ensures a in LeasedAddrs(n.leases) <==> a in AddrsOf(n.subnets) {
      if a in LeasedAddrs(n.leases) {
        var k :| k in n.leases && a in n.leases[k].ips;
        assert a in LeasedAddrs(s.leases);
        var b :| b in s.subnets && a in s.subnets[b];
        assert a in n.subnets[b];
      }
      if a in AddrsOf(n.subnets) {
        var b :| b in n.subnets && a in n.subnets[b];
        assert a in s.subnets[b] && a in LeasedAddrs(s.leases);
        var k :| k in s.leases && a in s.leases[k].ips;
        assert a !in FreedAddrs(s.leases, t);
        assert k in n.leases;
      }
    }
  }
}
