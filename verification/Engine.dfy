/** Allocation over all subnets and its rollback, as functions on one system state. */
module Engine {
  import opened Util
  import opened Address
  import opened Config
  import opened RoundRobin
  import opened Store
  import opened Metrics

  /** The configured subnets by family, in order, and the lease duration. */
  datatype Server = Server(subs4: seq<Subnet>, subs6: seq<Subnet>, duration: int)

  datatype Sys = Sys(meter: Metered, cursors: map<Block, nat>)

  function SubnetsOf(v: Server): seq<Subnet> {
    v.subs4 + v.subs6
  }

  ghost function Blocks(v: Server): set<Block> {
    set s | s in SubnetsOf(v) :: s.block
  }

  /** Subnets are valid, sorted by family, and share no address. */
  ghost predicate GoodServer(v: Server) {
    && (forall s :: s in v.subs4 ==> Validate(s) == Valid && s.block.family == IPv4)
    && (forall s :: s in v.subs6 ==> Validate(s) == Valid && s.block.family == IPv6)
    && Apart(SubnetsOf(v))
  }

  ghost predicate Apart(subs: seq<Subnet>) {
    forall i, j :: 0 <= i < j < |subs| ==> Disjoint(subs[i].block, subs[j].block)
  }

  lemma ApartParts(s: seq<Subnet>, t: seq<Subnet>)
    requires Apart(s + t)
    ensures Apart(s) && Apart(t)
  {
    forall i, j | 0 <= i < j < |s| ensures Disjoint(s[i].block, s[j].block) {
      assert (s + t)[i] == s[i] && (s + t)[j] == s[j];
    }
    forall i, j | 0 <= i < j < |t| ensures Disjoint(t[i].block, t[j].block) {
      assert (s + t)[|s| + i] == t[i] && (s + t)[|s| + j] == t[j];
    }
  }

  ghost predicate Served(s: Subnet, y: Sys) {
    && Validate(s) == Valid
    && s.block in y.meter.store.subnets
    && s.block in y.cursors && s.block.base <= y.cursors[s.block] <= Last(s.block)
  }

  datatype One = Address(a: Addr, sys: Sys) | NoAddress(sys: Sys) | OnePanic

  /** One subnet's allocator: the walk, then the store and gauge step for the address it settles on. */
  ghost function AllocateOne(s: Subnet, y: Sys): One
    requires Served(s, y)
  {
    match Walk(s, y.cursors[s.block], false, y.meter.store.subnets[s.block])
    case Crash => OnePanic
    case Out(c) => NoAddress(y.(cursors := y.cursors[s.block := c]))
    case Got(v, c) =>
      var a := ToAddr(s, v);
      Address(a, Sys(MeteredStep(y.meter, AllocateIP(s.block, a)).0, y.cursors[s.block := c]))
  }

  lemma AllocateOneServes(s: Subnet, y: Sys, z: Subnet)
    requires Served(s, y) && Served(z, y) && !AllocateOne(s, y).OnePanic?
    ensures Served(z, AllocateOne(s, y).sys)
  {
    WalkStaysInBlock(s, y.cursors[s.block], false, y.meter.store.subnets[s.block]);
  }

  datatype Many = Many(ips: seq<Addr>, ok: bool, sys: Sys) | ManyPanic

  /** One address from each subnet in turn, stopping at the first that has none. */
  ghost function TryAllocate(subs: seq<Subnet>, y: Sys): Many
    requires forall s :: s in subs ==> Served(s, y)
    decreases |subs|
  {
    if subs == [] then Many([], true, y)
    else
      match AllocateOne(subs[0], y)
      case OnePanic => ManyPanic
      case NoAddress(y') => Many([], false, y')
      case Address(a, y') =>
        RestServed(subs, y);
        Prepend([a], TryAllocate(subs[1..], y'))
  }

  function Prepend(ips: seq<Addr>, r: Many): Many {
    if r.ManyPanic? then r else Many(ips + r.ips, r.ok, r.sys)
  }

  lemma RestServed(subs: seq<Subnet>, y: Sys)
    requires subs != [] && (forall s :: s in subs ==> Served(s, y)) && !AllocateOne(subs[0], y).OnePanic?
    ensures forall s :: s in subs[1..] ==> Served(s, AllocateOne(subs[0], y).sys)
  {
    forall s | s in subs[1..] ensures Served(s, AllocateOne(subs[0], y).sys) {
      AllocateOneServes(subs[0], y, s);
    }
  }

  /** Every subnet that contains the address is asked to free it. */
  ghost function FreeAt(subs: seq<Subnet>, y: Sys, a: Addr): Sys
    decreases |subs|
  {
    if subs == [] then y
    else if Contains(subs[0].block, a) then
      FreeAt(subs[1..], y.(meter := MeteredStep(y.meter, FreeIP(subs[0].block, a)).0), a)
    else FreeAt(subs[1..], y, a)
  }

  ghost function FreeOne(v: Server, y: Sys, a: Addr): Sys {
    FreeAt(FamilySubnets(v, a.family), y, a)
  }

  ghost function FreeEach(v: Server, y: Sys, ips: seq<Addr>): Sys
    decreases |ips|
  {
    if ips == [] then y else FreeEach(v, FreeOne(v, y, ips[0]), ips[1..])
  }

  /** The subnets consulted for the wanted families, IPv4 before IPv6. */
  function Consulted(v: Server, wanted: set<Family>): seq<Subnet> {
    (if IPv4 in wanted then v.subs4 else []) + (if IPv6 in wanted then v.subs6 else [])
  }

  datatype Grant = Granted(ips: seq<Addr>, sys: Sys) | Refused(sys: Sys) | GrantPanic

  ghost function AllocateAll(v: Server, y: Sys, wanted: set<Family>): Grant
    requires forall s :: s in SubnetsOf(v) ==> Served(s, y)
  {
    match TryAllocate(Consulted(v, wanted), y)
    case ManyPanic => GrantPanic
    case Many(ips, ok, y') => if ok && ips != [] then Granted(ips, y') else Refused(FreeEach(v, y', ips))
  }

  /** What every allocator operation keeps. */
  ghost predicate Sound(v: Server, y: Sys) {
    && GoodServer(v)
    && (forall s :: s in SubnetsOf(v) ==> Served(s, y))
    && y.meter.store.subnets.Keys == Blocks(v)
    && Placed(y.meter.store.subnets)
    && GaugeAgrees(y.meter)
  }

  ghost function Taken(y: Sys): set<Addr> {
    AddrsOf(y.meter.store.subnets)
  }

  lemma AllocateOneEffect(v: Server, s: Subnet, y: Sys)
    requires Sound(v, y) && s in SubnetsOf(v) && !AllocateOne(s, y).OnePanic?
    ensures var r := AllocateOne(s, y);
      && Sound(v, r.sys) && r.sys.meter.store.leases == y.meter.store.leases
      && (r.Address? ==> Contains(s.block, r.a) && r.a !in Taken(y) && Taken(r.sys) == Taken(y) + {r.a})
      && (r.NoAddress? ==> r.sys.meter == y.meter)
  {
    var r := AllocateOne(s, y);
    WalkStaysInBlock(s, y.cursors[s.block], false, y.meter.store.subnets[s.block]);
    forall z | z in SubnetsOf(v) ensures Served(z, r.sys) {
      AllocateOneServes(s, y, z);
    }
    if r.Address? {
      PlacedSubnet(y.meter.store.subnets, s.block, r.a);
      AllocateEffect(y.meter, s.block, r.a);
    }
  }

  /** From y to z exactly these addresses, all distinct and free in y, became allocated. */
  ghost predicate Grew(y: Sys, z: Sys, more: seq<Addr>) {
    && z.meter.store.leases == y.meter.store.leases
    && NoDup(more) && Elems(more) !! Taken(y)
    && Taken(z) == Taken(y) + Elems(more)
  }

  lemma GrewThenGrew(x: Sys, y: Sys, z: Sys, a: Addr, more: seq<Addr>)
    requires a !in Taken(x) && Taken(y) == Taken(x) + {a} && y.meter.store.leases == x.meter.store.leases
    requires Grew(y, z, more)
    ensures Grew(x, z, [a] + more)
  {
    assert a !in more;
    assert Elems([a] + more) == {a} + Elems(more);
  }

  lemma GrewNothing(y: Sys, z: Sys)
    requires z.meter == y.meter
    ensures Grew(y, z, [])
  {
    assert Elems<Addr>([]) == {};
  }

  /** The first subnet's turn, with what it leaves to the rest. */
  lemma FirstTurn(v: Server, subs: seq<Subnet>, y: Sys)
    requires Sound(v, y) && (forall s :: s in subs ==> s in SubnetsOf(v)) && subs != []
    ensures var one, r := AllocateOne(subs[0], y), TryAllocate(subs, y);
      && (one.OnePanic? ==> r == ManyPanic)
      && (one.NoAddress? ==> r == Many([], false, one.sys) && Sound(v, one.sys) && Grew(y, one.sys, []))
      && (one.Address? ==>
            && Sound(v, one.sys) && r == Prepend([one.a], TryAllocate(subs[1..], one.sys))
            && one.a !in Taken(y) && Taken(one.sys) == Taken(y) + {one.a}
            && one.sys.meter.store.leases == y.meter.store.leases)
  {
    var one := AllocateOne(subs[0], y);
    if !one.OnePanic? {
      AllocateOneEffect(v, subs[0], y);
      if one.NoAddress? {
        GrewNothing(y, one.sys);
      }
    }
  }

  /** What was allocated along the way is fresh, and is all that changed. */
  lemma {:induction false} TryAllocateEffect(v: Server, subs: seq<Subnet>, y: Sys)
    requires Sound(v, y) && (forall s :: s in subs ==> s in SubnetsOf(v))
    ensures var r := TryAllocate(subs, y); r.Many? ==> Sound(v, r.sys) && Grew(y, r.sys, r.ips)
    decreases |subs|
  {
    if subs == [] {
      GrewNothing(y, y);
    } else {
      FirstTurn(v, subs, y);
      var one := AllocateOne(subs[0], y);
      if one.Address? {
        var rest := TryAllocate(subs[1..], one.sys);
        TryAllocateEffect(v, subs[1..], one.sys);
        if rest.Many? {
          GrewThenGrew(y, one.sys, rest.sys, one.a, rest.ips);
        }
      }
    }
  }

  /** Freeing an allocated address takes exactly it away, whatever the number of subnets. */
  lemma {:induction false} FreeAtEffect(v: Server, subs: seq<Subnet>, y: Sys, a: Addr)
    requires Sound(v, y) && (forall s :: s in subs ==> s in SubnetsOf(v))
    requires Apart(subs)
    requires (exists s :: s in subs && Contains(s.block, a)) ==> a in Taken(y)
    ensures var r := FreeAt(subs, y, a);
      && Sound(v, r) && r.meter.store.leases == y.meter.store.leases && r.cursors == y.cursors
      && Taken(r) == if exists s :: s in subs && Contains(s.block, a) then Taken(y) - {a} else Taken(y)
    decreases |subs|
  {
    if subs != [] {
      var rest := subs[1..];
      assert forall i :: 0 <= i < |rest| ==> rest[i] == subs[i + 1];
      if Contains(subs[0].block, a) {
        FreeEffect(y.meter, subs[0].block, a);
        var y' := y.(meter := MeteredStep(y.meter, FreeIP(subs[0].block, a)).0);
        assert forall z :: z in SubnetsOf(v) ==> Served(z, y) && Served(z, y');
        forall i | 0 <= i < |rest| ensures !Contains(rest[i].block, a) {
          assert Disjoint(subs[0].block, subs[i + 1].block);
        }
        FreeAtEffect(v, rest, y', a);
      } else {
        FreeAtEffect(v, rest, y, a);
      }
    }
  }

  function FamilySubnets(v: Server, f: Family): seq<Subnet> {
    if f == IPv4 then v.subs4 else v.subs6
  }

  lemma FamilySubnetsApart(v: Server, f: Family)
    requires GoodServer(v)
    ensures Apart(FamilySubnets(v, f))
    ensures forall s :: s in FamilySubnets(v, f) ==> s in SubnetsOf(v)
  {
    ApartParts(v.subs4, v.subs6);
  }

  lemma OwningSubnet(v: Server, y: Sys, a: Addr) returns (s: Subnet)
    requires Sound(v, y) && a in Taken(y)
    ensures s in FamilySubnets(v, a.family) && Contains(s.block, a)
  {
    var b :| b in y.meter.store.subnets && a in y.meter.store.subnets[b];
    s :| s in SubnetsOf(v) && s.block == b;
  }

  lemma FreeOneEffect(v: Server, y: Sys, a: Addr)
    requires Sound(v, y) && a in Taken(y)
    ensures var r := FreeOne(v, y, a);
      && Sound(v, r) && r.meter.store.leases == y.meter.store.leases && r.cursors == y.cursors
      && Taken(r) == Taken(y) - {a}
  {
    FamilySubnetsApart(v, a.family);
    var s := OwningSubnet(v, y, a);
    FreeAtEffect(v, FamilySubnets(v, a.family), y, a);
  }

  lemma {:induction false} FreeEachEffect(v: Server, y: Sys, ips: seq<Addr>)
    requires Sound(v, y) && NoDup(ips) && forall a :: a in ips ==> a in Taken(y)
    ensures var r := FreeEach(v, y, ips);
      && Sound(v, r) && r.meter.store.leases == y.meter.store.leases && r.cursors == y.cursors
      && Taken(r) == Taken(y) - Elems(ips)
    decreases |ips|
  {
    if ips != [] {
      var y' := FreeOne(v, y, ips[0]);
      FreeOneEffect(v, y, ips[0]);
      NoDupTail(ips);
      FreeEachEffect(v, y', ips[1..]);
      assert Taken(y) - {ips[0]} - Elems(ips[1..]) == Taken(y) - Elems(ips);
    } else {
      assert Taken(y) - Elems(ips) == Taken(y);
    }
  }

  lemma ConsultedAreConfigured(v: Server, wanted: set<Family>)
    ensures forall s :: s in Consulted(v, wanted) ==> s in SubnetsOf(v)
  {
  }

  /** The configured subnets of the wanted families. */
  lemma ConsultedIff(v: Server, wanted: set<Family>, s: Subnet)
    requires GoodServer(v)
    ensures s in Consulted(v, wanted) <==> s in SubnetsOf(v) && s.block.family in wanted
  {
    assert s in SubnetsOf(v) <==> s in v.subs4 || s in v.subs6;
    assert s in Consulted(v, wanted) <==> (IPv4 in wanted && s in v.subs4) || (IPv6 in wanted && s in v.subs6);
  }

  /** Those of IPv4 in order, and then those of IPv6. */
  lemma ConsultedOrder(v: Server, wanted: set<Family>)
    ensures var n := if IPv4 in wanted then |v.subs4| else 0;
      var subs := Consulted(v, wanted);
      && |subs| == n + (if IPv6 in wanted then |v.subs6| else 0)
      && (forall i :: 0 <= i < n ==> subs[i] == v.subs4[i])
      && (forall i :: 0 <= i < |subs| - n ==> subs[n + i] == v.subs6[i])
  {
  }

  /** One address of each subnet, in order. */
  ghost predicate PlacedIn(subs: seq<Subnet>, ips: seq<Addr>) {
    |ips| == |subs| && forall i :: 0 <= i < |subs| ==> Contains(subs[i].block, ips[i])
  }

  lemma PlacedCons(subs: seq<Subnet>, a: Addr, ips: seq<Addr>)
    requires subs != [] && Contains(subs[0].block, a) && PlacedIn(subs[1..], ips)
    ensures PlacedIn(subs, [a] + ips)
  {
    forall i | 0 <= i < |subs| ensures Contains(subs[i].block, ([a] + ips)[i]) {
      assert i > 0 ==> subs[i] == subs[1..][i - 1];
    }
  }

  /** An allocation that succeeds has one address of each subnet, in order. */
  lemma {:induction false} TryAllocatePlaces(v: Server, subs: seq<Subnet>, y: Sys)
    requires Sound(v, y) && (forall s :: s in subs ==> s in SubnetsOf(v))
    ensures var r := TryAllocate(subs, y);
      r.Many? && r.ok ==> PlacedIn(subs, r.ips)
    decreases |subs|
  {
    if subs != [] {
      FirstTurn(v, subs, y);
      var one, r := AllocateOne(subs[0], y), TryAllocate(subs, y);
      if one.Address? {
        AllocateOneEffect(v, subs[0], y);
        TryAllocatePlaces(v, subs[1..], one.sys);
        if r.Many? && r.ok {
          PlacedCons(subs, one.a, TryAllocate(subs[1..], one.sys).ips);
        }
      }
    }
  }

  /** One address of each IPv4 subnet, if asked for, and then one of each IPv6 subnet, if asked for; in order. */
  ghost predicate OneEach(v: Server, four: bool, six: bool, given: seq<Addr>) {
    var n4, n6 := if four then |v.subs4| else 0, if six then |v.subs6| else 0;
    && |given| == n4 + n6 > 0
    && (forall i :: 0 <= i < n4 ==> Contains(v.subs4[i].block, given[i]))
    && (forall i :: 0 <= i < n6 ==> Contains(v.subs6[i].block, given[n4 + i]))
  }

  /** A grant has exactly one address of each configured subnet of the wanted families. */
  lemma GrantIsOneEach(v: Server, y: Sys, wanted: set<Family>)
    requires Sound(v, y)
    ensures var g := AllocateAll(v, y, wanted); g.Granted? ==> OneEach(v, IPv4 in wanted, IPv6 in wanted, g.ips)
  {
    ConsultedAreConfigured(v, wanted);
    ConsultedOrder(v, wanted);
    TryAllocatePlaces(v, Consulted(v, wanted), y);
  }

  lemma AllocateAllEffect(v: Server, y: Sys, wanted: set<Family>)
    requires Sound(v, y)
    ensures var r := AllocateAll(v, y, wanted);
      && (!r.GrantPanic? ==> Sound(v, r.sys) && r.sys.meter.store.leases == y.meter.store.leases)
      && (r.Granted? ==>
            r.ips != [] && NoDup(r.ips) && Elems(r.ips) !! Taken(y) && Taken(r.sys) == Taken(y) + Elems(r.ips))
      && (r.Refused? ==> Taken(r.sys) == Taken(y))
  {
    ConsultedAreConfigured(v, wanted);
    TryAllocateEffect(v, Consulted(v, wanted), y);
    var many := TryAllocate(Consulted(v, wanted), y);
    if many.Many? && !(many.ok && many.ips != []) {
      FreeEachEffect(v, many.sys, many.ips);
      assert Taken(y) + Elems(many.ips) - Elems(many.ips) == Taken(y);
    }
  }

  /** A request that is not granted leaves every subnet's allocated set exactly as it was. */
  lemma AllOrNothing(v: Server, y: Sys, wanted: set<Family>)
    requires Sound(v, y) && AllocateAll(v, y, wanted).Refused?
    ensures AllocateAll(v, y, wanted).sys.meter.store == y.meter.store
  {
    AllocateAllEffect(v, y, wanted);
    PlacedDetermined(AllocateAll(v, y, wanted).sys.meter.store.subnets, y.meter.store.subnets);
  }
}
