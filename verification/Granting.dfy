/** When an allocation over several subnets succeeds, and what it hands out. */
module Granting {
  import opened Address
  import opened Config
  import opened RoundRobin
  import opened Engine

  /** The subnet's reserved list is orderly, its walk turns at its end, and its cursor is on the ring. */
  ghost predicate Steady(s: Subnet, y: Sys) {
    && Served(s, y)
    && Orderly(s) && TurnsAtEnd(s)
    && exists i :: AtIndex(s, y.cursors[s.block], i)
  }

  ghost predicate AllSteady(subs: seq<Subnet>, y: Sys) {
    forall s :: s in subs ==> Served(s, y) && Steady(s, y)
  }

  /** The address is allowed in the subnet and not taken from it. */
  ghost predicate Available(s: Subnet, y: Sys, a: Addr) {
    && s.block in y.meter.store.subnets
    && a.family == s.block.family && Allowed(s, a.value) && a !in y.meter.store.subnets[s.block]
  }

  ghost predicate HasFree(s: Subnet, y: Sys) {
    exists a :: Available(s, y, a)
  }

  lemma AllocateOneIff(s: Subnet, y: Sys)
    requires Steady(s, y)
    ensures var r := AllocateOne(s, y);
      && !r.OnePanic? && (r.Address? <==> HasFree(s, y))
      && (r.Address? ==> Available(s, y, r.a) && Steady(s, r.sys))
  {
    var cursor, taken := y.cursors[s.block], y.meter.store.subnets[s.block];
    var i :| AtIndex(s, cursor, i);
    WalkIsRoundRobin(s, cursor, i, taken);
    WalkStaysInBlock(s, cursor, false, taken);
    ExhaustedIffAllTaken(s, cursor, i, taken);
    var r := AllocateOne(s, y);
    if r.Address? {
      RingEntry(s, CyclicFree(s, i, taken).value);
      AllocateOneServes(s, y, s);
      assert Available(s, y, r.a);
    } else {
      forall a: Addr | a.family == s.block.family && Allowed(s, a.value) ensures a in taken {
        assert a == ToAddr(s, a.value);
      }
    }
  }

  lemma OtherSubnetUntouched(s: Subnet, y: Sys, z: Subnet)
    requires Served(s, y) && Served(z, y) && Disjoint(s.block, z.block) && !AllocateOne(s, y).OnePanic?
    ensures var y' := AllocateOne(s, y).sys;
      && Served(z, y') && y'.cursors[z.block] == y.cursors[z.block]
      && y'.meter.store.subnets[z.block] == y.meter.store.subnets[z.block]
  {
    AllocateOneServes(s, y, z);
    assert Contains(s.block, Addr(s.block.family, s.block.base));
    assert s.block != z.block;
  }

  ghost predicate Serves(subs: seq<Subnet>, y: Sys, ips: seq<Addr>) {
    |ips| == |subs| && forall i :: 0 <= i < |subs| ==> Available(subs[i], y, ips[i])
  }

  lemma RestUntouched(subs: seq<Subnet>, y: Sys)
    requires subs != [] && Apart(subs) && AllSteady(subs, y) && AllocateOne(subs[0], y).Address?
    ensures var y' := AllocateOne(subs[0], y).sys;
      && Apart(subs[1..])
      && AllSteady(subs[1..], y')
      && (forall s, a :: s in subs[1..] ==> (Available(s, y', a) <==> Available(s, y, a)))
  {
    var rest := subs[1..];
    assert subs == [subs[0]] + rest;
    ApartParts([subs[0]], rest);
    var y' := AllocateOne(subs[0], y).sys;
    forall s | s in rest
      ensures Served(s, y') && Steady(s, y') && forall a :: Available(s, y', a) <==> Available(s, y, a)
    {
      var k :| 0 <= k < |rest| && rest[k] == s;
      assert subs[k + 1] == s;
      OtherSubnetUntouched(subs[0], y, s);
      var i :| AtIndex(s, y.cursors[s.block], i);
      assert AtIndex(s, y'.cursors[s.block], i);
    }
  }

  lemma {:induction false} TryAllocateIff(subs: seq<Subnet>, y: Sys)
    requires Apart(subs) && AllSteady(subs, y)
    ensures var r := TryAllocate(subs, y);
      && r.Many? && (r.ok <==> forall s :: s in subs ==> HasFree(s, y))
      && (r.ok ==> Serves(subs, y, r.ips))
    decreases |subs|
  {
    if subs != [] {
      AllocateOneIff(subs[0], y);
      assert subs[0] in subs;
      var one := AllocateOne(subs[0], y);
      if one.Address? {
        RestUntouched(subs, y);
        TryAllocateIff(subs[1..], one.sys);
        var rest := TryAllocate(subs[1..], one.sys);
        forall s | s in subs[1..] ensures HasFree(s, one.sys) <==> HasFree(s, y) {
        }
        assert forall s :: s in subs <==> s == subs[0] || s in subs[1..];
        if rest.ok {
          ServesCons(subs, y, one, rest.ips);
        }
      }
    }
  }

  lemma ServesCons(subs: seq<Subnet>, y: Sys, one: One, ips: seq<Addr>)
    requires subs != [] && one.Address? && Available(subs[0], y, one.a)
    requires Serves(subs[1..], one.sys, ips)
    requires forall s, a :: s in subs[1..] ==> (Available(s, one.sys, a) <==> Available(s, y, a))
    ensures Serves(subs, y, [one.a] + ips)
  {
    forall i | 0 <= i < |subs| ensures Available(subs[i], y, ([one.a] + ips)[i]) {
      if i > 0 {
        assert subs[i] == subs[1..][i - 1] && ([one.a] + ips)[i] == ips[i - 1];
      }
    }
  }

  lemma ConsultedAreApart(v: Server, wanted: set<Family>)
    requires GoodServer(v)
    ensures Apart(Consulted(v, wanted)) && forall s :: s in Consulted(v, wanted) ==> s in SubnetsOf(v)
  {
    ApartParts(v.subs4, v.subs6);
    var subs := Consulted(v, wanted);
    assert subs == v.subs4 || subs == v.subs6 || subs == v.subs4 + v.subs6 || subs == [];
  }

  lemma WantedAreConsulted(v: Server, y: Sys, wanted: set<Family>)
    requires GoodServer(v)
    ensures Consulted(v, wanted) != [] <==> exists s :: s in SubnetsOf(v) && s.block.family in wanted
    ensures (forall s :: s in Consulted(v, wanted) ==> HasFree(s, y))
      <==> forall s :: s in SubnetsOf(v) && s.block.family in wanted ==> HasFree(s, y)
  {
    var subs := Consulted(v, wanted);
    forall s ensures s in subs <==> s in SubnetsOf(v) && s.block.family in wanted {
      ConsultedIff(v, wanted, s);
    }
    assert subs != [] ==> subs[0] in subs;
  }

  /**
   * An allocation is granted exactly when a subnet of a wanted family is configured and each of them has a free allowed
   * address; the grant is one such address of each, IPv4 first, in configured order.
   */
  lemma GrantedIff(v: Server, y: Sys, wanted: set<Family>)
    requires Sound(v, y) && AllSteady(Consulted(v, wanted), y)
    ensures var r := AllocateAll(v, y, wanted);
      var n4, n6 := if IPv4 in wanted then |v.subs4| else 0, if IPv6 in wanted then |v.subs6| else 0;
      && !r.GrantPanic?
      && (r.Granted? <==>
            && (exists s :: s in SubnetsOf(v) && s.block.family in wanted)
            && forall s :: s in SubnetsOf(v) && s.block.family in wanted ==> HasFree(s, y))
      && (r.Granted? ==>
            && |r.ips| == n4 + n6
            && (forall i :: 0 <= i < n4 ==> Available(v.subs4[i], y, r.ips[i]))
            && (forall i :: 0 <= i < n6 ==> Available(v.subs6[i], y, r.ips[n4 + i])))
  {
    var subs := Consulted(v, wanted);
    ConsultedAreApart(v, wanted);
    ConsultedOrder(v, wanted);
    TryAllocateIff(subs, y);
    WantedAreConsulted(v, y, wanted);
  }
}
