/** Exactly which reserved lists keep reserved addresses from being handed out, and what another list leads to. */
module Reservations {
  import opened Util
  import opened Address
  import opened Config
  import opened ListOrder
  import opened ReservedScan
  import opened RoundRobin

  /** No reserved run from the range's start on is listed with an entry ahead of two smaller ones. */
  ghost predicate Listed(s: Subnet) {
    RunsListed(StartOf(s), Last(s.block), ReservedValues(s))
  }

  lemma {:induction false} WalkIsUnreserved(s: Subnet, cursor: nat, out: bool, taken: set<Addr>)
    requires Validate(s) == Valid && Listed(s) && StartOf(s) <= cursor <= Last(s.block)
    ensures var r := Walk(s, cursor, out, taken);
      && (r.Got? ==> r.addr !in ReservedValues(s))
      && (!r.Crash? ==> StartOf(s) <= r.cursor <= Last(s.block))
    decreases !out, Last(s.block) - cursor
  {
    ValidSubnetShape(s);
    EveryPassLandsIff(StartOf(s), Last(s.block), ReservedValues(s));
    var pass := Pass1(s, cursor);
    assert Lands(Last(s.block), pass, RunEnd(Last(s.block), ReservedValues(s), cursor));
    if pass.At? && pass.p.Some? {
      if Turns(s, pass.next) {
        if !out {
          WalkIsUnreserved(s, StartOf(s), true, taken);
        }
      } else {
        WalkIsUnreserved(s, pass.next.value, out, taken);
      }
    }
  }

  /** A misordered run, and the call that hands out one of its addresses. */
  lemma MisorderedIsHandedOut(s: Subnet, b: nat)
    requires Validate(s) == Valid && RunStart(StartOf(s), ReservedValues(s), b) && b <= Last(s.block)
    requires !RunListed(ReservedValues(s), b, RunEnd(Last(s.block), ReservedValues(s), b))
    ensures var r := Walk(s, b, false, {}); r.Got? && r.addr in ReservedValues(s)
  {
    var last, rs := Last(s.block), ReservedValues(s);
    PassLandsIff(last, rs, b);
    assert rs[0..] == rs;
    PassStaysInRun(last, rs, 0, b, b + 1, RunEnd(last, rs, b));
  }

  /** Whatever the cursor and the store, a call hands out no reserved address, exactly for these lists. */
  lemma NeverReservedIff(s: Subnet)
    requires Validate(s) == Valid
    ensures (forall cursor: nat, taken :: StartOf(s) <= cursor <= Last(s.block) ==>
               var r := Walk(s, cursor, false, taken); r.Got? ==> r.addr !in ReservedValues(s))
      <==> Listed(s)
  {
    if Listed(s) {
      forall cursor: nat, taken | StartOf(s) <= cursor <= Last(s.block)
        ensures var r := Walk(s, cursor, false, taken); r.Got? ==> r.addr !in ReservedValues(s)
      {
        WalkIsUnreserved(s, cursor, false, taken);
      }
    } else {
      var b: nat :| b <= Last(s.block) && RunStart(StartOf(s), ReservedValues(s), b)
        && !RunListed(ReservedValues(s), b, RunEnd(Last(s.block), ReservedValues(s), b));
      MisorderedIsHandedOut(s, b);
    }
  }

  /** Successive calls, with any store content at each of them, hand out no reserved address. */
  ghost predicate Respects(s: Subnet, cursor: nat, takens: seq<set<Addr>>)
    requires Validate(s) == Valid && s.block.base <= cursor <= Last(s.block)
    decreases |takens|
  {
    if takens == [] then true
    else
      var r := Walk(s, cursor, false, takens[0]);
      WalkStaysInBlock(s, cursor, false, takens[0]);
      match r
      case Crash => true
      case Out(c) => Respects(s, c, takens[1..])
      case Got(a, c) => a !in ReservedValues(s) && Respects(s, c, takens[1..])
  }

  lemma {:induction false} ListedRespects(s: Subnet, cursor: nat, takens: seq<set<Addr>>)
    requires Validate(s) == Valid && Listed(s) && StartOf(s) <= cursor <= Last(s.block)
    ensures s.block.base <= cursor && Respects(s, cursor, takens)
    decreases |takens|
  {
    ValidSubnetShape(s);
    if takens != [] {
      WalkIsUnreserved(s, cursor, false, takens[0]);
      var r := Walk(s, cursor, false, takens[0]);
      if !r.Crash? {
        ListedRespects(s, r.cursor, takens[1..]);
      }
    }
  }

  /** Such a list need not be ascending: 2 may come before 1. */
  lemma UnorderedMayBeListed()
    ensures RunsListed(0, 7, [2, 1]) && !Ascending([2, 1])
  {
    var rs: seq<nat> := [2, 1];
    assert rs[0] > rs[1];
    forall b: nat | b <= 7 && RunStart(0, rs, b) ensures RunListed(rs, b, RunEnd(7, rs, b)) {
      assert b == 1;
      assert NextFree(7, rs, 3) == Some(3);
      assert NextFree(7, rs, 1) == NextFree(7, rs, 2) == Some(3);
      assert RunAt(rs, 1, 3, [1, 0]);
    }
  }

  /** Addresses 0 to 7, from 1 on, with 3, 1 and 2 reserved in this order. */
  function MisorderedSubnet(): Subnet {
    Subnet(Block(IPv4, 0, 3), Some(Addr(IPv4, 1)), None, [Addr(IPv4, 3), Addr(IPv4, 1), Addr(IPv4, 2)])
  }

  /** A new allocator of this valid subnet starts by handing out the reserved 3. */
  lemma MisorderedHandsOutReserved()
    ensures var s := MisorderedSubnet();
      && Validate(s) == Valid && 3 in ReservedValues(s) && StartOf(s) == 1 <= Last(s.block)
      && Walk(s, StartOf(s), false, {}) == Got(3, 4)
  {
    var s := MisorderedSubnet();
    assert Pow2(1) == 2 && Pow2(2) == 4 && Pow2(3) == 8;
    ValidateAcceptsIff(s);
    assert ReservedValues(s) == [3, 1, 2];
    UnorderedListMissesReserved();
  }
}
