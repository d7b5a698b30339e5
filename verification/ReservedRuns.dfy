/** Exactly which configurations keep an allocator, over whole runs, from handing out a reserved address. */
module ReservedRuns {
  import opened Util
  import opened Address
  import opened Config
  import opened ListOrder
  import opened ReservedScan
  import opened RoundRobin
  import opened Exhaustion
  import opened Reservations

  /** A pass from here gets off the reserved addresses. */
  ghost predicate Sound(s: Subnet, c: nat) {
    c in ReservedValues(s) ==> RunListed(ReservedValues(s), c, RunEnd(Last(s.block), ReservedValues(s), c))
  }

  /**
   * What the list must show from c on: the run at c, if any, with no entry ahead of two smaller ones, and the same
   * again wherever the list makes the cursor go on from there.
   */
  ghost predicate Clears(s: Subnet, c: nat)
    decreases Last(s.block) - c
  {
    && Sound(s, c)
    && forall y: nat :: c < y <= Last(s.block) && Continues(Last(s.block), ReservedValues(s), c, y) ==> Clears(s, y)
  }

  function NextCursor(s: Subnet, c: nat): Option<nat>
    requires c <= Last(s.block)
  {
    NextOf(Last(s.block), ReservedValues(s), c)
  }

  /** The same condition by the pass itself: the cursor's next position is the only one to go on from. */
  lemma ClearsStep(s: Subnet, c: nat)
    requires c <= Last(s.block)
    ensures Clears(s, c) <==> Sound(s, c) && (NextCursor(s, c).Some? ==> Clears(s, NextCursor(s, c).value))
  {
    if Sound(s, c) {
      forall y: nat ensures NextCursor(s, c) == Some(y) <==> Continues(Last(s.block), ReservedValues(s), c, y) {
        NextOfIff(Last(s.block), ReservedValues(s), c, y);
      }
    }
  }

  /** On a sound cursor the pass offers an unreserved address, or none. */
  lemma SoundPass(s: Subnet, c: nat)
    requires Sound(s, c) && c <= Last(s.block)
    ensures var pass := Pass1(s, c);
      && (pass.At? && pass.p.Some? ==> c <= pass.p.value <= Last(s.block) && pass.p.value !in ReservedValues(s))
      && (NextCursor(s, c).Some? ==> pass.At? && pass.p.Some? && c < NextCursor(s, c).value <= Last(s.block))
  {
    PassLandsIff(Last(s.block), ReservedValues(s), c);
  }

  /** On an unsound one it offers a reserved address. */
  lemma UnsoundPass(s: Subnet, c: nat)
    requires !Sound(s, c) && c <= Last(s.block)
    ensures var pass := Pass1(s, c); pass.At? && pass.p.Some? && pass.p.value in ReservedValues(s)
  {
    var last, rs := Last(s.block), ReservedValues(s);
    PassLandsIff(last, rs, c);
    assert rs[0..] == rs;
    PassStaysInRun(last, rs, 0, c, c + 1, RunEnd(last, rs, c));
  }

  lemma LastClears(s: Subnet)
    ensures Clears(s, Last(s.block))
  {
    var last, rs := Last(s.block), ReservedValues(s);
    if last in rs {
      var i :| 0 <= i < |rs| && rs[i] == last;
      assert RunEnd(last, rs, last) == last + 1;
      assert RunAt(rs, last, last + 1, [i]);
    }
  }

  /** From a clearing cursor, a call hands out no reserved address and leaves the cursor on a clearing one. */
  lemma {:induction false} WalkStaysClear(s: Subnet, c: nat, out: bool, taken: set<Addr>)
    requires Validate(s) == Valid && Clears(s, StartOf(s)) && Clears(s, c) && StartOf(s) <= c <= Last(s.block)
    ensures var r := Walk(s, c, out, taken);
      && (r.Got? ==> r.addr !in ReservedValues(s))
      && (!r.Crash? ==> StartOf(s) <= r.cursor <= Last(s.block) && Clears(s, r.cursor))
    decreases !out, Last(s.block) - c
  {
    ValidSubnetShape(s);
    ClearsStep(s, c);
    SoundPass(s, c);
    LastClears(s);
    var pass := Pass1(s, c);
    if pass.At? && pass.p.Some? {
      if Turns(s, pass.next) {
        if !out {
          WalkStaysClear(s, StartOf(s), true, taken);
        }
      } else {
        WalkStaysClear(s, pass.next.value, out, taken);
      }
    }
  }

  lemma {:induction false} ClearRespects(s: Subnet, c: nat, takens: seq<set<Addr>>)
    requires Validate(s) == Valid && Clears(s, StartOf(s)) && Clears(s, c) && StartOf(s) <= c <= Last(s.block)
    ensures s.block.base <= c && Respects(s, c, takens)
    decreases |takens|
  {
    ValidSubnetShape(s);
    if takens != [] {
      WalkStaysClear(s, c, false, takens[0]);
      var r := Walk(s, c, false, takens[0]);
      if !r.Crash? {
        ClearRespects(s, r.cursor, takens[1..]);
      }
    }
  }

  /** The cursors that passes lead to from a, as long as they are sound. */
  ghost predicate LeadsTo(s: Subnet, a: nat, c: nat)
    requires a <= Last(s.block)
    decreases Last(s.block) - a
  {
    a == c || (Sound(s, a) && NextCursor(s, a).Some? && a < NextCursor(s, a).value <= Last(s.block)
               && LeadsTo(s, NextCursor(s, a).value, c))
  }

  lemma {:induction false} LeadsOn(s: Subnet, a: nat, c: nat)
    requires a <= Last(s.block) && LeadsTo(s, a, c) && c <= Last(s.block) && Sound(s, c) && NextCursor(s, c).Some?
    ensures LeadsTo(s, a, NextCursor(s, c).value)
    decreases Last(s.block) - a
  {
    SoundPass(s, c);
    if a != c {
      LeadsOn(s, NextCursor(s, a).value, c);
    }
  }

  /** The reserved address that an uncleared cursor leads to. */
  ghost function Exposed(s: Subnet, c: nat): (v: nat)
    requires c <= Last(s.block) && !Clears(s, c)
    ensures v in ReservedValues(s)
    decreases Last(s.block) - c
  {
    ClearsStep(s, c);
    if !Sound(s, c) then
      UnsoundPass(s, c);
      Pass1(s, c).p.value
    else
      SoundPass(s, c);
      Exposed(s, NextCursor(s, c).value)
  }

  lemma {:induction false} SameExposed(s: Subnet, a: nat, c: nat)
    requires a <= Last(s.block) && c <= Last(s.block) && LeadsTo(s, a, c) && !Clears(s, c)
    ensures !Clears(s, a) && Exposed(s, a) == Exposed(s, c)
    decreases Last(s.block) - a
  {
    if a != c {
      ClearsStep(s, a);
      SameExposed(s, NextCursor(s, a).value, c);
    }
  }

  /** On its way from the start to an address that must not be handed out. */
  ghost predicate OnTheWay(s: Subnet, c: nat)
    requires StartOf(s) <= Last(s.block)
  {
    StartOf(s) <= c <= Last(s.block) && LeadsTo(s, StartOf(s), c) && !Clears(s, c)
  }

  /** After the wrap, the stop must come before that address. */
  ghost predicate StopAhead(s: Subnet, c: nat)
    requires c <= Last(s.block)
  {
    Stop(s).Some? && c < Stop(s).value <= Last(s.block) && LeadsTo(s, c, Stop(s).value) && !Clears(s, Stop(s).value)
  }

  lemma {:induction false} LeadsUp(s: Subnet, a: nat, c: nat)
    requires a <= Last(s.block) && LeadsTo(s, a, c)
    ensures a <= c
    decreases Last(s.block) - a
  {
    if a != c {
      LeadsUp(s, NextCursor(s, a).value, c);
    }
  }

  /** A sound cursor on the way leads to the next one on it, and past the stop only where the stop comes first. */
  lemma NextOnTheWay(s: Subnet, c: nat)
    requires StartOf(s) <= Last(s.block) && OnTheWay(s, c) && Sound(s, c)
    ensures NextCursor(s, c).Some? && c < NextCursor(s, c).value && OnTheWay(s, NextCursor(s, c).value)
    ensures StopAhead(s, c) && NextCursor(s, c) != Stop(s) ==> StopAhead(s, NextCursor(s, c).value)
  {
    ClearsStep(s, c);
    SoundPass(s, c);
    LeadsOn(s, StartOf(s), c);
    if StopAhead(s, c) {
      LeadsUp(s, NextCursor(s, c).value, Stop(s).value);
    }
  }

  /** What a call on the way does: hand out the exposed address, stay on the way, or stop on it at the stop. */
  ghost predicate Approaches(s: Subnet, c: nat, r: Outcome)
    requires StartOf(s) <= Last(s.block) && !Clears(s, StartOf(s))
  {
    match r
    case Crash => false
    case Got(a, next) => a == Exposed(s, StartOf(s)) || OnTheWay(s, next)
    case Out(next) => c < next && Some(next) == Stop(s) && OnTheWay(s, next)
  }

  lemma {:induction false} WalkApproaches(s: Subnet, c: nat, out: bool, taken: set<Addr>, from: nat)
    requires Validate(s) == Valid && StartOf(s) <= Last(s.block) && !Clears(s, StartOf(s)) && OnTheWay(s, c)
    requires FreeIn(s, Exposed(s, StartOf(s)), taken) && (out ==> StopAhead(s, c) && from < Stop(s).value)
    requires !out ==> from <= c
    ensures Approaches(s, from, Walk(s, c, out, taken))
    decreases !out, Last(s.block) - c
  {
    SameExposed(s, StartOf(s), c);
    ClearsStep(s, c);
    var pass := Pass1(s, c);
    if !Sound(s, c) {
      UnsoundPass(s, c);
    } else {
      NextOnTheWay(s, c);
      SoundPass(s, c);
      var next := NextCursor(s, c);
      if next != Stop(s) {
        WalkApproaches(s, next.value, out, taken, from);
      } else if !out {
        WalkApproaches(s, StartOf(s), true, taken, from);
      }
    }
  }

  /** On the way, with the exposed address still to be handed out. */
  ghost predicate Headed(s: Subnet, c: nat, taken: set<Addr>) {
    && Validate(s) == Valid && s.block.base <= StartOf(s) <= Last(s.block)
    && !Clears(s, StartOf(s)) && OnTheWay(s, c) && FreeIn(s, Exposed(s, StartOf(s)), taken)
  }

  /** Each call before that hands out another address, or stops and is past its stop. */
  ghost function Detour(s: Subnet, c: nat, taken: set<Addr>): nat {
    2 * Left(s, taken) + if Stop(s).Some? && c < Stop(s).value then 1 else 0
  }

  lemma CallApproaches(s: Subnet, c: nat, taken: set<Addr>)
    requires Headed(s, c, taken)
    ensures var r := Walk(s, c, false, taken);
      && !r.Crash? && s.block.base <= r.cursor <= Last(s.block)
      && (if r.Got? && r.addr == Exposed(s, StartOf(s)) then r.addr in ReservedValues(s)
          else Headed(s, r.cursor, Then(s, taken, r)) && Detour(s, r.cursor, Then(s, taken, r)) < Detour(s, c, taken))
  {
    WalkApproaches(s, c, false, taken, c);
    WalkStaysInBlock(s, c, false, taken);
    FewerLeft(s, c, taken);
  }

  /** Calls alone come to hand out the exposed address. */
  lemma AloneExposes(s: Subnet) returns (n: nat, q: Outcome)
    requires Validate(s) == Valid && s.block.base <= StartOf(s) <= Last(s.block) && !Clears(s, StartOf(s))
    ensures q.Got? && q.addr in ReservedValues(s) && q in Alone(s, StartOf(s), {}, n)
  {
    var P, D := (c: nat, taken: set<Addr>) => Headed(s, c, taken), (c: nat, taken: set<Addr>) => Detour(s, c, taken);
    var Goal := (r: Outcome) => r.Got? && r.addr in ReservedValues(s);
    forall c: nat, taken | P(c, taken)
      ensures s.block.base <= c <= Last(s.block)
      ensures var r := Walk(s, c, false, taken);
        Goal(r) || (!r.Crash? && P(r.cursor, Then(s, taken, r)) && D(r.cursor, Then(s, taken, r)) < D(c, taken))
    {
      CallApproaches(s, c, taken);
    }
    n, q := AloneComesTo(s, P, D, Goal, StartOf(s), {});
  }

  /** A new allocator's first n calls on an empty store, with nothing freed, hand out no reserved address. */
  ghost predicate RespectsAlone(s: Subnet, n: nat)
    requires Validate(s) == Valid && s.block.base <= StartOf(s) <= Last(s.block)
  {
    forall q :: q in Alone(s, StartOf(s), {}, n) && q.Got? ==> q.addr !in ReservedValues(s)
  }

  lemma {:induction false} AloneRespects(s: Subnet, c: nat, taken: set<Addr>, n: nat)
    requires Validate(s) == Valid && s.block.base <= c <= Last(s.block)
    requires Respects(s, c, Stores(s, c, taken, n))
    ensures forall q :: q in Alone(s, c, taken, n) && q.Got? ==> q.addr !in ReservedValues(s)
    decreases n
  {
    if n > 0 {
      var r := Walk(s, c, false, taken);
      StoresStep(s, c, taken, n);
      if !r.Crash? {
        AloneRespects(s, r.cursor, Then(s, taken, r), n - 1);
      }
    }
  }

  lemma UnclearedExposes(s: Subnet) returns (n: nat)
    requires Validate(s) == Valid && s.block.base <= StartOf(s) <= Last(s.block) && !Clears(s, StartOf(s))
    ensures !RespectsAlone(s, n) && !Respects(s, StartOf(s), Stores(s, StartOf(s), {}, n))
  {
    var q;
    n, q := AloneExposes(s);
    if Respects(s, StartOf(s), Stores(s, StartOf(s), {}, n)) {
      AloneRespects(s, StartOf(s), {}, n);
    }
  }

  /**
   * For any valid subnet: no run of a new allocator's calls, exhaustion reports included, hands out a reserved
   * address exactly under this condition on the list, whether the store content is arbitrary at each call or only the
   * calls' own doing.
   */
  lemma NoRunHandsOutReservedIff(s: Subnet)
    requires Validate(s) == Valid
    ensures s.block.base <= StartOf(s) <= Last(s.block)
    ensures (forall takens :: Respects(s, StartOf(s), takens)) <==> Clears(s, StartOf(s))
    ensures (forall n: nat :: RespectsAlone(s, n)) <==> Clears(s, StartOf(s))
  {
    ValidSubnetShape(s);
    if Clears(s, StartOf(s)) {
      forall takens ensures Respects(s, StartOf(s), takens) {
        ClearRespects(s, StartOf(s), takens);
      }
      forall n: nat ensures RespectsAlone(s, n) {
        AloneRespects(s, StartOf(s), {}, n);
      }
    } else {
      var n := UnclearedExposes(s);
      assert !RespectsAlone(s, n);
      var takens := Stores(s, StartOf(s), {}, n);
      assert !Respects(s, StartOf(s), takens);
    }
  }

  /** Every cursor's clearing is enough, and more than is needed. */
  lemma {:induction false} ListedClears(s: Subnet, c: nat)
    requires Listed(s) && StartOf(s) <= c <= Last(s.block)
    ensures Clears(s, c)
    decreases Last(s.block) - c
  {
    EveryPassLandsIff(StartOf(s), Last(s.block), ReservedValues(s));
    PassLandsIff(Last(s.block), ReservedValues(s), c);
    forall y: nat | c < y <= Last(s.block) ensures Clears(s, y) {
      ListedClears(s, y);
    }
  }

  /** Addresses 0 to 7 with 6, 4 and 5 reserved in this order. */
  function SkippingSubnet(): Subnet {
    Subnet(Block(IPv4, 0, 3), None, None, [Addr(IPv4, 6), Addr(IPv4, 4), Addr(IPv4, 5)])
  }

  /**
   * Its reserved run is misordered, but every pass enters it from 3 and leaves the cursor on 6, so no run exposes it.
   */
  lemma MisorderedMayBeUnexposed()
    ensures var s := SkippingSubnet();
      && Validate(s) == Valid && StartOf(s) <= Last(s.block) && !Listed(s)
      && forall takens :: Respects(s, StartOf(s), takens)
  {
    var s := SkippingSubnet();
    var rs: seq<nat> := [6, 4, 5];
    assert Pow2(1) == 2 && Pow2(2) == 4 && Pow2(3) == 8;
    ValidateAcceptsIff(s);
    assert ReservedValues(s) == rs;
    MisorderedRun();
    assert RunStart(0, rs, 4);
    SkippingClears();
    NoRunHandsOutReservedIff(s);
  }

  lemma MisorderedRun()
    ensures var rs: seq<nat> := [6, 4, 5]; RunEnd(7, rs, 4) == 7 && !RunListed(rs, 4, 7)
  {
    var rs: seq<nat> := [6, 4, 5];
    assert NextFree(7, rs, 4) == NextFree(7, rs, 5) == NextFree(7, rs, 6) == NextFree(7, rs, 7) == Some(7);
    if RunListed(rs, 4, 7) {
      var at :| RunAt(rs, 4, 7, at);
      PositionsOf(at);
    }
  }

  lemma PositionsOf(at: seq<nat>)
    requires |at| == 3 && forall i :: 0 <= i < 3 ==> at[i] < 3 && [6, 4, 5][at[i]] == 4 + i
    ensures at[0] == 1 && at[1] == 2 && at[2] == 0
  {
  }

  lemma SkippingNext()
    ensures var s := SkippingSubnet();
      && Last(s.block) == 7 && ReservedValues(s) == [6, 4, 5]
      && NextCursor(s, 0) == Some(1) && NextCursor(s, 1) == Some(2) && NextCursor(s, 2) == Some(3)
      && NextCursor(s, 3) == Some(6) && NextCursor(s, 6) == None
  {
    var rs: seq<nat> := [6, 4, 5];
    assert Pow2(1) == 2 && Pow2(2) == 4 && Pow2(3) == 8;
    assert ReservedValues(SkippingSubnet()) == rs;
    assert rs[1..] == [4, 5] && [4, 5][1..] == [5] && [5][1..] == [];
  }

  lemma SkippingClears()
    ensures Clears(SkippingSubnet(), 0)
  {
    var s := SkippingSubnet();
    SkippingNext();
    var rs: seq<nat> := [6, 4, 5];
    assert NextFree(7, rs, 6) == NextFree(7, rs, 7) == Some(7);
    assert RunAt(rs, 6, 7, [0]);
    ClearsStep(s, 6);
    ClearsStep(s, 3);
    ClearsStep(s, 2);
    ClearsStep(s, 1);
    ClearsStep(s, 0);
  }
}
