/** Whole runs of one subnet's allocator: enumeration, exhaustion, and what exhaustion does to later calls. */
module Exhaustion {
  import opened Util
  import opened Address
  import opened Config
  import opened ReservedScan
  import opened RoundRobin

  /** A call dereferences a nil position exactly when nothing unreserved is left from the cursor on. */
  lemma CrashIff(s: Subnet, cursor: nat, taken: set<Addr>)
    requires Validate(s) == Valid && Orderly(s) && StartOf(s) <= cursor <= Last(s.block)
    ensures Walk(s, cursor, false, taken).Crash? <==> NextFree(Last(s.block), ReservedValues(s), cursor).None?
  {
    OrderlyPass(s, cursor);
    if NextFree(Last(s.block), ReservedValues(s), cursor).Some? {
      NoCrash(s, cursor, false, taken);
    }
  }

  lemma {:induction false} NoCrash(s: Subnet, cursor: nat, out: bool, taken: set<Addr>)
    requires Validate(s) == Valid && Orderly(s) && StartOf(s) <= cursor <= Last(s.block)
    requires NextFree(Last(s.block), ReservedValues(s), cursor).Some?
    ensures !Walk(s, cursor, out, taken).Crash?
    decreases !out, Last(s.block) - cursor
  {
    ValidSubnetShape(s);
    var last, rs := Last(s.block), ReservedValues(s);
    OrderlyPass(s, cursor);
    var p, next := NextFree(last, rs, cursor).value, Pass1(s, cursor).next;
    if Turns(s, next) {
      if !out && !FreeIn(s, p, taken) {
        assert NextFree(last, rs, StartOf(s)).Some?;
        NoCrash(s, StartOf(s), true, taken);
      }
    } else if !FreeIn(s, p, taken) {
      NextFreeFrom(last, rs, next.value, next.value);
      NoCrash(s, next.value, out, taken);
    }
  }

  /** The outcomes of up to n calls, each address staying taken; the run ends at the first refusal. */
  ghost function Repeat(s: Subnet, cursor: nat, taken: set<Addr>, n: nat): seq<Outcome>
    requires Validate(s) == Valid && s.block.base <= cursor <= Last(s.block)
    decreases n
  {
    if n == 0 then []
    else
      var r := Walk(s, cursor, false, taken);
      WalkStaysInBlock(s, cursor, false, taken);
      if r.Got? then [r] + Repeat(s, r.cursor, taken + {ToAddr(s, r.addr)}, n - 1) else [r]
  }

  ghost predicate Lists(s: Subnet, i: nat, rs: seq<Outcome>)
    requires i <= |Ring(s)|
  {
    && |rs| == |Ring(s)| - i + 1
    && (forall k :: 0 <= k < |rs| - 1 ==> rs[k].Got? && rs[k].addr == Ring(s)[i + k])
    && rs[|rs| - 1].Out?
  }

  /** Exactly the ring entries before i are taken. */
  ghost predicate TakenBefore(s: Subnet, i: nat, taken: set<Addr>) {
    forall k :: 0 <= k < |Ring(s)| ==> (FreeIn(s, Ring(s)[k], taken) <==> i <= k)
  }

  lemma TakeNext(s: Subnet, i: nat, taken: set<Addr>)
    requires i < |Ring(s)| && TakenBefore(s, i, taken)
    ensures TakenBefore(s, i + 1, taken + {ToAddr(s, Ring(s)[i])})
  {
    var l, more := Ring(s), taken + {ToAddr(s, Ring(s)[i])};
    forall k | 0 <= k < |l| ensures FreeIn(s, l[k], more) <==> i + 1 <= k {
      if k < i {
        RingOrder(s, k, i);
      } else if i < k {
        RingOrder(s, i, k);
      }
    }
  }

  lemma FirstFreeIsNext(s: Subnet, i: nat, taken: set<Addr>)
    requires i <= |Ring(s)| && TakenBefore(s, i, taken)
    ensures i < |Ring(s)| ==> CyclicFree(s, i, taken) == Some(i)
    ensures i == |Ring(s)| ==> CyclicFree(s, 0, taken) == None
  {
  }

  lemma ListsCons(s: Subnet, i: nat, r: Outcome, rest: seq<Outcome>)
    requires i < |Ring(s)| && r.Got? && r.addr == Ring(s)[i] && Lists(s, i + 1, rest)
    ensures Lists(s, i, [r] + rest)
  {
    var rs := [r] + rest;
    forall k | 0 <= k < |rs| - 1 ensures rs[k].Got? && rs[k].addr == Ring(s)[i + k] {
      assert k > 0 ==> rs[k] == rest[k - 1];
    }
  }

  lemma {:induction false} RepeatLists(s: Subnet, cursor: nat, i: nat, taken: set<Addr>, n: nat)
    requires Validate(s) == Valid && Orderly(s) && TurnsAtEnd(s)
    requires i <= |Ring(s)| && AtIndex(s, cursor, if i == |Ring(s)| then 0 else i)
    requires TakenBefore(s, i, taken)
    requires n > |Ring(s)| - i
    ensures s.block.base <= cursor <= Last(s.block) && Lists(s, i, Repeat(s, cursor, taken, n))
    decreases |Ring(s)| - i
  {
    ValidSubnetShape(s);
    var at := if i == |Ring(s)| then 0 else i;
    FirstFreeIsNext(s, i, taken);
    WalkIsRoundRobin(s, cursor, at, taken);
    var r := Walk(s, cursor, false, taken);
    if i < |Ring(s)| {
      var more := taken + {ToAddr(s, Ring(s)[i])};
      TakeNext(s, i, taken);
      RepeatLists(s, r.cursor, i + 1, more, n - 1);
      assert Repeat(s, cursor, taken, n) == [r] + Repeat(s, r.cursor, more, n - 1);
      ListsCons(s, i, r, Repeat(s, r.cursor, more, n - 1));
    } else {
      assert r.Out?;
      assert Repeat(s, cursor, taken, n) == [r];
    }
  }

  /** From an empty store the calls hand out the allowed addresses, each once, ascending, and then report exhaustion. */
  lemma EnumeratesRing(s: Subnet, n: nat)
    requires Validate(s) == Valid && Orderly(s) && TurnsAtEnd(s) && Ring(s) != []
    requires n > |Ring(s)|
    ensures s.block.base <= StartOf(s) <= Last(s.block)
    ensures var rs := Repeat(s, StartOf(s), {}, n);
      && |rs| == |Ring(s)| + 1 && rs[|rs| - 1].Out?
      && (forall k :: 0 <= k < |rs| - 1 ==> rs[k].Got? && Allowed(s, rs[k].addr))
      && (forall j, k :: 0 <= j < k < |rs| - 1 ==> rs[j].addr < rs[k].addr)
      && (forall v :: Allowed(s, v) ==> exists k :: 0 <= k < |rs| - 1 && rs[k].addr == v)
  {
    StartIsIndexZero(s);
    RepeatLists(s, StartOf(s), 0, {}, n);
    var rs := Repeat(s, StartOf(s), {}, n);
    forall k | 0 <= k < |rs| - 1 ensures rs[k].Got? && Allowed(s, rs[k].addr) {
      RingEntry(s, k);
    }
    forall j, k | 0 <= j < k < |rs| - 1 ensures rs[j].addr < rs[k].addr {
      RingOrder(s, j, k);
    }
    forall v | Allowed(s, v) ensures exists k :: 0 <= k < |rs| - 1 && rs[k].addr == v {
      var k := RingIndex(s, v);
      assert rs[k].addr == v;
    }
  }

  /**
   * Successive calls, with any store content at each of them, hand out only allowed addresses and never crash;
   * with `past` the run goes on after an exhaustion report.
   */
  ghost predicate InRange(s: Subnet, cursor: nat, takens: seq<set<Addr>>, past: bool)
    requires Validate(s) == Valid && s.block.base <= cursor <= Last(s.block)
    decreases |takens|
  {
    if takens == [] then true
    else
      var r := Walk(s, cursor, false, takens[0]);
      WalkStaysInBlock(s, cursor, false, takens[0]);
      match r
      case Crash => false
      case Out(c) => past ==> InRange(s, c, takens[1..], past)
      case Got(a, c) => Allowed(s, a) && InRange(s, c, takens[1..], past)
  }

  ghost function AllOf(s: Subnet): set<Addr> {
    set k | 0 <= k < |Ring(s)| :: ToAddr(s, Ring(s)[k])
  }

  lemma AllOfTakesAll(s: Subnet, v: nat)
    ensures Allowed(s, v) <==> !FreeIn(s, v, AllOf(s))
  {
    if Allowed(s, v) {
      var k := RingIndex(s, v);
      assert ToAddr(s, Ring(s)[k]) in AllOf(s);
    } else if !FreeIn(s, v, AllOf(s)) {
      var k :| 0 <= k < |Ring(s)| && ToAddr(s, v) == ToAddr(s, Ring(s)[k]);
      RingEntry(s, k);
    }
  }

  lemma AllOfExhausts(s: Subnet)
    requires Validate(s) == Valid && Orderly(s) && Ring(s) != [] && TurnsAtEnd(s)
    ensures StartOf(s) <= Last(s.block) && Walk(s, StartOf(s), false, AllOf(s)) == Out(OutCursor(s))
  {
    StartIsIndexZero(s);
    WalkIsRoundRobin(s, StartOf(s), 0, AllOf(s));
    forall k | 0 <= k < |Ring(s)| ensures !FreeIn(s, Ring(s)[k], AllOf(s)) {
      RingEntry(s, k);
      AllOfTakesAll(s, Ring(s)[k]);
    }
  }

  lemma {:induction false} InRangeHolds(s: Subnet, cursor: nat, i: nat, takens: seq<set<Addr>>, past: bool)
    requires Validate(s) == Valid && Orderly(s) && TurnsAtEnd(s) && AtIndex(s, cursor, i)
    requires past ==> AtIndex(s, OutCursor(s), |Ring(s)| - 1)
    ensures s.block.base <= cursor <= Last(s.block) && InRange(s, cursor, takens, past)
    decreases |takens|
  {
    ValidSubnetShape(s);
    PassAtIndex(s, cursor, i);
    if takens != [] {
      WalkIsRoundRobin(s, cursor, i, takens[0]);
      match CyclicFree(s, i, takens[0])
      case Some(j) =>
        RingEntry(s, j);
        InRangeHolds(s, Walk(s, cursor, false, takens[0]).cursor, After(s, j), takens[1..], past);
      case None =>
        if past {
          InRangeHolds(s, OutCursor(s), |Ring(s)| - 1, takens[1..], past);
        }
    }
  }

  /** When the walk does not turn at the range's end, it goes on past it once the range is taken. */
  lemma {:induction false} RunsPastEnd(s: Subnet, cursor: nat, i: nat)
    requires Validate(s) == Valid && Orderly(s) && AtIndex(s, cursor, i) && !TurnsAtEnd(s)
    ensures cursor <= Last(s.block)
    ensures var r := Walk(s, cursor, false, AllOf(s)); r.Got? && !Allowed(s, r.addr)
    decreases |Ring(s)| - i
  {
    ValidSubnetShape(s);
    PassAtIndex(s, cursor, i);
    var l := Ring(s);
    RingEntry(s, i);
    AllOfTakesAll(s, l[i]);
    if i + 1 < |l| {
      NextIndex(s, i);
      StopBeyondRing(s, i + 1);
      RunsPastEnd(s, l[i + 1], i + 1);
    } else {
      var n := Follower(s, i).value;
      OrderlyPass(s, n);
      NextFreeFrom(Last(s.block), ReservedValues(s), n, n);
      AllOfTakesAll(s, n);
    }
  }

  lemma EmptyRingLeavesRange(s: Subnet)
    requires Validate(s) == Valid && Orderly(s) && Ring(s) == []
    ensures StartOf(s) <= Last(s.block)
    ensures var r := Walk(s, StartOf(s), false, {}); !r.Out? && (r.Got? ==> !Allowed(s, r.addr))
  {
    ValidSubnetShape(s);
    forall v ensures !Allowed(s, v) {
      if Allowed(s, v) {
        var k := RingIndex(s, v);
      }
    }
    OrderlyPass(s, StartOf(s));
  }

  lemma FirstRoundLeavesRange(s: Subnet) returns (takens: seq<set<Addr>>)
    requires Validate(s) == Valid && Orderly(s) && (Ring(s) == [] || !TurnsAtEnd(s))
    ensures s.block.base <= StartOf(s) <= Last(s.block) && !InRange(s, StartOf(s), takens, false)
  {
    ValidSubnetShape(s);
    if Ring(s) == [] {
      EmptyRingLeavesRange(s);
      takens := [{}];
    } else {
      StartIsIndexZero(s);
      RunsPastEnd(s, StartOf(s), 0);
      takens := [AllOf(s)];
    }
  }

  /** Addresses 0 to 7 with a range that ends at 3, and 4 reserved. */
  function OpenEndedSubnet(): Subnet {
    Subnet(Block(IPv4, 0, 3), None, Some(Addr(IPv4, 3)), [Addr(IPv4, 4)])
  }

  lemma OpenEndedShape()
    ensures var s := OpenEndedSubnet();
      && Validate(s) == Valid && ReservedValues(s) == [4] && Last(s.block) == 7 && StartOf(s) == 0 && EndOf(s) == 3
      && Stop(s) == Some(4)
      && forall c: nat | c <= 5 && c != 4 :: Pass1(s, c) == At(Some(c), Some(if c == 3 then 5 else c + 1))
  {
    var s := OpenEndedSubnet();
    assert Pow2(1) == 2 && Pow2(2) == 4 && Pow2(3) == 8;
    ValidateAcceptsIff(s);
    assert ReservedValues(s) == [4];
    forall c: nat | c <= 5 && c != 4 ensures Pass1(s, c) == At(Some(c), Some(if c == 3 then 5 else c + 1)) {
      PassFindsNextTwo(7, [4], c);
      assert NextFree(7, [4], c) == Some(c);
      assert NextFree(7, [4], 5) == Some(5);
      assert NextFree(7, [4], c + 1) == Some(if c == 3 then 5 else c + 1);
    }
  }

  lemma OpenEndedTaken(v: nat)
    ensures !FreeIn(OpenEndedSubnet(), v, AllOf(OpenEndedSubnet())) <==> v <= 3
  {
    OpenEndedShape();
    AllOfTakesAll(OpenEndedSubnet(), v);
  }

  /** With exactly the range taken, the walk goes past its end without reporting exhaustion, and hands out 5. */
  lemma RangeIsLeftBeforeExhaustion()
    ensures var s := OpenEndedSubnet();
      && Validate(s) == Valid && Ascending(ReservedValues(s)) && StartOf(s) == 0 && EndOf(s) == 3 < Last(s.block)
      && (forall v: nat :: ToAddr(s, v) in AllOf(s) <==> v <= 3)
      && Walk(s, StartOf(s), false, AllOf(s)) == Got(5, 6)
  {
    var s := OpenEndedSubnet();
    OpenEndedShape();
    forall v: nat ensures ToAddr(s, v) in AllOf(s) <==> v <= 3 {
      OpenEndedTaken(v);
    }
    assert Walk(s, 5, false, AllOf(s)) == Got(5, 6);
    assert Walk(s, 3, false, AllOf(s)) == Got(5, 6);
    assert Walk(s, 2, false, AllOf(s)) == Got(5, 6);
    assert Walk(s, 1, false, AllOf(s)) == Got(5, 6);
  }

  /** Up to the first exhaustion report, a run stays in range exactly for these configurations. */
  lemma FirstRoundInRangeIff(s: Subnet)
    requires Validate(s) == Valid && Orderly(s)
    ensures s.block.base <= StartOf(s) <= Last(s.block)
    ensures (forall takens :: InRange(s, StartOf(s), takens, false)) <==> Ring(s) != [] && TurnsAtEnd(s)
  {
    ValidSubnetShape(s);
    if Ring(s) != [] && TurnsAtEnd(s) {
      StartIsIndexZero(s);
      forall takens ensures InRange(s, StartOf(s), takens, false) {
        InRangeHolds(s, StartOf(s), 0, takens, false);
      }
    } else {
      var takens := FirstRoundLeavesRange(s);
    }
  }

  ghost predicate EndsOnFreeLast(s: Subnet) {
    EndOf(s) == Last(s.block) && Last(s.block) !in ReservedValues(s)
  }

  /** Exhaustion leaves the cursor on the ring exactly when the range ends on an unreserved last address. */
  lemma ExhaustionKeepsIndexIff(s: Subnet)
    requires Validate(s) == Valid && Orderly(s) && Ring(s) != [] && TurnsAtEnd(s)
    ensures (exists i :: AtIndex(s, OutCursor(s), i)) <==> EndsOnFreeLast(s)
    ensures EndsOnFreeLast(s) ==> AtIndex(s, OutCursor(s), |Ring(s)| - 1)
  {
    ValidSubnetShape(s);
    var l := Ring(s);
    if EndsOnFreeLast(s) {
      var k := RingIndex(s, Last(s.block));
      RingEntry(s, |l| - 1);
      if k < |l| - 1 {
        RingOrder(s, k, |l| - 1);
      }
      if |l| > 1 {
        RingOrder(s, |l| - 2, |l| - 1);
      }
      assert AtIndex(s, OutCursor(s), |l| - 1);
    } else {
      forall i: nat ensures !AtIndex(s, OutCursor(s), i) {
        if i < |l| {
          RingEntry(s, i);
        }
      }
    }
  }

  lemma {:induction false} PastImpliesFirst(s: Subnet, cursor: nat, takens: seq<set<Addr>>)
    requires Validate(s) == Valid && s.block.base <= cursor <= Last(s.block) && InRange(s, cursor, takens, true)
    ensures InRange(s, cursor, takens, false)
    decreases |takens|
  {
    if takens != [] {
      WalkStaysInBlock(s, cursor, false, takens[0]);
      var r := Walk(s, cursor, false, takens[0]);
      if r.Got? {
        PastImpliesFirst(s, r.cursor, takens[1..]);
      }
    }
  }

  /** Once exhausted elsewhere than on an unreserved last address, the next call leaves the range or crashes. */
  lemma SecondRoundFails(s: Subnet)
    requires Validate(s) == Valid && Orderly(s) && Ring(s) != [] && TurnsAtEnd(s)
    requires !EndsOnFreeLast(s)
    ensures s.block.base <= StartOf(s) <= Last(s.block)
    ensures !InRange(s, StartOf(s), [AllOf(s), {}], true)
  {
    ValidSubnetShape(s);
    AllOfExhausts(s);
    var c, last := OutCursor(s), Last(s.block);
    WalkStaysInBlock(s, StartOf(s), false, AllOf(s));
    OrderlyPass(s, c);
    var r := Walk(s, c, false, {});
    assert r.Crash? || (r.Got? && !Allowed(s, r.addr));
    assert [AllOf(s), {}][1..] == [{}];
    assert !InRange(s, c, [{}], true);
  }

  lemma FreeLastTurns(s: Subnet)
    requires Validate(s) == Valid && EndsOnFreeLast(s)
    ensures Ring(s) != [] && TurnsAtEnd(s)
  {
    ValidSubnetShape(s);
    var k := RingIndex(s, Last(s.block));
  }

  lemma FreeLastStaysInRange(s: Subnet, takens: seq<set<Addr>>)
    requires Validate(s) == Valid && Orderly(s) && EndsOnFreeLast(s)
    ensures s.block.base <= StartOf(s) <= Last(s.block) && InRange(s, StartOf(s), takens, true)
  {
    FreeLastTurns(s);
    ExhaustionKeepsIndexIff(s);
    StartIsIndexZero(s);
    InRangeHolds(s, StartOf(s), 0, takens, true);
  }

  lemma OtherwiseLeavesRange(s: Subnet) returns (takens: seq<set<Addr>>)
    requires Validate(s) == Valid && Orderly(s) && !EndsOnFreeLast(s)
    ensures s.block.base <= StartOf(s) <= Last(s.block) && !InRange(s, StartOf(s), takens, true)
  {
    ValidSubnetShape(s);
    if Ring(s) != [] && TurnsAtEnd(s) {
      SecondRoundFails(s);
      takens := [AllOf(s), {}];
    } else {
      takens := FirstRoundLeavesRange(s);
      if InRange(s, StartOf(s), takens, true) {
        PastImpliesFirst(s, StartOf(s), takens);
      }
    }
  }

  /** A run stays in range for ever, and never crashes, exactly when the range ends at an unreserved last address. */
  lemma EveryRoundInRangeIff(s: Subnet)
    requires Validate(s) == Valid && Orderly(s)
    ensures s.block.base <= StartOf(s) <= Last(s.block)
    ensures (forall takens :: InRange(s, StartOf(s), takens, true)) <==> EndsOnFreeLast(s)
  {
    ValidSubnetShape(s);
    if EndsOnFreeLast(s) {
      forall takens ensures InRange(s, StartOf(s), takens, true) {
        FreeLastStaysInRange(s, takens);
      }
    } else {
      var takens := OtherwiseLeavesRange(s);
    }
  }

  /** Some address is unreserved from the cursor on. */
  ghost predicate Alive(s: Subnet, cursor: nat) {
    StartOf(s) <= cursor <= Last(s.block) && NextFree(Last(s.block), ReservedValues(s), cursor).Some?
  }

  /**
   * As the configuration shows it: the last address is unreserved, or the range has an allowed address and ends before
   * the last address with an unreserved one after it.
   */
  ghost predicate NeverStuck(s: Subnet) {
    || Last(s.block) !in ReservedValues(s)
    || ((exists v :: Allowed(s, v)) && EndOf(s) < Last(s.block) && EndOf(s) + 1 !in ReservedValues(s))
  }

  lemma NeverStuckStarts(s: Subnet)
    requires Validate(s) == Valid && NeverStuck(s)
    ensures Alive(s, StartOf(s))
    ensures Last(s.block) in ReservedValues(s) ==> Ring(s) != [] && Stop(s) == Some(EndOf(s) + 1)
    ensures Last(s.block) in ReservedValues(s) ==>
      TurnsAtEnd(s) && NextFree(Last(s.block), ReservedValues(s), EndOf(s) + 1) == Some(EndOf(s) + 1)
  {
    ValidSubnetShape(s);
    if Last(s.block) in ReservedValues(s) {
      var v :| Allowed(s, v);
      var k := RingIndex(s, v);
    }
  }

  /** On the way back from the wrap, where the walk must find its stop before it runs out of addresses. */
  ghost predicate Returning(s: Subnet, cursor: nat, out: bool) {
    out && Last(s.block) in ReservedValues(s) ==> exists i :: AtIndex(s, cursor, i)
  }

  lemma RingMovesOn(s: Subnet, cursor: nat, i: nat)
    requires Validate(s) == Valid && Orderly(s) && AtIndex(s, cursor, i)
    requires Stop(s) == Some(EndOf(s) + 1)
    requires NextFree(Last(s.block), ReservedValues(s), EndOf(s) + 1) == Some(EndOf(s) + 1)
    ensures cursor <= Last(s.block)
    ensures var pass := Pass1(s, cursor);
      && pass.At? && pass.next.Some?
      && (Turns(s, pass.next) || (i + 1 < |Ring(s)| && AtIndex(s, pass.next.value, i + 1)))
  {
    PassAtIndex(s, cursor, i);
    if i + 1 < |Ring(s)| {
      NextIndex(s, i);
    }
  }

  lemma ReturningMovesOn(s: Subnet, cursor: nat)
    requires Validate(s) == Valid && Orderly(s) && NeverStuck(s) && Alive(s, cursor)
    requires Last(s.block) in ReservedValues(s) && Returning(s, cursor, true)
    ensures var pass := Pass1(s, cursor);
      pass.At? && pass.next.Some? && (Turns(s, pass.next) || Returning(s, pass.next.value, true))
  {
    NeverStuckStarts(s);
    var i :| AtIndex(s, cursor, i);
    RingMovesOn(s, cursor, i);
  }

  lemma NextStaysAlive(s: Subnet, cursor: nat)
    requires Validate(s) == Valid && Orderly(s) && Alive(s, cursor)
    ensures var p := NextFree(Last(s.block), ReservedValues(s), cursor).value;
      var next := NextFree(Last(s.block), ReservedValues(s), p + 1);
      Pass1(s, cursor) == At(Some(p), next) && (next.Some? ==> cursor < next.value && Alive(s, next.value))
  {
    ValidSubnetShape(s);
    OrderlyPass(s, cursor);
  }

  /** No call gets stuck, and none leaves the cursor where a later one would. */
  lemma {:induction false} CallStaysAlive(s: Subnet, cursor: nat, out: bool, taken: set<Addr>)
    requires Validate(s) == Valid && Orderly(s) && NeverStuck(s) && Alive(s, cursor) && Returning(s, cursor, out)
    ensures var r := Walk(s, cursor, out, taken); !r.Crash? && Alive(s, r.cursor)
    decreases !out, Last(s.block) - cursor
  {
    NextStaysAlive(s, cursor);
    NeverStuckStarts(s);
    var pass := Pass1(s, cursor);
    if out && Last(s.block) in ReservedValues(s) {
      ReturningMovesOn(s, cursor);
    }
    if Turns(s, pass.next) {
      if out {
        LastIsAlive(s);
      } else {
        if Ring(s) != [] {
          StartIsIndexZero(s);
        }
        CallStaysAlive(s, StartOf(s), true, taken);
      }
    } else {
      CallStaysAlive(s, pass.next.value, out, taken);
    }
  }

  lemma LastIsAlive(s: Subnet)
    requires Validate(s) == Valid
    ensures Last(s.block) !in ReservedValues(s) ==> Alive(s, Last(s.block))
  {
    ValidSubnetShape(s);
  }

  /** The stop position is never the next one on the way from the cursor to the end of the block. */
  ghost predicate Missed(s: Subnet, cursor: nat) {
    var n := NextFree(Last(s.block), ReservedValues(s), cursor);
    Stop(s).None? || Stop(s).value in ReservedValues(s) || (n.Some? && Stop(s).value <= n.value)
  }

  ghost function WholeBlock(s: Subnet): set<Addr> {
    set v: nat | s.block.base <= v <= Last(s.block) :: ToAddr(s, v)
  }

  /** A walk that misses its stop gives up only when it has reached the block's last address. */
  lemma {:induction false} RestsOnLast(s: Subnet, cursor: nat, out: bool, taken: set<Addr>)
    requires Validate(s) == Valid && Orderly(s) && Alive(s, cursor)
    requires Missed(s, cursor) && Missed(s, StartOf(s))
    ensures var r := Walk(s, cursor, out, taken);
      !r.Crash? && (r.Out? ==> r.cursor == Last(s.block)) && (r.Got? ==> Alive(s, r.cursor) && Missed(s, r.cursor))
    decreases !out, Last(s.block) - cursor
  {
    NextStaysAlive(s, cursor);
    var p, next := NextFree(Last(s.block), ReservedValues(s), cursor).value, Pass1(s, cursor).next;
    if next.None? {
      if !out {
        RestsOnLast(s, StartOf(s), true, taken);
      }
    } else {
      assert !Turns(s, next) && Missed(s, next.value);
      RestsOnLast(s, next.value, out, taken);
    }
  }

  /** Successive calls, with any store content at each of them, never dereference a nil position. */
  ghost predicate StaysDefined(s: Subnet, cursor: nat, takens: seq<set<Addr>>)
    requires Validate(s) == Valid && s.block.base <= cursor <= Last(s.block)
    decreases |takens|
  {
    if takens == [] then true
    else
      var r := Walk(s, cursor, false, takens[0]);
      WalkStaysInBlock(s, cursor, false, takens[0]);
      !r.Crash? && StaysDefined(s, r.cursor, takens[1..])
  }

  lemma {:induction false} AliveStaysDefined(s: Subnet, cursor: nat, takens: seq<set<Addr>>)
    requires Validate(s) == Valid && Orderly(s) && NeverStuck(s) && Alive(s, cursor)
    ensures s.block.base <= cursor && StaysDefined(s, cursor, takens)
    decreases |takens|
  {
    ValidSubnetShape(s);
    if takens != [] {
      CallStaysAlive(s, cursor, false, takens[0]);
      AliveStaysDefined(s, Walk(s, cursor, false, takens[0]).cursor, takens[1..]);
    }
  }

  lemma StuckMissesStop(s: Subnet)
    requires Validate(s) == Valid && !NeverStuck(s) && Alive(s, StartOf(s))
    ensures Missed(s, StartOf(s))
  {
    ValidSubnetShape(s);
    var n := NextFree(Last(s.block), ReservedValues(s), StartOf(s)).value;
    if EndOf(s) < Last(s.block) && EndOf(s) + 1 !in ReservedValues(s) {
      assert !Allowed(s, n);
    }
  }

  /**
   * The outcomes of n calls on a store that nothing else touches and from which nothing is freed; a crash ends them.
   */
  ghost function Alone(s: Subnet, cursor: nat, taken: set<Addr>, n: nat): seq<Outcome>
    requires Validate(s) == Valid && s.block.base <= cursor <= Last(s.block)
    decreases n
  {
    if n == 0 then []
    else
      var r := Walk(s, cursor, false, taken);
      WalkStaysInBlock(s, cursor, false, taken);
      [r] + if r.Crash? then [] else Alone(s, r.cursor, Then(s, taken, r), n - 1)
  }

  function Then(s: Subnet, taken: set<Addr>, r: Outcome): set<Addr> {
    if r.Got? then taken + {ToAddr(s, r.addr)} else taken
  }

  /** The store content that each of these calls finds. */
  ghost function Stores(s: Subnet, cursor: nat, taken: set<Addr>, n: nat): seq<set<Addr>>
    requires Validate(s) == Valid && s.block.base <= cursor <= Last(s.block)
    decreases n
  {
    if n == 0 then []
    else
      var r := Walk(s, cursor, false, taken);
      WalkStaysInBlock(s, cursor, false, taken);
      [taken] + if r.Crash? then [] else Stores(s, r.cursor, Then(s, taken, r), n - 1)
  }

  /** Such calls are one of the runs on arbitrary stores. */
  lemma {:induction false} AloneIsARun(s: Subnet, cursor: nat, taken: set<Addr>, n: nat)
    requires Validate(s) == Valid && s.block.base <= cursor <= Last(s.block)
    requires StaysDefined(s, cursor, Stores(s, cursor, taken, n))
    ensures Crash !in Alone(s, cursor, taken, n)
    decreases n
  {
    if n > 0 {
      var r := Walk(s, cursor, false, taken);
      StoresStep(s, cursor, taken, n);
      assert !r.Crash?;
      AloneIsARun(s, r.cursor, Then(s, taken, r), n - 1);
    }
  }

  lemma StoresStep(s: Subnet, cursor: nat, taken: set<Addr>, n: nat)
    requires Validate(s) == Valid && s.block.base <= cursor <= Last(s.block) && n > 0
    ensures var r, stores := Walk(s, cursor, false, taken), Stores(s, cursor, taken, n);
      && stores != [] && stores[0] == taken
      && (!r.Crash? ==>
            && s.block.base <= r.cursor <= Last(s.block)
            && stores[1..] == Stores(s, r.cursor, Then(s, taken, r), n - 1)
            && Alone(s, cursor, taken, n) == [r] + Alone(s, r.cursor, Then(s, taken, r), n - 1))
  {
    WalkStaysInBlock(s, cursor, false, taken);
  }

  ghost function Left(s: Subnet, taken: set<Addr>): nat {
    |WholeBlock(s) - taken|
  }

  /** What is left of the block gets smaller with every address handed out. */
  lemma FewerLeft(s: Subnet, cursor: nat, taken: set<Addr>)
    requires Validate(s) == Valid && s.block.base <= cursor <= Last(s.block)
    ensures var r := Walk(s, cursor, false, taken);
      r.Got? ==> Left(s, Then(s, taken, r)) < Left(s, taken)
  {
    var r := Walk(s, cursor, false, taken);
    WalkStaysInBlock(s, cursor, false, taken);
    if r.Got? {
      ValidSubnetShape(s);
      var a := ToAddr(s, r.addr);
      ContainsIsInterval(s.block, a);
      assert a in WholeBlock(s) - taken;
      assert WholeBlock(s) - Then(s, taken, r) == WholeBlock(s) - taken - {a};
    }
  }

  lemma AloneAfter(s: Subnet, cursor: nat, taken: set<Addr>, n: nat, q: Outcome)
    requires Validate(s) == Valid && s.block.base <= cursor <= Last(s.block)
    requires var r := Walk(s, cursor, false, taken);
      !r.Crash? && s.block.base <= r.cursor <= Last(s.block) && q in Alone(s, r.cursor, Then(s, taken, r), n)
    ensures q in Alone(s, cursor, taken, n + 1)
  {
    StoresStep(s, cursor, taken, n + 1);
  }

  /** Wherever P holds, the call reaches its goal, or P holds again and what D measures is less. */
  ghost predicate Progress(s: Subnet, P: (nat, set<Addr>) -> bool, D: (nat, set<Addr>) -> nat, Goal: Outcome -> bool)
    requires Validate(s) == Valid
  {
    forall c: nat, taken :: P(c, taken) ==>
      && s.block.base <= c <= Last(s.block)
      && var r := Walk(s, c, false, taken);
         Goal(r) || (!r.Crash? && P(r.cursor, Then(s, taken, r)) && D(r.cursor, Then(s, taken, r)) < D(c, taken))
  }

  lemma AloneFirst(s: Subnet, cursor: nat, taken: set<Addr>)
    requires Validate(s) == Valid && s.block.base <= cursor <= Last(s.block)
    ensures Walk(s, cursor, false, taken) in Alone(s, cursor, taken, 1)
  {
    assert Alone(s, cursor, taken, 1)[0] == Walk(s, cursor, false, taken);
  }

  /** Then calls alone come to the goal. */
  lemma {:induction false} AloneComesTo(s: Subnet, P: (nat, set<Addr>) -> bool, D: (nat, set<Addr>) -> nat,
      Goal: Outcome -> bool, cursor: nat, taken: set<Addr>) returns (n: nat, q: Outcome)
    requires Validate(s) == Valid && Progress(s, P, D, Goal) && P(cursor, taken)
    ensures s.block.base <= cursor <= Last(s.block) && Goal(q) && q in Alone(s, cursor, taken, n)
    decreases D(cursor, taken)
  {
    var r := Walk(s, cursor, false, taken);
    if Goal(r) {
      n, q := 1, r;
      AloneFirst(s, cursor, taken);
    } else {
      n, q := AloneComesTo(s, P, D, Goal, r.cursor, Then(s, taken, r));
      AloneAfter(s, cursor, taken, n, q);
      n := n + 1;
    }
  }

  /** On a cursor from which the stop is missed, if there is anything ahead at all. */
  ghost predicate Doomed(s: Subnet, c: nat) {
    StartOf(s) <= c <= Last(s.block) && (Alive(s, c) ==> Missed(s, c))
  }

  ghost function Delay(s: Subnet, c: nat, taken: set<Addr>): nat {
    2 * Left(s, taken) + if Alive(s, c) then 1 else 0
  }

  lemma DoomedProgress(s: Subnet, c: nat, taken: set<Addr>)
    requires Validate(s) == Valid && Orderly(s) && Last(s.block) in ReservedValues(s) && Missed(s, StartOf(s))
    requires Doomed(s, c)
    ensures s.block.base <= c
    ensures var r := Walk(s, c, false, taken);
      r.Crash? || (Doomed(s, r.cursor) && Delay(s, r.cursor, Then(s, taken, r)) < Delay(s, c, taken))
  {
    ValidSubnetShape(s);
    CrashIff(s, c, taken);
    if Alive(s, c) {
      RestsOnLast(s, c, false, taken);
      FewerLeft(s, c, taken);
    }
  }

  /** Everywhere else, calls alone, from an empty store and with nothing freed, come to dereference a nil position. */
  lemma StuckCrashes(s: Subnet) returns (n: nat)
    requires Validate(s) == Valid && Orderly(s) && !NeverStuck(s)
    ensures s.block.base <= StartOf(s) <= Last(s.block) && Crash in Alone(s, StartOf(s), {}, n)
  {
    ValidSubnetShape(s);
    if Alive(s, StartOf(s)) {
      StuckMissesStop(s);
      var P, D, Goal := (c: nat, taken: set<Addr>) => Doomed(s, c), (c: nat, taken: set<Addr>) => Delay(s, c, taken),
        (r: Outcome) => r.Crash?;
      forall c: nat, taken | P(c, taken)
        ensures s.block.base <= c <= Last(s.block)
        ensures var r := Walk(s, c, false, taken);
          Goal(r) || (!r.Crash? && P(r.cursor, Then(s, taken, r)) && D(r.cursor, Then(s, taken, r)) < D(c, taken))
      {
        DoomedProgress(s, c, taken);
      }
      var q;
      n, q := AloneComesTo(s, P, D, Goal, StartOf(s), {});
    } else {
      CrashIff(s, StartOf(s), {});
      n := 1;
      AloneFirst(s, StartOf(s), {});
    }
  }

  /** A new allocator's first n calls on an empty store, with nothing freed, never dereference a nil position. */
  ghost predicate DefinedAlone(s: Subnet, n: nat)
    requires Validate(s) == Valid && s.block.base <= StartOf(s) <= Last(s.block)
  {
    Crash !in Alone(s, StartOf(s), {}, n)
  }

  /**
   * No run of calls, exhaustion reports included, dereferences a nil position exactly for these configurations, whether
   * the store content is arbitrary at each call or only the calls' own doing.
   */
  lemma NeverStuckIff(s: Subnet)
    requires Validate(s) == Valid && Orderly(s)
    ensures s.block.base <= StartOf(s) <= Last(s.block)
    ensures (forall takens :: StaysDefined(s, StartOf(s), takens)) <==> NeverStuck(s)
    ensures (forall n: nat :: DefinedAlone(s, n)) <==> NeverStuck(s)
  {
    ValidSubnetShape(s);
    if NeverStuck(s) {
      NeverStuckStarts(s);
      forall takens ensures StaysDefined(s, StartOf(s), takens) {
        AliveStaysDefined(s, StartOf(s), takens);
      }
      forall n: nat ensures DefinedAlone(s, n) {
        AloneIsARun(s, StartOf(s), {}, n);
      }
    } else {
      var n := StuckCrashes(s);
      assert !DefinedAlone(s, n);
      var takens := Stores(s, StartOf(s), {}, n);
      if StaysDefined(s, StartOf(s), takens) {
        AloneIsARun(s, StartOf(s), {}, n);
      }
      assert !StaysDefined(s, StartOf(s), takens);
    }
  }

  /** The shipped sample configuration: 192.0.2.0/24 from .10 to .255, with .255 reserved. */
  const SAMPLE_BASE: nat := 0xC0000200

  function SampleSubnet(): Subnet {
    Subnet(Block(IPv4, SAMPLE_BASE, 8),
           Some(Addr(IPv4, SAMPLE_BASE + 10)), Some(Addr(IPv4, SAMPLE_BASE + 255)), [Addr(IPv4, SAMPLE_BASE + 255)])
  }

  lemma SampleShape()
    ensures var s := SampleSubnet();
      && Validate(s) == Valid && ReservedValues(s) == [SAMPLE_BASE + 255]
      && StartOf(s) == SAMPLE_BASE + 10 && EndOf(s) == Last(s.block) == SAMPLE_BASE + 255
      && Ring(s) != [] && TurnsAtEnd(s)
  {
    var s := SampleSubnet();
    assert Pow2(2) == 4 && Pow2(4) == 16 && Pow2(6) == 64 && Pow2(8) == 256;
    ValidateAcceptsIff(s);
    var k := RingIndex(s, SAMPLE_BASE + 10);
  }

  /** The sample is accepted and serves its first round in range; every call after an exhaustion report crashes. */
  lemma SampleCrashesAfterExhaustion(taken: set<Addr>)
    ensures var s := SampleSubnet();
      && Validate(s) == Valid
      && s.block.base <= StartOf(s) <= OutCursor(s) <= Last(s.block)
      && (forall takens :: InRange(s, StartOf(s), takens, false))
      && Walk(s, StartOf(s), false, AllOf(s)) == Out(OutCursor(s))
      && Walk(s, OutCursor(s), false, taken) == Crash
  {
    var s := SampleSubnet();
    SampleShape();
    AscendingIsOrderly(s);
    FirstRoundInRangeIff(s);
    AllOfExhausts(s);
    CrashIff(s, OutCursor(s), taken);
  }
}
