/** One subnet's allocation as the code walks it, and the ring of allowed addresses it stands for. */
module RoundRobin {
  import opened Util
  import opened Address
  import opened Config
  import opened ListOrder
  import opened ReservedScan

  /** The outcome of one call; Crash is a nil position reaching a dereference. */
  datatype Outcome = Got(addr: nat, cursor: nat) | Out(cursor: nat) | Crash

  /** The position one past the configured end; absent when nothing lies beyond it. */
  function Stop(s: Subnet): Option<nat> {
    if s.end.Some? then Advance(Last(s.block), Some(s.end.value.value)) else None
  }

  function ToAddr(s: Subnet, v: nat): Addr {
    Addr(s.block.family, v)
  }

  function Pass1(s: Subnet, cursor: nat): Pass
    requires cursor <= Last(s.block)
  {
    SkipFrom(Last(s.block), ReservedValues(s), cursor)
  }

  /** The reserved list is one that a single pass can deal with, wherever in the block from the start on it begins. */
  ghost predicate Orderly(s: Subnet) {
    forall c: nat :: StartOf(s) <= c <= Last(s.block) ==> PassListed(Last(s.block), ReservedValues(s), c)
  }

  /** That is exactly what makes every pass find the next two unreserved addresses. */
  lemma OrderlyIff(s: Subnet)
    ensures Orderly(s) <==> forall c: nat :: StartOf(s) <= c <= Last(s.block) ==>
      Settled(Last(s.block), ReservedValues(s), c, Pass1(s, c))
  {
    forall c: nat | StartOf(s) <= c <= Last(s.block)
      ensures Settled(Last(s.block), ReservedValues(s), c, Pass1(s, c))
        <==> PassListed(Last(s.block), ReservedValues(s), c)
    {
      PassSettlesIff(Last(s.block), ReservedValues(s), c);
    }
  }

  lemma OrderlyPass(s: Subnet, c: nat)
    requires Orderly(s) && StartOf(s) <= c <= Last(s.block)
    ensures Settled(Last(s.block), ReservedValues(s), c, Pass1(s, c))
  {
    PassSettlesIff(Last(s.block), ReservedValues(s), c);
  }

  lemma AscendingIsOrderly(s: Subnet)
    requires forall i, j :: 0 <= i < j < |s.reserved| ==> s.reserved[i].value <= s.reserved[j].value
    ensures Orderly(s)
  {
    assert Ascending(ReservedValues(s));
    forall c: nat | StartOf(s) <= c <= Last(s.block) ensures PassListed(Last(s.block), ReservedValues(s), c) {
      AscendingIsListed(Last(s.block), ReservedValues(s), c);
    }
  }

  predicate Turns(s: Subnet, next: Option<nat>) {
    next.None? || next == Stop(s)
  }

  /** The retry loop: `out` records that the walk has wrapped to the start once. */
  function Walk(s: Subnet, cursor: nat, out: bool, taken: set<Addr>): (r: Outcome)
    requires Validate(s) == Valid && cursor <= Last(s.block)
    decreases !out, Last(s.block) - cursor
  {
    var last := Last(s.block);
    ValidSubnetShape(s);
    match Pass1(s, cursor)
    case Panic => Crash
    case At(p, next) =>
      if Turns(s, next) then
        if out then Out(Rest(last, next))
        else if p.None? then Crash
        else if ToAddr(s, p.value) !in taken then Got(p.value, StartOf(s))
        else Walk(s, StartOf(s), true, taken)
      else if ToAddr(s, p.value) !in taken then Got(p.value, next.value)
      else Walk(s, next.value, out, taken)
  }

  /** Whatever the reserved list, an allocated address was free and inside the block, and the cursor stays in it. */
  lemma {:induction false} WalkStaysInBlock(s: Subnet, cursor: nat, out: bool, taken: set<Addr>)
    requires Validate(s) == Valid && s.block.base <= cursor <= Last(s.block)
    ensures var r := Walk(s, cursor, out, taken);
      && (r.Got? ==> ToAddr(s, r.addr) !in taken && Contains(s.block, ToAddr(s, r.addr)))
      && (!r.Crash? ==> s.block.base <= r.cursor <= Last(s.block))
    decreases !out, Last(s.block) - cursor
  {
    ValidSubnetShape(s);
    var pass := Pass1(s, cursor);
    if pass.At? && pass.p.Some? {
      ContainsIsInterval(s.block, ToAddr(s, pass.p.value));
      if Turns(s, pass.next) {
        if !out {
          WalkStaysInBlock(s, StartOf(s), true, taken);
        }
      } else {
        WalkStaysInBlock(s, pass.next.value, out, taken);
      }
    }
  }

  /** The ascending unreserved addresses from x to e. */
  ghost function FreeFrom(reserved: seq<nat>, x: nat, e: nat): seq<nat>
    decreases e + 1 - x
  {
    if x > e then []
    else if x in reserved then FreeFrom(reserved, x + 1, e)
    else [x] + FreeFrom(reserved, x + 1, e)
  }

  lemma {:induction false} FreeFromEntry(reserved: seq<nat>, x: nat, e: nat, i: nat)
    requires i < |FreeFrom(reserved, x, e)|
    ensures var y := FreeFrom(reserved, x, e)[i]; x <= y <= e && y !in reserved
    decreases e + 1 - x
  {
    if x in reserved {
      FreeFromEntry(reserved, x + 1, e, i);
    } else if i > 0 {
      FreeFromEntry(reserved, x + 1, e, i - 1);
    }
  }

  lemma {:induction false} FreeFromIndex(reserved: seq<nat>, x: nat, e: nat, y: nat) returns (i: nat)
    requires x <= y <= e && y !in reserved
    ensures i < |FreeFrom(reserved, x, e)| && FreeFrom(reserved, x, e)[i] == y
    decreases e + 1 - x
  {
    if x in reserved {
      i := FreeFromIndex(reserved, x + 1, e, y);
    } else if x == y {
      i := 0;
    } else {
      i := FreeFromIndex(reserved, x + 1, e, y);
      i := i + 1;
    }
  }

  lemma {:induction false} FreeFromOrder(reserved: seq<nat>, x: nat, e: nat, i: nat, j: nat)
    requires i < j < |FreeFrom(reserved, x, e)|
    ensures FreeFrom(reserved, x, e)[i] < FreeFrom(reserved, x, e)[j]
    decreases e + 1 - x
  {
    if x in reserved {
      FreeFromOrder(reserved, x + 1, e, i, j);
    } else if i > 0 {
      FreeFromOrder(reserved, x + 1, e, i - 1, j - 1);
    } else {
      FreeFromEntry(reserved, x + 1, e, j - 1);
    }
  }

  /** The allowed addresses: the configured range without the reserved ones. */
  ghost function Ring(s: Subnet): seq<nat> {
    FreeFrom(ReservedValues(s), StartOf(s), EndOf(s))
  }

  predicate Allowed(s: Subnet, v: nat) {
    StartOf(s) <= v <= EndOf(s) && v !in ReservedValues(s)
  }

  /** As the configuration gives it: in the block, not before a start, not after an end, and not listed. */
  lemma AllowedIff(s: Subnet, v: nat)
    requires Validate(s) == Valid
    ensures Allowed(s, v) <==>
      && Contains(s.block, ToAddr(s, v)) && ToAddr(s, v) !in s.reserved
      && (s.start.Some? ==> s.start.value.value <= v) && (s.end.Some? ==> v <= s.end.value.value)
  {
    ValidSubnetShape(s);
    ContainsIsInterval(s.block, ToAddr(s, v));
    assert v in ReservedValues(s) <==> ToAddr(s, v) in s.reserved by {
      if ToAddr(s, v) in s.reserved {
        var i :| 0 <= i < |s.reserved| && s.reserved[i] == ToAddr(s, v);
        assert ReservedValues(s)[i] == v;
      }
    }
  }

  /** The ring lists exactly the allowed addresses, in ascending order. */
  lemma RingEntry(s: Subnet, i: nat)
    requires i < |Ring(s)|
    ensures Allowed(s, Ring(s)[i])
  {
    FreeFromEntry(ReservedValues(s), StartOf(s), EndOf(s), i);
  }

  lemma RingIndex(s: Subnet, v: nat) returns (i: nat)
    requires Allowed(s, v)
    ensures i < |Ring(s)| && Ring(s)[i] == v
  {
    i := FreeFromIndex(ReservedValues(s), StartOf(s), EndOf(s), v);
  }

  lemma RingOrder(s: Subnet, i: nat, j: nat)
    requires i < j < |Ring(s)|
    ensures Ring(s)[i] < Ring(s)[j]
  {
    FreeFromOrder(ReservedValues(s), StartOf(s), EndOf(s), i, j);
  }

  /** The cursor stands for ring index i: the next allowed address it reaches is entry i. */
  ghost predicate AtIndex(s: Subnet, cursor: nat, i: nat) {
    var l := Ring(s);
    && i < |l|
    && StartOf(s) <= cursor <= l[i]
    && (i > 0 ==> l[i - 1] < cursor)
  }

  /** After the range's last allowed address the walk turns back instead of going on. */
  ghost predicate TurnsAtEnd(s: Subnet) {
    Turns(s, NextFree(Last(s.block), ReservedValues(s), EndOf(s) + 1))
  }

  /** As the configuration shows it: the address after the end is unreserved, or nothing after the end is. */
  lemma TurnsAtEndIff(s: Subnet)
    requires Validate(s) == Valid
    ensures TurnsAtEnd(s) <==>
      EndOf(s) + 1 !in ReservedValues(s) || forall y :: EndOf(s) < y <= Last(s.block) ==> y in ReservedValues(s)
  {
    ValidSubnetShape(s);
    var n := NextFree(Last(s.block), ReservedValues(s), EndOf(s) + 1);
    assert n.Some? ==> n.value !in ReservedValues(s) && EndOf(s) < n.value <= Last(s.block);
  }

  ghost predicate FreeIn(s: Subnet, v: nat, taken: set<Addr>) {
    ToAddr(s, v) !in taken
  }

  /** First free entry of l[lo..hi], as an index. */
  ghost function FirstFree(s: Subnet, l: seq<nat>, lo: nat, hi: nat, taken: set<Addr>): (r: Option<nat>)
    requires lo <= hi <= |l|
    ensures r.Some? ==> lo <= r.value < hi && FreeIn(s, l[r.value], taken)
    ensures r.Some? ==> forall k :: lo <= k < r.value ==> !FreeIn(s, l[k], taken)
    ensures r.None? ==> forall k :: lo <= k < hi ==> !FreeIn(s, l[k], taken)
    decreases hi - lo
  {
    if lo == hi then None
    else if FreeIn(s, l[lo], taken) then Some(lo)
    else FirstFree(s, l, lo + 1, hi, taken)
  }

  /** First free entry in cyclic order from index i. */
  ghost function CyclicFree(s: Subnet, i: nat, taken: set<Addr>): (r: Option<nat>)
    requires i <= |Ring(s)|
    ensures r.Some? ==> r.value < |Ring(s)| && FreeIn(s, Ring(s)[r.value], taken)
    ensures r.None? ==> forall k :: 0 <= k < |Ring(s)| ==> !FreeIn(s, Ring(s)[k], taken)
  {
    var l := Ring(s);
    var tail := FirstFree(s, l, i, |l|, taken);
    if tail.Some? then tail else FirstFree(s, l, 0, i, taken)
  }

  ghost function After(s: Subnet, j: nat): nat {
    if j + 1 >= |Ring(s)| then 0 else j + 1
  }

  /** The cursor position that stands for the cyclic successor of entry j. */
  ghost function Successor(s: Subnet, j: nat): nat {
    if j + 1 < |Ring(s)| then Ring(s)[j + 1] else StartOf(s)
  }

  lemma BetweenEntries(s: Subnet, i: nat, z: nat)
    requires StartOf(s) <= z <= EndOf(s) && i <= |Ring(s)|
    requires (i > 0 ==> Ring(s)[i - 1] < z) && (i < |Ring(s)| ==> z < Ring(s)[i])
    ensures z in ReservedValues(s)
  {
    if Allowed(s, z) {
      var k := RingIndex(s, z);
      if k + 1 < i {
        RingOrder(s, k, i - 1);
      } else if i < k {
        RingOrder(s, i, k);
      }
    }
  }

  /** The unreserved address that follows ring entry i. */
  ghost function Follower(s: Subnet, i: nat): Option<nat> {
    if i + 1 < |Ring(s)| then Some(Ring(s)[i + 1])
    else NextFree(Last(s.block), ReservedValues(s), EndOf(s) + 1)
  }

  lemma FollowerIsNextFree(s: Subnet, i: nat)
    requires Validate(s) == Valid && i < |Ring(s)|
    ensures NextFree(Last(s.block), ReservedValues(s), Ring(s)[i] + 1) == Follower(s, i)
  {
    ValidSubnetShape(s);
    var l := Ring(s);
    RingEntry(s, i);
    var stop := if i + 1 < |l| then l[i + 1] else EndOf(s) + 1;
    if i + 1 < |l| {
      RingEntry(s, i + 1);
      RingOrder(s, i, i + 1);
    }
    forall z | l[i] + 1 <= z < stop ensures z in ReservedValues(s) {
      BetweenEntries(s, i + 1, z);
    }
    NextFreeFrom(Last(s.block), ReservedValues(s), l[i] + 1, stop);
  }

  /** From ring index i the pass finds entry i and its follower. */
  lemma PassAtIndex(s: Subnet, cursor: nat, i: nat)
    requires Validate(s) == Valid && Orderly(s) && AtIndex(s, cursor, i)
    ensures cursor <= Last(s.block)
    ensures Pass1(s, cursor) == At(Some(Ring(s)[i]), Follower(s, i))
  {
    ValidSubnetShape(s);
    var l := Ring(s);
    RingEntry(s, i);
    OrderlyPass(s, cursor);
    forall z | cursor <= z < l[i] ensures z in ReservedValues(s) {
      BetweenEntries(s, i, z);
    }
    NextFreeFrom(Last(s.block), ReservedValues(s), cursor, l[i]);
    FollowerIsNextFree(s, i);
  }

  lemma StartIsIndexZero(s: Subnet)
    requires Validate(s) == Valid && Ring(s) != []
    ensures AtIndex(s, StartOf(s), 0)
  {
    RingEntry(s, 0);
  }

  lemma StopBeyondRing(s: Subnet, i: nat)
    requires Validate(s) == Valid && i < |Ring(s)|
    ensures !Turns(s, Some(Ring(s)[i]))
  {
    RingEntry(s, i);
  }

  lemma NextIndex(s: Subnet, i: nat)
    requires Validate(s) == Valid && i + 1 < |Ring(s)|
    ensures AtIndex(s, Ring(s)[i + 1], i + 1)
  {
    RingEntry(s, i + 1);
    RingOrder(s, i, i + 1);
  }

  lemma SuccessorIsAfter(s: Subnet, j: nat)
    requires Validate(s) == Valid && j < |Ring(s)|
    ensures AtIndex(s, Successor(s, j), After(s, j))
  {
    if j + 1 < |Ring(s)| {
      NextIndex(s, j);
    } else {
      StartIsIndexZero(s);
    }
  }

  /** After the wrap: entries i up to the last but one are tried, then the walk reports exhaustion. */
  lemma {:induction false} SecondPass(s: Subnet, cursor: nat, i: nat, taken: set<Addr>)
    requires Validate(s) == Valid && Orderly(s) && TurnsAtEnd(s) && AtIndex(s, cursor, i)
    ensures cursor <= Last(s.block)
    ensures var l := Ring(s);
      var r := Walk(s, cursor, true, taken);
      var f := FirstFree(s, l, i, |l| - 1, taken);
      if f.Some? then r == Got(l[f.value], l[f.value + 1])
      else r == Out(Rest(Last(s.block), NextFree(Last(s.block), ReservedValues(s), EndOf(s) + 1)))
    decreases |Ring(s)| - i
  {
    var l := Ring(s);
    PassAtIndex(s, cursor, i);
    if i + 1 < |l| {
      NextIndex(s, i);
      StopBeyondRing(s, i + 1);
      if !FreeIn(s, l[i], taken) {
        SecondPass(s, l[i + 1], i + 1, taken);
      }
    }
  }

  /** Before the wrap: entries i up to the last are tried, then the walk starts again from the start. */
  lemma {:induction false} FirstPass(s: Subnet, cursor: nat, i: nat, taken: set<Addr>)
    requires Validate(s) == Valid && Orderly(s) && TurnsAtEnd(s) && AtIndex(s, cursor, i)
    ensures cursor <= Last(s.block) && StartOf(s) <= Last(s.block)
    ensures var l := Ring(s);
      var r := Walk(s, cursor, false, taken);
      var f := FirstFree(s, l, i, |l|, taken);
      if f.Some? then r == Got(l[f.value], Successor(s, f.value))
      else r == Walk(s, StartOf(s), true, taken)
    decreases |Ring(s)| - i
  {
    var l := Ring(s);
    ValidSubnetShape(s);
    PassAtIndex(s, cursor, i);
    if i + 1 < |l| {
      NextIndex(s, i);
      StopBeyondRing(s, i + 1);
      if !FreeIn(s, l[i], taken) {
        FirstPass(s, l[i + 1], i + 1, taken);
      }
    } else {
      StartIsIndexZero(s);
    }
  }

  /** Where exhaustion leaves the cursor. */
  ghost function OutCursor(s: Subnet): nat {
    Rest(Last(s.block), NextFree(Last(s.block), ReservedValues(s), EndOf(s) + 1))
  }

  lemma FirstFreeWidens(s: Subnet, l: seq<nat>, lo: nat, mid: nat, hi: nat, taken: set<Addr>)
    requires lo <= mid <= hi <= |l|
    requires forall k :: mid <= k < hi ==> !FreeIn(s, l[k], taken)
    ensures FirstFree(s, l, lo, mid, taken) == FirstFree(s, l, lo, hi, taken)
  {
    var f, g := FirstFree(s, l, lo, mid, taken), FirstFree(s, l, lo, hi, taken);
    if f.Some? && g.Some? {
      assert f.value <= g.value && g.value <= f.value;
    }
  }

  /** The two-position walk is a round-robin scan of the ring. */
  lemma WalkIsRoundRobin(s: Subnet, cursor: nat, i: nat, taken: set<Addr>)
    requires Validate(s) == Valid && Orderly(s) && TurnsAtEnd(s) && AtIndex(s, cursor, i)
    ensures cursor <= Last(s.block)
    ensures var r := Walk(s, cursor, false, taken);
      match CyclicFree(s, i, taken)
      case Some(j) => r == Got(Ring(s)[j], Successor(s, j)) && AtIndex(s, r.cursor, After(s, j))
      case None => r == Out(OutCursor(s))
  {
    var l := Ring(s);
    FirstPass(s, cursor, i, taken);
    if FirstFree(s, l, i, |l|, taken).None? {
      StartIsIndexZero(s);
      SecondPass(s, StartOf(s), 0, taken);
      assert !FreeIn(s, l[|l| - 1], taken);
      FirstFreeWidens(s, l, 0, |l| - 1, |l|, taken);
      FirstFreeWidens(s, l, 0, i, |l|, taken);
    }
    var f := CyclicFree(s, i, taken);
    if f.Some? {
      SuccessorIsAfter(s, f.value);
    }
  }

  /** Exhaustion is reported exactly when every allowed address is taken. */
  lemma ExhaustedIffAllTaken(s: Subnet, cursor: nat, i: nat, taken: set<Addr>)
    requires Validate(s) == Valid && Orderly(s) && TurnsAtEnd(s) && AtIndex(s, cursor, i)
    ensures cursor <= Last(s.block)
    ensures Walk(s, cursor, false, taken).Out? <==> forall v :: Allowed(s, v) ==> ToAddr(s, v) in taken
  {
    var l := Ring(s);
    WalkIsRoundRobin(s, cursor, i, taken);
    match CyclicFree(s, i, taken)
    case Some(j) =>
      RingEntry(s, j);
      assert Allowed(s, l[j]) && FreeIn(s, l[j], taken);
    case None =>
      forall v | Allowed(s, v) ensures ToAddr(s, v) in taken {
        var k := RingIndex(s, v);
        assert !FreeIn(s, l[k], taken);
      }
  }

  lemma RingRank(s: Subnet, j: nat, k: nat)
    requires j < |Ring(s)| && k < |Ring(s)|
    ensures Ring(s)[j] < Ring(s)[k] <==> j < k
  {
    if j < k {
      RingOrder(s, j, k);
    } else if k < j {
      RingOrder(s, k, j);
    }
  }

  /** The first allowed address from the cursor on, as a ring entry. */
  lemma {:induction false} IndexFrom(s: Subnet, cursor: nat, v: nat) returns (i: nat)
    requires StartOf(s) <= cursor <= v && Allowed(s, v)
    ensures AtIndex(s, cursor, i)
    decreases v
  {
    i := RingIndex(s, v);
    if i > 0 && Ring(s)[i - 1] >= cursor {
      RingEntry(s, i - 1);
      RingOrder(s, i - 1, i);
      i := IndexFrom(s, cursor, Ring(s)[i - 1]);
    }
  }

  /** What the cyclic scan passes over before entry j is taken. */
  lemma PassedOver(s: Subnet, cursor: nat, i: nat, j: nat, taken: set<Addr>, u: nat)
    requires AtIndex(s, cursor, i) && CyclicFree(s, i, taken) == Some(j) && Allowed(s, u)
    ensures j >= i <==> Ring(s)[j] >= cursor
    ensures cursor <= u && (u < Ring(s)[j] || Ring(s)[j] < cursor) ==> !FreeIn(s, u, taken)
    ensures u < Ring(s)[j] < cursor ==> !FreeIn(s, u, taken)
  {
    var l := Ring(s);
    var k := RingIndex(s, u);
    RingRank(s, k, j);
    RingRank(s, k, i);
    RingRank(s, j, i);
    if i > 0 {
      RingRank(s, i - 1, k);
      RingRank(s, i - 1, j);
    }
  }

  lemma NothingSkipped(s: Subnet, j: nat, u: nat)
    requires j < |Ring(s)| && Allowed(s, u) && Ring(s)[j] < u
    ensures j + 1 < |Ring(s)| && Ring(s)[j + 1] <= u
  {
    var k := RingIndex(s, u);
    RingRank(s, j, k);
    RingRank(s, k, if j + 1 < |Ring(s)| then j + 1 else j);
  }

  /**
   * The same without the ring: from a cursor with an allowed address at or after it, the call hands out the first free
   * allowed one there, or else the first free one from the start; and it leaves the cursor where no allowed address has
   * been skipped, on the start if none is left.
   */
  lemma CallTakesNext(s: Subnet, cursor: nat, v: nat, taken: set<Addr>)
    requires Validate(s) == Valid && Orderly(s) && TurnsAtEnd(s)
    requires StartOf(s) <= cursor <= v && Allowed(s, v)
    ensures cursor <= Last(s.block)
    ensures var r := Walk(s, cursor, false, taken);
      && !r.Crash? && (r.Out? <==> forall u: nat :: Allowed(s, u) ==> ToAddr(s, u) in taken)
      && (r.Got? ==>
            && Allowed(s, r.addr) && ToAddr(s, r.addr) !in taken
            && (forall u: nat :: Allowed(s, u) && cursor <= u && (u < r.addr || r.addr < cursor) ==>
                  ToAddr(s, u) in taken)
            && (forall u: nat :: Allowed(s, u) && u < r.addr < cursor ==> ToAddr(s, u) in taken)
            && (if r.cursor > r.addr then
                  Allowed(s, r.cursor) && forall u: nat :: r.addr < u < r.cursor ==> !Allowed(s, u)
                else r.cursor == StartOf(s) && forall u: nat :: r.addr < u ==> !Allowed(s, u)))
  {
    var i := IndexFrom(s, cursor, v);
    WalkIsRoundRobin(s, cursor, i, taken);
    ExhaustedIffAllTaken(s, cursor, i, taken);
    var f := CyclicFree(s, i, taken);
    if f.Some? {
      var j, r := f.value, Walk(s, cursor, false, taken);
      RingEntry(s, j);
      forall u: nat | Allowed(s, u)
        ensures cursor <= u && (u < r.addr || r.addr < cursor) ==> ToAddr(s, u) in taken
        ensures u < r.addr < cursor ==> ToAddr(s, u) in taken
        ensures r.addr < u ==> j + 1 < |Ring(s)| && Ring(s)[j + 1] <= u
      {
        PassedOver(s, cursor, i, j, taken, u);
        if r.addr < u {
          NothingSkipped(s, j, u);
        }
      }
      if j + 1 < |Ring(s)| {
        RingEntry(s, j + 1);
        RingOrder(s, j, j + 1);
      }
    }
  }
}
