/** One pass over the reserved list: two positions skip reserved addresses together. */
module ReservedScan {
  import opened Util

  /** The cursor library's step: the following position, or none at the last one. */
  function Advance(last: nat, pos: Option<nat>): Option<nat> {
    if pos.None? || pos.value >= last then None else Some(pos.value + 1)
  }

  /** The outcome of a pass. Panic is the dereference of an absent position. */
  datatype Pass = Panic | At(p: Option<nat>, next: Option<nat>)

  /** One list entry: p moves to next when p is the entry, then next moves when next is the entry. */
  function StepP(ip: nat, p: nat, next: Option<nat>): Option<nat> {
    if p == ip then next else Some(p)
  }

  function StepNext(last: nat, ip: nat, p: nat, next: Option<nat>): Option<nat> {
    var moved := if p == ip then Advance(last, next) else next;
    if moved == Some(ip) then Advance(last, moved) else moved
  }

  predicate Ordered(last: nat, p: Option<nat>, next: Option<nat>) {
    (p.Some? ==> p.value <= last) && (next.Some? ==> p.Some? && p.value < next.value <= last)
  }

  function Skip(last: nat, reserved: seq<nat>, p: Option<nat>, next: Option<nat>): (r: Pass)
    requires Ordered(last, p, next)
    ensures r.At? ==> Ordered(last, r.p, r.next)
    ensures r.At? && r.p.Some? ==> p.Some? && p.value <= r.p.value
    ensures r.At? && r.next.Some? ==> next.Some? && next.value <= r.next.value
  {
    if reserved == [] then At(p, next)
    else if p.None? then Panic
    else
      var ip := reserved[0];
      Skip(last, reserved[1..], StepP(ip, p.value, next), StepNext(last, ip, p.value, next))
  }

  /** A pass dereferences an absent position exactly when it runs out of addresses before the list is through. */
  lemma {:induction false} SkipPanicsIff(last: nat, reserved: seq<nat>, p: Option<nat>, next: Option<nat>)
    requires Ordered(last, p, next)
    ensures Skip(last, reserved, p, next).Panic? <==>
      exists j :: 0 <= j < |reserved| && RunsOut(last, reserved[..j], p, next)
    decreases |reserved|
  {
    if reserved != [] {
      assert RunsOut(last, reserved[..0], p, next) <==> p.None?;
      if p.Some? {
        var ip := reserved[0];
        var p1, next1 := StepP(ip, p.value, next), StepNext(last, ip, p.value, next);
        SkipPanicsIff(last, reserved[1..], p1, next1);
        forall j | 0 <= j < |reserved| - 1
          ensures RunsOut(last, reserved[..j + 1], p, next) <==> RunsOut(last, reserved[1..][..j], p1, next1)
        {
          assert reserved[..j + 1][1..] == reserved[1..][..j];
        }
        if j :| 0 <= j < |reserved| && RunsOut(last, reserved[..j], p, next) {
          assert RunsOut(last, reserved[1..][..j - 1], p1, next1);
        }
        if j :| 0 <= j < |reserved| - 1 && RunsOut(last, reserved[1..][..j], p1, next1) {
          assert RunsOut(last, reserved[..j + 1], p, next);
        }
      }
    }
  }

  /** These entries leave no position to hand out. */
  ghost predicate RunsOut(last: nat, reserved: seq<nat>, p: Option<nat>, next: Option<nat>)
    requires Ordered(last, p, next)
  {
    var r := Skip(last, reserved, p, next); r.At? && r.p.None?
  }

  /** The pass as the allocator starts it, from the cursor's position. */
  function SkipFrom(last: nat, reserved: seq<nat>, c: nat): Pass
    requires c <= last
  {
    Skip(last, reserved, Some(c), Advance(last, Some(c)))
  }

  /** Where a pass leaves the cursor: on next, or on the last address once next is absent. */
  function Rest(last: nat, next: Option<nat>): nat {
    if next.Some? then next.value else last
  }

  /** The least unreserved address from x to the block's last address. */
  function NextFree(last: nat, reserved: seq<nat>, x: nat): (r: Option<nat>)
    ensures r.Some? ==> x <= r.value <= last && r.value !in reserved
    ensures r.Some? ==> forall y :: x <= y < r.value ==> y in reserved
    ensures r.None? ==> forall y :: x <= y <= last ==> y in reserved
    decreases last + 1 - x
  {
    if x > last then None
    else if x in reserved then NextFree(last, reserved, x + 1)
    else Some(x)
  }

  ghost predicate Ascending(s: seq<nat>) {
    forall i, j :: 0 <= i < j < |s| ==> s[i] <= s[j]
  }

  /** What a pass should find: the first unreserved address, and the first one after it. */
  ghost predicate Settled(last: nat, reserved: seq<nat>, x: nat, r: Pass) {
    match NextFree(last, reserved, x)
    case Some(p) => r == At(Some(p), NextFree(last, reserved, p + 1))
    case None => r.Panic? || r.p.None?
  }

  lemma {:induction false} NextFreeFrom(last: nat, reserved: seq<nat>, x: nat, y: nat)
    requires x <= y <= last + 1
    requires forall z :: x <= z < y ==> z in reserved
    ensures NextFree(last, reserved, x) == NextFree(last, reserved, y)
    decreases y - x
  {
    if x < y {
      NextFreeFrom(last, reserved, x + 1, y);
    }
  }

  /** Loop invariant of the pass before entry j: what was skipped is reserved, and neither position has been listed. */
  ghost predicate PassInvariant(last: nat, reserved: seq<nat>, j: nat, p: nat, next: Option<nat>)
    requires j <= |reserved|
  {
    && Ordered(last, Some(p), next)
    && (forall y :: p < y < UpTo(last, next) ==> y in reserved)
    && (forall i :: 0 <= i < j ==> reserved[i] != p && next != Some(reserved[i]))
  }

  function UpTo(last: nat, next: Option<nat>): nat {
    if next.Some? then next.value else last + 1
  }

  lemma PassStep(last: nat, reserved: seq<nat>, j: nat, p: nat, next: Option<nat>)
    requires Ascending(reserved) && j < |reserved| && PassInvariant(last, reserved, j, p, next)
    ensures var p1 := StepP(reserved[j], p, next);
      p1.Some? ==> PassInvariant(last, reserved, j + 1, p1.value, StepNext(last, reserved[j], p, next))
  {
    var ip := reserved[j];
    assert ip in reserved;
  }

  /** Passing over reserved addresses does not change what there is to find. */
  lemma SettledFrom(last: nat, reserved: seq<nat>, x: nat, y: nat, r: Pass)
    requires x <= y <= last + 1 && (forall z :: x <= z < y ==> z in reserved)
    ensures Settled(last, reserved, x, r) <==> Settled(last, reserved, y, r)
  {
    NextFreeFrom(last, reserved, x, y);
  }

  /** The pass from entry j on. */
  function PassFrom(last: nat, reserved: seq<nat>, j: nat, p: Option<nat>, next: Option<nat>): Pass
    requires j <= |reserved| && Ordered(last, p, next)
  {
    Skip(last, reserved[j..], p, next)
  }

  lemma PassFromNext(last: nat, reserved: seq<nat>, j: nat, p: nat, next: Option<nat>)
    requires j < |reserved| && Ordered(last, Some(p), next)
    ensures PassFrom(last, reserved, j, Some(p), next)
      == PassFrom(last, reserved, j + 1, StepP(reserved[j], p, next), StepNext(last, reserved[j], p, next))
  {
    assert reserved[j..][1..] == reserved[j + 1..];
  }

  lemma {:induction false} SkipSettles(last: nat, reserved: seq<nat>, j: nat, p: nat, next: Option<nat>)
    requires Ascending(reserved) && j <= |reserved| && PassInvariant(last, reserved, j, p, next)
    ensures Settled(last, reserved, p, PassFrom(last, reserved, j, Some(p), next))
    decreases |reserved| - j
  {
    if j == |reserved| {
      NextFreeFrom(last, reserved, p + 1, UpTo(last, next));
    } else {
      var p1, next1 := StepP(reserved[j], p, next), StepNext(last, reserved[j], p, next);
      PassFromNext(last, reserved, j, p, next);
      PassStep(last, reserved, j, p, next);
      if p1.Some? {
        SkipSettles(last, reserved, j + 1, p1.value, next1);
        SettledFrom(last, reserved, p, p1.value, PassFrom(last, reserved, j + 1, p1, next1));
      } else {
        NextFreeFrom(last, reserved, p, last + 1);
      }
    }
  }

  /** For an ascending list one pass is enough, from every cursor position. */
  lemma PassFindsNextTwo(last: nat, reserved: seq<nat>, c: nat)
    requires c <= last && forall i, j :: 0 <= i < j < |reserved| ==> reserved[i] <= reserved[j]
    ensures Settled(last, reserved, c, SkipFrom(last, reserved, c))
  {
    assert reserved[0..] == reserved;
    SkipSettles(last, reserved, 0, c, Advance(last, Some(c)));
  }

  /** An unordered list defeats the pass: 3 is reserved, and the pass settles on 3. */
  lemma UnorderedListMissesReserved()
    ensures SkipFrom(7, [3, 1, 2], 1) == At(Some(3), Some(4))
  {
    assert [3, 1, 2][1..] == [1, 2];
    assert [1, 2][1..] == [2];
    assert [2][1..] == [];
    assert Skip(7, [], Some(3), Some(4)) == At(Some(3), Some(4));
    assert Skip(7, [2], Some(2), Some(3)) == At(Some(3), Some(4));
    assert Skip(7, [1, 2], Some(1), Some(2)) == At(Some(3), Some(4));
  }
}
