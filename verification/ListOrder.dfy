/** Exactly which reserved lists one pass can deal with, from each cursor position and from all of them. */
module ListOrder {
  import opened Util
  import opened ReservedScan

  /** The position x, or none past the block's last address. */
  function Position(last: nat, x: nat): Option<nat> {
    if x <= last then Some(x) else None
  }

  /** From entry j on, the list names from, from + 1, ..., to - 1 in this order, whatever it names in between. */
  ghost predicate NamesInOrder(reserved: seq<nat>, j: nat, from: nat, to: nat)
    requires from <= to
  {
    exists at: seq<nat> :: NamedAt(reserved, j, from, to, at)
  }

  ghost predicate NamedAt(reserved: seq<nat>, j: nat, from: nat, to: nat, at: seq<nat>) {
    && |at| == to - from
    && (forall i :: 0 <= i < |at| ==> j <= at[i] < |reserved| && reserved[at[i]] == from + i)
    && (forall i, k :: 0 <= i < k < |at| ==> at[i] < at[k])
  }

  lemma NamedWithin(reserved: seq<nat>, j: nat, from: nat, to: nat)
    requires from <= to
    ensures NamesInOrder(reserved, j, from, to) ==> from == to || j < |reserved|
  {
    if NamesInOrder(reserved, j, from, to) {
      var at :| NamedAt(reserved, j, from, to, at);
      assert at != [] ==> at[0] < |reserved|;
    }
  }

  lemma NamedFirst(reserved: seq<nat>, j: nat, from: nat, to: nat)
    requires j < |reserved| && from < to && reserved[j] == from
    ensures NamesInOrder(reserved, j, from, to) <==> NamesInOrder(reserved, j + 1, from + 1, to)
  {
    if NamesInOrder(reserved, j, from, to) {
      var at :| NamedAt(reserved, j, from, to, at);
      assert NamedAt(reserved, j + 1, from + 1, to, at[1..]);
    }
    if NamesInOrder(reserved, j + 1, from + 1, to) {
      var j1, from1 := j + 1, from + 1;
      var at :| NamedAt(reserved, j1, from1, to, at);
      assert NamedAt(reserved, j, from, to, [j] + at);
    }
  }

  lemma NamedLater(reserved: seq<nat>, j: nat, from: nat, to: nat)
    requires j < |reserved| && from <= to && (from < to ==> reserved[j] != from)
    ensures NamesInOrder(reserved, j, from, to) <==> NamesInOrder(reserved, j + 1, from, to)
  {
    if NamesInOrder(reserved, j, from, to) {
      var at :| NamedAt(reserved, j, from, to, at);
      assert at != [] ==> reserved[at[0]] == from + 0;
      assert NamedAt(reserved, j + 1, from, to, at);
    }
    if NamesInOrder(reserved, j + 1, from, to) {
      var j1 := j + 1;
      var at :| NamedAt(reserved, j1, from, to, at);
      assert NamedAt(reserved, j, from, to, at);
    }
  }

  lemma {:induction false} UnreservedStays(last: nat, reserved: seq<nat>, j: nat, c: nat, next: Option<nat>)
    requires c !in reserved && j <= |reserved| && Ordered(last, Some(c), next)
    ensures var r := Skip(last, reserved[j..], Some(c), next); r.At? && r.p == Some(c)
    decreases |reserved| - j
  {
    if j < |reserved| {
      assert reserved[j] in reserved && reserved[j..][1..] == reserved[j + 1..];
      UnreservedStays(last, reserved, j + 1, c, StepNext(last, reserved[j], c, next));
    }
  }

  /** While p is unreserved, next gets at least as far as y exactly when the list names the way there in order. */
  lemma {:induction false} NextReaches(last: nat, reserved: seq<nat>, c: nat, j: nat, x: nat, y: nat)
    requires c !in reserved && c < x <= y <= last + 1 && j <= |reserved|
    ensures var r := Skip(last, reserved[j..], Some(c), Position(last, x));
      r.At? && (y <= UpTo(last, r.next) <==> NamesInOrder(reserved, j, x, y))
    decreases |reserved| - j
  {
    UnreservedStays(last, reserved, j, c, Position(last, x));
    if x == y {
      assert NamedAt(reserved, j, x, y, []);
    } else if j == |reserved| {
      NamedWithin(reserved, j, x, y);
    } else {
      assert reserved[j] in reserved && reserved[j..][1..] == reserved[j + 1..];
      if reserved[j] == x {
        NamedFirst(reserved, j, x, y);
        NextReaches(last, reserved, c, j + 1, x + 1, y);
      } else {
        NamedLater(reserved, j, x, y);
        NextReaches(last, reserved, c, j + 1, x, y);
      }
    }
  }

  /**
   * List positions, from j on, of the reserved addresses p, x, x + 1, ..., to - 1, such that none of them is listed
   * ahead of two smaller ones.
   */
  ghost predicate ReadAt(reserved: seq<nat>, j: nat, p: nat, x: nat, to: nat, at: seq<nat>) {
    && |at| == to - x + 1
    && (forall i :: 0 <= i < |at| ==> j <= at[i] < |reserved| && reserved[at[i]] == if i == 0 then p else x + i - 1)
    && (forall k, l, i :: 0 <= k < l < i < |at| ==> at[k] < at[i] || at[l] < at[i])
  }

  /** After all of these, the list names the addresses from to + 1 to upto - 1 in order. */
  ghost predicate FollowedAt(reserved: seq<nat>, j: nat, p: nat, x: nat, to: nat, upto: nat,
      at: seq<nat>, bt: seq<nat>) {
    && ReadAt(reserved, j, p, x, to, at)
    && NamedAt(reserved, j, to + 1, upto, bt)
    && forall i, k :: 0 <= i < |at| && 0 <= k < |bt| ==> at[i] < bt[k]
  }

  ghost predicate Followed(reserved: seq<nat>, j: nat, p: nat, x: nat, to: nat, upto: nat) {
    exists at, bt :: FollowedAt(reserved, j, p, x, to, upto, at, bt)
  }

  lemma FollowedWithin(reserved: seq<nat>, j: nat, p: nat, x: nat, to: nat, upto: nat)
    requires x <= to < upto
    ensures Followed(reserved, j, p, x, to, upto) ==> j < |reserved|
  {
    if Followed(reserved, j, p, x, to, upto) {
      var at, bt :| FollowedAt(reserved, j, p, x, to, upto, at, bt);
      assert at[0] < |reserved|;
    }
  }

  /** The entry is p: the rest of the run is read from x. */
  lemma FollowedFirst(reserved: seq<nat>, j: nat, p: nat, x: nat, to: nat, upto: nat)
    requires j < |reserved| && p < x < to < upto && reserved[j] == p
    ensures Followed(reserved, j, p, x, to, upto) <==> Followed(reserved, j + 1, x, x + 1, to, upto)
  {
    var j1, x1 := j + 1, x + 1;
    if Followed(reserved, j, p, x, to, upto) {
      var at, bt :| FollowedAt(reserved, j, p, x, to, upto, at, bt);
      assert FollowedAt(reserved, j1, x, x1, to, upto, at[1..], bt);
    }
    if Followed(reserved, j1, x, x1, to, upto) {
      var at, bt :| FollowedAt(reserved, j1, x, x1, to, upto, at, bt);
      assert FollowedAt(reserved, j, p, x, to, upto, [j] + at, bt);
    }
  }

  /** The entry is p, the run's last one: what follows must be named from here. */
  lemma FollowedLast(reserved: seq<nat>, j: nat, p: nat, to: nat, upto: nat)
    requires j < |reserved| && p < to < upto && reserved[j] == p
    ensures Followed(reserved, j, p, to, to, upto) <==> NamesInOrder(reserved, j + 1, to + 1, upto)
  {
    var j1, from := j + 1, to + 1;
    if Followed(reserved, j, p, to, to, upto) {
      var at, bt :| FollowedAt(reserved, j, p, to, to, upto, at, bt);
      assert NamedAt(reserved, j1, from, upto, bt);
    }
    if NamesInOrder(reserved, j1, from, upto) {
      var bt :| NamedAt(reserved, j1, from, upto, bt);
      assert FollowedAt(reserved, j, p, to, to, upto, [j], bt);
    }
  }

  lemma ReadWithout(reserved: seq<nat>, j: nat, p: nat, x: nat, to: nat, at: seq<nat>)
    requires j < |reserved| && p < x < to && reserved[j] == x && ReadAt(reserved, j, p, x, to, at)
    ensures ReadAt(reserved, j + 1, p, x + 1, to, [at[0]] + at[2..])
  {
    var rest := [at[0]] + at[2..];
    forall i | 0 <= i < |rest|
      ensures j + 1 <= rest[i] < |reserved| && reserved[rest[i]] == if i == 0 then p else x + i
    {
      assert rest[i] == at[if i == 0 then 0 else i + 1];
    }
    forall k, l, i | 0 <= k < l < i < |rest| ensures rest[k] < rest[i] || rest[l] < rest[i] {
      assert at[if k == 0 then 0 else k + 1] < at[i + 1] || at[l + 1] < at[i + 1];
    }
  }

  lemma ReadWith(reserved: seq<nat>, j: nat, p: nat, x: nat, to: nat, at: seq<nat>)
    requires j < |reserved| && p < x < to && reserved[j] == x && ReadAt(reserved, j + 1, p, x + 1, to, at)
    ensures ReadAt(reserved, j, p, x, to, [at[0], j] + at[1..])
  {
    var more := [at[0], j] + at[1..];
    forall i | 0 <= i < |more|
      ensures j <= more[i] < |reserved| && reserved[more[i]] == if i == 0 then p else x + i - 1
    {
      assert i >= 2 ==> more[i] == at[i - 1];
    }
    forall k, l, i | 0 <= k < l < i < |more| ensures more[k] < more[i] || more[l] < more[i] {
      assert more[i] == at[i - 1] && j < at[i - 1];
      if k != 1 && l != 1 {
        assert more[l] == at[l - 1] && more[k] == at[if k == 0 then 0 else k - 1];
        assert at[if k == 0 then 0 else k - 1] < at[i - 1] || at[l - 1] < at[i - 1];
      }
    }
  }

  /** The entry is x, ahead of p only. */
  lemma FollowedNext(reserved: seq<nat>, j: nat, p: nat, x: nat, to: nat, upto: nat)
    requires j < |reserved| && p < x < to < upto && reserved[j] == x
    ensures Followed(reserved, j, p, x, to, upto) <==> Followed(reserved, j + 1, p, x + 1, to, upto)
  {
    var j1, x1 := j + 1, x + 1;
    if Followed(reserved, j, p, x, to, upto) {
      var at, bt :| FollowedAt(reserved, j, p, x, to, upto, at, bt);
      ReadWithout(reserved, j, p, x, to, at);
      var rest := [at[0]] + at[2..];
      assert forall i :: 0 <= i < |rest| ==> rest[i] == at[if i == 0 then 0 else i + 1];
      assert FollowedAt(reserved, j1, p, x1, to, upto, rest, bt);
    }
    if Followed(reserved, j1, p, x1, to, upto) {
      var at, bt :| FollowedAt(reserved, j1, p, x1, to, upto, at, bt);
      ReadWith(reserved, j, p, x, to, at);
      var more := [at[0], j] + at[1..];
      assert forall i :: 0 <= i < |more| ==> more[i] == if i == 0 then at[0] else if i == 1 then j else at[i - 1];
      assert FollowedAt(reserved, j, p, x, to, upto, more, bt);
    }
  }

  /** Any other entry is passed over for good: naming a later address here would put it ahead of both p and x. */
  lemma FollowedLater(reserved: seq<nat>, j: nat, p: nat, x: nat, to: nat, upto: nat)
    requires j < |reserved| && p < x <= to < upto && reserved[j] != p && (x < to ==> reserved[j] != x)
    ensures Followed(reserved, j, p, x, to, upto) <==> Followed(reserved, j + 1, p, x, to, upto)
  {
    var j1 := j + 1;
    if Followed(reserved, j, p, x, to, upto) {
      var at, bt :| FollowedAt(reserved, j, p, x, to, upto, at, bt);
      forall i | 0 <= i < |at| ensures j1 <= at[i] {
        assert i >= 2 ==> at[0] < at[i] || at[1] < at[i];
      }
      forall k | 0 <= k < |bt| ensures j1 <= bt[k] {
        assert at[0] < bt[k];
      }
      assert FollowedAt(reserved, j1, p, x, to, upto, at, bt);
    }
    if Followed(reserved, j1, p, x, to, upto) {
      var at, bt :| FollowedAt(reserved, j1, p, x, to, upto, at, bt);
      assert FollowedAt(reserved, j, p, x, to, upto, at, bt);
    }
  }

  /** The pass as far as the address to hand out goes: p on `to`, or absent once nothing unreserved is left. */
  ghost predicate Lands(last: nat, r: Pass, to: nat) {
    if to <= last then r.At? && r.p == Some(to) else r.Panic? || r.p.None?
  }

  /** The whole pass: p on `to`, and next at least as far as y. */
  ghost predicate Reaches(last: nat, r: Pass, to: nat, y: nat) {
    Lands(last, r, to) && (to <= last ==> y <= UpTo(last, r.next))
  }

  /** What `to` and y must be: the first unreserved address and one after it, or just past the block. */
  predicate Goals(last: nat, reserved: seq<nat>, x: nat, to: nat, y: nat) {
    && x <= to <= last + 1 && to < y
    && (to <= last ==> to !in reserved && y <= last + 1)
    && (to > last ==> y == to + 1)
  }

  /** The entry is p and the run ends there: p arrives, and from here on only next moves. */
  lemma PassArrives(last: nat, reserved: seq<nat>, j: nat, p: nat, to: nat, y: nat)
    requires Goals(last, reserved, p + 1, to, y) && j < |reserved| && reserved[j] == p
    ensures var r := Skip(last, reserved[j..], Some(p), Position(last, to));
      Reaches(last, r, to, y) <==> NamesInOrder(reserved, j + 1, to + 1, y)
  {
    assert reserved[j..][1..] == reserved[j + 1..];
    if to <= last {
      NextReaches(last, reserved, to, j + 1, to + 1, y);
      UnreservedStays(last, reserved, j + 1, to, Position(last, to + 1));
    } else {
      assert NamedAt(reserved, j + 1, to + 1, y, []);
    }
  }

  /** From a reserved p, the pass gets p off its run and next as far as y exactly when the list shows both. */
  lemma {:induction false} PassReaches(last: nat, reserved: seq<nat>, j: nat, p: nat, x: nat, to: nat, y: nat)
    requires Goals(last, reserved, x, to, y) && p < x && j <= |reserved|
    ensures Reaches(last, Skip(last, reserved[j..], Some(p), Position(last, x)), to, y)
      <==> Followed(reserved, j, p, x, to, y)
    decreases |reserved| - j
  {
    if j == |reserved| {
      FollowedWithin(reserved, j, p, x, to, y);
    } else {
      var ip := reserved[j];
      assert ip in reserved;
      assert reserved[j..][1..] == reserved[j + 1..];
      if ip == p && x == to {
        PassArrives(last, reserved, j, p, to, y);
        FollowedLast(reserved, j, p, to, y);
      } else if ip == p {
        FollowedFirst(reserved, j, p, x, to, y);
        PassReaches(last, reserved, j + 1, x, x + 1, to, y);
      } else if ip == x && x < to {
        FollowedNext(reserved, j, p, x, to, y);
        PassReaches(last, reserved, j + 1, p, x + 1, to, y);
      } else {
        FollowedLater(reserved, j, p, x, to, y);
        PassReaches(last, reserved, j + 1, p, x, to, y);
      }
    }
  }

  /** Whatever lies between the two positions is reserved: next passes nothing else over. */
  lemma {:induction false} BetweenIsReserved(last: nat, reserved: seq<nat>, j: nat, p: nat, next: Option<nat>)
    requires j <= |reserved| && Ordered(last, Some(p), next) && forall y :: p < y < UpTo(last, next) ==> y in reserved
    ensures var r := Skip(last, reserved[j..], Some(p), next);
      r.At? && r.p.Some? ==> forall y :: r.p.value < y < UpTo(last, r.next) ==> y in reserved
    decreases |reserved| - j
  {
    if j < |reserved| {
      var ip := reserved[j];
      assert ip in reserved && reserved[j..][1..] == reserved[j + 1..];
      var p1, next1 := StepP(ip, p, next), StepNext(last, ip, p, next);
      if p1.Some? {
        BetweenIsReserved(last, reserved, j + 1, p1.value, next1);
      }
    }
  }

  /** The end of the reserved run that starts at c; c itself when it is unreserved. */
  function RunEnd(last: nat, reserved: seq<nat>, c: nat): nat {
    UpTo(last, NextFree(last, reserved, c))
  }

  /** The reserved run from c to its end is listed with no entry ahead of two smaller ones. */
  ghost predicate RunListed(reserved: seq<nat>, c: nat, to: nat) {
    exists at :: RunAt(reserved, c, to, at)
  }

  ghost predicate RunAt(reserved: seq<nat>, c: nat, to: nat, at: seq<nat>) {
    ReadAt(reserved, 0, c, c + 1, to, at)
  }

  function NextRunEnd(last: nat, reserved: seq<nat>, to: nat): nat {
    if to <= last then RunEnd(last, reserved, to + 1) else to + 1
  }

  /**
   * The list shows that from c the pass gets next at least as far as y: it names the addresses behind an unreserved c
   * in order up to y; or it names the run of a reserved c with no entry ahead of two smaller ones, and after all of
   * it the addresses behind the run in order up to y.
   */
  ghost predicate Shows(last: nat, reserved: seq<nat>, c: nat, y: nat) {
    if c in reserved then Followed(reserved, 0, c, c + 1, RunEnd(last, reserved, c), y)
    else c < y && NamesInOrder(reserved, 0, c + 1, y)
  }

  /** What a list must show for one pass from c: the way to both the next unreserved addresses. */
  ghost predicate PassListed(last: nat, reserved: seq<nat>, c: nat) {
    Shows(last, reserved, c, NextRunEnd(last, reserved, RunEnd(last, reserved, c)))
  }

  /** For any list and any cursor: when the pass gets off the reserved addresses, and how far next gets. */
  lemma PassReachesIff(last: nat, reserved: seq<nat>, c: nat, y: nat)
    requires c <= last
    requires var to := RunEnd(last, reserved, c); to < y && if to <= last then y <= last + 1 else y == to + 1
    ensures Reaches(last, SkipFrom(last, reserved, c), RunEnd(last, reserved, c), y) <==> Shows(last, reserved, c, y)
  {
    assert reserved[0..] == reserved;
    if c in reserved {
      PassReaches(last, reserved, 0, c, c + 1, RunEnd(last, reserved, c), y);
    } else {
      UnreservedStays(last, reserved, 0, c, Advance(last, Some(c)));
      NextReaches(last, reserved, c, 0, c + 1, y);
    }
  }

  lemma ReachesIsSettled(last: nat, reserved: seq<nat>, c: nat)
    requires c <= last
    ensures var r, to := SkipFrom(last, reserved, c), RunEnd(last, reserved, c);
      Reaches(last, r, to, NextRunEnd(last, reserved, to)) <==> Settled(last, reserved, c, r)
  {
    assert reserved[0..] == reserved;
    BetweenIsReserved(last, reserved, 0, c, Advance(last, Some(c)));
  }

  /** For any list and any cursor: one pass finds the next two unreserved addresses exactly under this condition. */
  lemma PassSettlesIff(last: nat, reserved: seq<nat>, c: nat)
    requires c <= last
    ensures Settled(last, reserved, c, SkipFrom(last, reserved, c)) <==> PassListed(last, reserved, c)
  {
    ReachesIsSettled(last, reserved, c);
    PassReachesIff(last, reserved, c, NextRunEnd(last, reserved, RunEnd(last, reserved, c)));
  }

  /** For any list and any cursor: one pass gets off the reserved addresses exactly under this condition. */
  lemma PassLandsIff(last: nat, reserved: seq<nat>, c: nat)
    requires c <= last
    ensures var to := RunEnd(last, reserved, c);
      Lands(last, SkipFrom(last, reserved, c), to) <==> (c in reserved ==> RunListed(reserved, c, to))
  {
    var to := RunEnd(last, reserved, c);
    PassReachesIff(last, reserved, c, to + 1);
    if c in reserved {
      FollowedIsRunListed(reserved, c, to);
    } else {
      assert NamedAt(reserved, 0, c + 1, c + 1, []);
    }
  }

  lemma FollowedIsRunListed(reserved: seq<nat>, c: nat, to: nat)
    ensures Followed(reserved, 0, c, c + 1, to, to + 1) <==> RunListed(reserved, c, to)
  {
    var from, upto := c + 1, to + 1;
    if RunListed(reserved, c, to) {
      var at :| RunAt(reserved, c, to, at);
      assert FollowedAt(reserved, 0, c, from, to, upto, at, []);
    }
    if Followed(reserved, 0, c, from, to, upto) {
      var at, bt :| FollowedAt(reserved, 0, c, from, to, upto, at, bt);
      assert RunAt(reserved, c, to, at);
    }
  }

  /** Where the list shows that next ends up: as far as y, and no further. */
  ghost predicate Continues(last: nat, reserved: seq<nat>, c: nat, y: nat) {
    RunEnd(last, reserved, c) < y <= last && Shows(last, reserved, c, y) && !Shows(last, reserved, c, y + 1)
  }

  /** The position that a pass leaves next on, if any. */
  function NextOf(last: nat, reserved: seq<nat>, c: nat): Option<nat>
    requires c <= last
  {
    var r := SkipFrom(last, reserved, c);
    if r.At? then r.next else None
  }

  /** For any list, and any cursor that the pass gets off the reserved addresses: that is where next is. */
  lemma NextOfIff(last: nat, reserved: seq<nat>, c: nat, y: nat)
    requires c <= last && (c in reserved ==> RunListed(reserved, c, RunEnd(last, reserved, c)))
    ensures NextOf(last, reserved, c) == Some(y) <==> Continues(last, reserved, c, y)
  {
    PassLandsIff(last, reserved, c);
    if RunEnd(last, reserved, c) < y <= last {
      PassReachesIff(last, reserved, c, y);
      PassReachesIff(last, reserved, c, y + 1);
    }
  }

  /** What a pass lands on when it does not get off the reserved addresses: one of the run. */
  lemma {:induction false} PassStaysInRun(last: nat, reserved: seq<nat>, j: nat, p: nat, x: nat, to: nat)
    requires p < x <= to <= last + 1 && j <= |reserved| && (to <= last ==> to !in reserved)
    ensures var r := Skip(last, reserved[j..], Some(p), Position(last, x));
      Lands(last, r, to) || (r.At? && r.p.Some? && (r.p.value == p || x <= r.p.value < to))
    decreases |reserved| - j
  {
    if j < |reserved| {
      var ip := reserved[j];
      assert ip in reserved && reserved[j..][1..] == reserved[j + 1..];
      if ip == p && x == to {
        if to <= last {
          UnreservedStays(last, reserved, j + 1, to, Position(last, to + 1));
        }
      } else if ip == p {
        PassStaysInRun(last, reserved, j + 1, x, x + 1, to);
      } else if ip == x && x < to {
        PassStaysInRun(last, reserved, j + 1, p, x + 1, to);
      } else {
        PassStaysInRun(last, reserved, j + 1, p, x, to);
      }
    }
  }

  predicate RunStart(first: nat, reserved: seq<nat>, b: nat) {
    first <= b && b in reserved && (b == first || b - 1 !in reserved)
  }

  lemma {:induction false} RunStartBefore(first: nat, reserved: seq<nat>, c: nat) returns (b: nat)
    requires first <= c && c in reserved
    ensures b <= c && RunStart(first, reserved, b) && forall z :: b <= z <= c ==> z in reserved
    decreases c
  {
    if RunStart(first, reserved, c) {
      b := c;
    } else {
      b := RunStartBefore(first, reserved, c - 1);
    }
  }

  lemma RunTail(reserved: seq<nat>, b: nat, c: nat, to: nat)
    requires b <= c < to && RunListed(reserved, b, to)
    ensures RunListed(reserved, c, to)
  {
    var at :| RunAt(reserved, b, to, at);
    assert RunAt(reserved, c, to, at[c - b..]);
  }

  /** No reserved run of the block is listed with an entry ahead of two smaller ones. */
  ghost predicate RunsListed(first: nat, last: nat, reserved: seq<nat>) {
    forall b: nat :: b <= last && RunStart(first, reserved, b) ==> RunListed(reserved, b, RunEnd(last, reserved, b))
  }

  /** Every pass, from whatever cursor of the block, gets off the reserved addresses exactly for such lists. */
  lemma EveryPassLandsIff(first: nat, last: nat, reserved: seq<nat>)
    ensures (forall c: nat :: first <= c <= last ==>
               Lands(last, SkipFrom(last, reserved, c), RunEnd(last, reserved, c)))
      <==> RunsListed(first, last, reserved)
  {
    if RunsListed(first, last, reserved) {
      forall c: nat | first <= c <= last ensures Lands(last, SkipFrom(last, reserved, c), RunEnd(last, reserved, c)) {
        PassLandsIff(last, reserved, c);
        if c in reserved {
          var b := RunStartBefore(first, reserved, c);
          NextFreeFrom(last, reserved, b, c);
          RunTail(reserved, b, c, RunEnd(last, reserved, c));
        }
      }
    } else {
      var b: nat :| b <= last && RunStart(first, reserved, b) && !RunListed(reserved, b, RunEnd(last, reserved, b));
      PassLandsIff(last, reserved, b);
    }
  }

  /** An ascending list is good enough for every cursor. */
  lemma AscendingIsListed(last: nat, reserved: seq<nat>, c: nat)
    requires Ascending(reserved) && c <= last
    ensures PassListed(last, reserved, c)
  {
    PassFindsNextTwo(last, reserved, c);
    PassSettlesIff(last, reserved, c);
  }
}
