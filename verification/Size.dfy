/** How many addresses a subnet can hand out, counted over a prefix cover of its range. */
module Size {
  import opened Util
  import opened Address
  import opened Config
  import opened RoundRobin

  /** A gauge value: a count, or the floating-point infinity. */
  datatype Count = Finite(n: int) | Infinite

  function Plus(c: Count, d: int): Count {
    if c.Infinite? then c else Finite(c.n + d)
  }

  /** The summarizing library's contract: aligned blocks of one family, disjoint, covering exactly lo..hi. */
  ghost predicate Covers(ps: seq<Block>, family: Family, lo: nat, hi: nat) {
    && (forall p :: p in ps ==> Aligned(p) && p.family == family)
    && PairwiseDisjoint(ps)
    && (forall v: nat :: lo <= v <= hi <==> exists i :: 0 <= i < |ps| && Contains(ps[i], Addr(family, v)))
  }

  /** A prefix whose node count does not fit 64 bits counts as infinite. */
  predicate Huge(p: Block) {
    Pow2(p.bits) > 0xFFFF_FFFF_FFFF_FFFF
  }

  lemma {:induction false} Pow2Grows(j: nat, k: nat)
    requires j <= k
    ensures Pow2(j) <= Pow2(k)
    decreases k - j
  {
    if j < k {
      Pow2Grows(j, k - 1);
    }
  }

  lemma WordSize()
    ensures Pow2(63) == 0x8000_0000_0000_0000 && Pow2(64) == 0x1_0000_0000_0000_0000
  {
    assert Pow2(7) == 128 && Pow2(8) == 256;
    Pow2Adds(8, 8);
    Pow2Adds(16, 16);
    Pow2Adds(8, 7);
    Pow2Adds(16, 15);
    Pow2Adds(32, 31);
    assert Pow2(64) == 2 * Pow2(63);
  }

  /** These are the prefixes with 64 host bits or more. */
  lemma HugeIff(p: Block)
    ensures Huge(p) <==> p.bits >= 64
  {
    WordSize();
    if p.bits >= 64 {
      Pow2Grows(64, p.bits);
    } else {
      Pow2Grows(p.bits, 63);
    }
  }

  function Inside(p: Block, reserved: seq<Addr>): nat {
    if reserved == [] then 0
    else Inside(p, reserved[..|reserved| - 1]) + (if Contains(p, reserved[|reserved| - 1]) then 1 else 0)
  }

  /** Sum over the prefixes of their size less their reserved entries. */
  ghost function Total(ps: seq<Block>, reserved: seq<Addr>): int {
    if ps == [] then 0
    else
      var p := ps[|ps| - 1];
      Total(ps[..|ps| - 1], reserved) + Pow2(p.bits) - Inside(p, reserved)
  }

  /** The entries of a list whose value lies in u. */
  ghost function Hits(reserved: seq<Addr>, u: set<int>): nat {
    if reserved == [] then 0
    else Hits(reserved[..|reserved| - 1], u) + (if reserved[|reserved| - 1].value in u then 1 else 0)
  }

  /** The positions of the entries between lo and hi. */
  ghost function Positions(reserved: seq<Addr>, lo: nat, hi: nat): set<int> {
    set i | 0 <= i < |reserved| && lo <= reserved[i].value <= hi
  }

  /** An address listed twice counts twice. */
  lemma {:induction false} HitsAtPositions(reserved: seq<Addr>, lo: nat, hi: nat)
    ensures Hits(reserved, Interval(lo, hi)) == |Positions(reserved, lo, hi)|
  {
    if reserved == [] {
      assert Positions(reserved, lo, hi) == {};
    } else {
      var n := |reserved| - 1;
      HitsAtPositions(reserved[..n], lo, hi);
      var before := Positions(reserved[..n], lo, hi);
      forall i ensures i in Positions(reserved, lo, hi) <==> i in before || (i == n && lo <= reserved[n].value <= hi) {
      }
      assert Positions(reserved, lo, hi) == if lo <= reserved[n].value <= hi then before + {n} else before;
    }
  }

  lemma {:induction false} HitsAdd(reserved: seq<Addr>, u: set<int>, v: set<int>)
    requires u !! v
    ensures Hits(reserved, u + v) == Hits(reserved, u) + Hits(reserved, v)
  {
    if reserved != [] {
      HitsAdd(reserved[..|reserved| - 1], u, v);
    }
  }

  lemma {:induction false} HitsOfBlock(reserved: seq<Addr>, p: Block)
    requires Aligned(p) && forall r :: r in reserved ==> r.family == p.family
    ensures Hits(reserved, Interval(p.base, Last(p))) == Inside(p, reserved)
  {
    if reserved != [] {
      ContainsIsInterval(p, reserved[|reserved| - 1]);
      HitsOfBlock(reserved[..|reserved| - 1], p);
    }
  }

  lemma {:induction false} HitsOfEmpty(reserved: seq<Addr>)
    ensures Hits(reserved, {}) == 0
  {
    if reserved != [] {
      HitsOfEmpty(reserved[..|reserved| - 1]);
    }
  }

  ghost function Union(ps: seq<Block>): set<int> {
    if ps == [] then {}
    else Union(ps[..|ps| - 1]) + Interval(ps[|ps| - 1].base, Last(ps[|ps| - 1]))
  }

  lemma {:induction false} UnionMember(ps: seq<Block>, v: int)
    ensures v in Union(ps) <==> exists i :: 0 <= i < |ps| && ps[i].base <= v <= Last(ps[i])
  {
    if ps != [] {
      UnionMember(ps[..|ps| - 1], v);
    }
  }

  lemma LastIsApart(ps: seq<Block>, family: Family)
    requires ps != [] && PairwiseDisjoint(ps) && forall p :: p in ps ==> Aligned(p) && p.family == family
    ensures Union(ps[..|ps| - 1]) !! Interval(ps[|ps| - 1].base, Last(ps[|ps| - 1]))
  {
    var init, p := ps[..|ps| - 1], ps[|ps| - 1];
    forall v | v in Interval(p.base, Last(p)) ensures v !in Union(init) {
      UnionMember(init, v);
      forall i | 0 <= i < |init| ensures !(init[i].base <= v <= Last(init[i])) {
        var a := Addr(family, v);
        ContainsIsInterval(p, a);
        ContainsIsInterval(ps[i], a);
        assert Disjoint(ps[i], p);
      }
    }
  }

  /** However many prefixes there are, the sum counts the union's addresses less the reserved entries in it. */
  lemma {:induction false} TotalCountsUnion(ps: seq<Block>, family: Family, reserved: seq<Addr>)
    requires PairwiseDisjoint(ps) && forall p :: p in ps ==> Aligned(p) && p.family == family
    requires forall r :: r in reserved ==> r.family == family
    ensures Total(ps, reserved) == |Union(ps)| - Hits(reserved, Union(ps))
  {
    if ps == [] {
      HitsOfEmpty(reserved);
    } else {
      var init, p := ps[..|ps| - 1], ps[|ps| - 1];
      TotalCountsUnion(init, family, reserved);
      LastIsApart(ps, family);
      IntervalCard(p.base, Last(p));
      HitsOfBlock(reserved, p);
      HitsAdd(reserved, Union(init), Interval(p.base, Last(p)));
    }
  }

  lemma CoverMember(ps: seq<Block>, family: Family, lo: nat, hi: nat, v: int)
    requires Covers(ps, family, lo, hi)
    ensures v in Union(ps) <==> lo <= v <= hi
  {
    UnionMember(ps, v);
    if v >= 0 {
      forall i | 0 <= i < |ps| ensures Contains(ps[i], Addr(family, v)) <==> ps[i].base <= v <= Last(ps[i]) {
        ContainsIsInterval(ps[i], Addr(family, v));
      }
    }
  }

  /** The total over any disjoint cover of a range is the range's size less the reserved entries in the range. */
  lemma CoverTotal(ps: seq<Block>, family: Family, lo: nat, hi: nat, reserved: seq<Addr>)
    requires lo <= hi && Covers(ps, family, lo, hi)
    requires forall r :: r in reserved ==> r.family == family
    ensures Total(ps, reserved) == hi - lo + 1 - Hits(reserved, Interval(lo, hi))
  {
    TotalCountsUnion(ps, family, reserved);
    forall v: int ensures v in Union(ps) <==> v in Interval(lo, hi) {
      CoverMember(ps, family, lo, hi, v);
    }
    assert Union(ps) == Interval(lo, hi);
    IntervalCard(lo, hi);
  }

  ghost function Listed(values: seq<nat>, lo: int, hi: int): set<int> {
    set y | y in Interval(lo, hi) && y in values
  }

  lemma {:induction false} RingLength(reserved: seq<nat>, x: nat, e: nat)
    requires x <= e + 1
    ensures |FreeFrom(reserved, x, e)| == e - x + 1 - |Listed(reserved, x, e)|
    decreases e + 1 - x
  {
    if x <= e {
      RingLength(reserved, x + 1, e);
      var tail := Listed(reserved, x + 1, e);
      if x in reserved {
        assert Listed(reserved, x, e) == tail + {x};
      } else {
        assert Listed(reserved, x, e) == tail;
      }
    } else {
      assert Listed(reserved, x, e) == {};
    }
  }

  lemma ListedSnoc(init: seq<nat>, v: nat, lo: nat, hi: nat)
    requires v !in init
    ensures |Listed(init + [v], lo, hi)| == |Listed(init, lo, hi)| + (if lo <= v <= hi then 1 else 0)
  {
    var before, after := Listed(init, lo, hi), Listed(init + [v], lo, hi);
    if lo <= v <= hi {
      assert after == before + {v};
    } else {
      assert after == before;
    }
  }

  lemma {:induction false} HitsOfDistinct(reserved: seq<Addr>, family: Family, values: seq<nat>, lo: nat, hi: nat)
    requires NoDup(reserved) && |values| == |reserved|
    requires forall i :: 0 <= i < |reserved| ==> reserved[i] == Addr(family, values[i])
    ensures Hits(reserved, Interval(lo, hi)) == |Listed(values, lo, hi)|
  {
    if reserved == [] {
      assert Listed(values, lo, hi) == {};
    } else {
      var n := |reserved| - 1;
      var init, v := values[..n], values[n];
      HitsOfDistinct(reserved[..n], family, init, lo, hi);
      assert v !in init by {
        forall k | 0 <= k < n ensures init[k] != v {
          assert reserved[k] != reserved[n];
        }
      }
      assert values == init + [v];
      ListedSnoc(init, v, lo, hi);
    }
  }

  /** The range's size less its reserved entries is the number of allowed addresses, when no address is listed twice. */
  lemma RangeSizeIsRingLength(s: Subnet)
    requires Validate(s) == Valid && NoDup(s.reserved)
    ensures EndOf(s) - StartOf(s) + 1 - Hits(s.reserved, Interval(StartOf(s), EndOf(s))) == |Ring(s)|
  {
    ValidSubnetShape(s);
    RingLength(ReservedValues(s), StartOf(s), EndOf(s));
    HitsOfDistinct(s.reserved, s.block.family, ReservedValues(s), StartOf(s), EndOf(s));
  }

  lemma WholeBlockCovers(s: Subnet)
    requires Validate(s) == Valid && s.start.None? && s.end.None?
    ensures Covers([s.block], s.block.family, StartOf(s), EndOf(s))
  {
    ValidSubnetShape(s);
    var ps := [s.block];
    forall v: nat
      ensures StartOf(s) <= v <= EndOf(s) <==> exists i :: 0 <= i < |ps| && Contains(ps[i], Addr(s.block.family, v))
    {
      ContainsIsInterval(s.block, Addr(s.block.family, v));
      assert Contains(ps[0], Addr(s.block.family, v)) || forall i :: 0 <= i < |ps| ==> ps[i] == s.block;
    }
  }

  lemma TotalNext(ps: seq<Block>, reserved: seq<Addr>, i: nat)
    requires i < |ps|
    ensures Total(ps[..i + 1], reserved) == Total(ps[..i], reserved) + Pow2(ps[i].bits) - Inside(ps[i], reserved)
  {
    assert ps[..i + 1][..i] == ps[..i];
  }

  lemma InsideNext(p: Block, reserved: seq<Addr>, j: nat)
    requires j < |reserved|
    ensures Inside(p, reserved[..j + 1]) == Inside(p, reserved[..j]) + (if Contains(p, reserved[j]) then 1 else 0)
  {
    assert reserved[..j + 1][..j] == reserved[..j];
  }

  lemma TotalIsSize(s: Subnet, ps: seq<Block>)
    requires Validate(s) == Valid && Covers(ps, s.block.family, StartOf(s), EndOf(s))
    ensures Total(ps, s.reserved) == EndOf(s) - StartOf(s) + 1
      - |set i | 0 <= i < |s.reserved| && StartOf(s) <= s.reserved[i].value <= EndOf(s)|
    ensures NoDup(s.reserved) ==> Total(ps, s.reserved) == |Ring(s)|
  {
    ValidSubnetShape(s);
    HitsAtPositions(s.reserved, StartOf(s), EndOf(s));
    CoverTotal(ps, s.block.family, StartOf(s), EndOf(s), s.reserved);
    if NoDup(s.reserved) {
      RangeSizeIsRingLength(s);
    }
  }

  /** The inner loop: one off the size for every reserved entry within the prefix. */
  method LessReserved(p: Block, reserved: seq<Addr>, before: Count) returns (size: Count)
    ensures size == Plus(before, 0 - Inside(p, reserved))
  {
    size := before;
    for j := 0 to |reserved|
      invariant size == Plus(before, 0 - Inside(p, reserved[..j]))
    {
      InsideNext(p, reserved, j);
      if Contains(p, reserved[j]) {
        size := Plus(size, -1);
      }
    }
    assert reserved[..|reserved|] == reserved;
  }

  ghost predicate SizeOf(ps: seq<Block>, reserved: seq<Addr>, n: nat, size: Count)
    requires n <= |ps|
  {
    && (size.Infinite? <==> exists k :: 0 <= k < n && Huge(ps[k]))
    && (size.Finite? ==> size.n == Total(ps[..n], reserved))
  }

  lemma SizeNext(ps: seq<Block>, reserved: seq<Addr>, i: nat, before: Count, size: Count)
    requires i < |ps| && SizeOf(ps, reserved, i, before)
    requires size == Plus(if Huge(ps[i]) then Infinite else Plus(before, Pow2(ps[i].bits)), 0 - Inside(ps[i], reserved))
    ensures SizeOf(ps, reserved, i + 1, size)
  {
    TotalNext(ps, reserved, i);
  }

  /**
   * The size gauge: infinite when a prefix has more addresses than 64 bits can count, else the length of the range less
   * its reserved entries, which is the number of addresses the allocator can hand out if none is reserved twice.
   */
  method AllocatableSize(s: Subnet, summary: seq<Block>) returns (size: Count)
    requires Validate(s) == Valid
    requires s.start.Some? || s.end.Some? ==> Covers(summary, s.block.family, StartOf(s), EndOf(s))
    ensures var ps := if s.start.None? && s.end.None? then [s.block] else summary;
      && (size.Infinite? <==> exists i :: 0 <= i < |ps| && Pow2(ps[i].bits) > 0xFFFF_FFFF_FFFF_FFFF)
      && (size.Infinite? <==> exists i :: 0 <= i < |ps| && ps[i].bits >= 64)
    ensures size.Finite? ==>
      size.n == EndOf(s) - StartOf(s) + 1
        - |set i | 0 <= i < |s.reserved| && StartOf(s) <= s.reserved[i].value <= EndOf(s)|
    ensures size.Finite? && NoDup(s.reserved) ==> size.n == |Ring(s)|
  {
    var ps := summary;
    if s.start.None? && s.end.None? {
      ps := [s.block];
      WholeBlockCovers(s);
    }
    size := Finite(0);
    for i := 0 to |ps|
      invariant SizeOf(ps, s.reserved, i, size)
    {
      ghost var before := size;
      var sum := if Huge(ps[i]) then Infinite else Plus(size, Pow2(ps[i].bits));
      size := LessReserved(ps[i], s.reserved, sum);
      SizeNext(ps, s.reserved, i, before, size);
    }
    assert ps[..|ps|] == ps;
    forall i | 0 <= i < |ps| ensures Huge(ps[i]) <==> ps[i].bits >= 64 {
      HugeIff(ps[i]);
    }
    TotalIsSize(s, ps);
  }
}
