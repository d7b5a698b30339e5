/** Subnet configuration: what a single subnet must satisfy, and the overlap check over all of them. */
module Config {
  import opened Util
  import opened Address

  datatype Subnet = Subnet(block: Block, start: Option<Addr>, end: Option<Addr>, reserved: seq<Addr>)

  datatype Validation =
    | Valid
    | NotASubnet
    | StartOutside
    | EndOutside
    | EndBeforeStart
    | ReservedOutside

  function Validate(s: Subnet): Validation {
    var masked := s.block.(base := Mask(s.block.base, s.block.bits));
    if s.block.base != masked.base then NotASubnet
    else if s.start.Some? && !Contains(masked, s.start.value) then StartOutside
    else if s.end.Some? && !Contains(masked, s.end.value) then EndOutside
    else if s.start.Some? && s.end.Some? && s.start.value.value > s.end.value.value then EndBeforeStart
    else if exists r :: r in s.reserved && !Contains(masked, r) then ReservedOutside
    else Valid
  }

  function StartOf(s: Subnet): nat {
    if s.start.Some? then s.start.value.value else s.block.base
  }

  function EndOf(s: Subnet): nat {
    if s.end.Some? then s.end.value.value else Last(s.block)
  }

  function ReservedValues(s: Subnet): seq<nat> {
    seq(|s.reserved|, i requires 0 <= i < |s.reserved| => s.reserved[i].value)
  }

  /** The block of every valid subnet is an interval that holds a non-empty range and all reserved addresses. */
  lemma ValidSubnetShape(s: Subnet)
    requires Validate(s) == Valid
    ensures Aligned(s.block)
    ensures s.block.base <= StartOf(s) <= EndOf(s) <= Last(s.block)
    ensures forall r :: r in s.reserved ==> r.family == s.block.family && s.block.base <= r.value <= Last(s.block)
  {
    if s.start.Some? {
      ContainsIsInterval(s.block, s.start.value);
    }
    if s.end.Some? {
      ContainsIsInterval(s.block, s.end.value);
    }
    forall r | r in s.reserved
      ensures r.family == s.block.family && s.block.base <= r.value <= Last(s.block)
    {
      ContainsIsInterval(s.block, r);
    }
  }

  /** Validation accepts exactly the subnets whose addresses are ordered inside one aligned block. */
  lemma ValidateAcceptsIff(s: Subnet)
    ensures Validate(s) == Valid <==>
      && Aligned(s.block)
      && (s.start.Some? ==> s.start.value.family == s.block.family)
      && (s.end.Some? ==> s.end.value.family == s.block.family)
      && s.block.base <= StartOf(s) <= EndOf(s) <= Last(s.block)
      && forall r :: r in s.reserved ==> r.family == s.block.family && s.block.base <= r.value <= Last(s.block)
  {
    if Aligned(s.block) {
      forall a
        ensures Contains(s.block, a) <==> a.family == s.block.family && s.block.base <= a.value <= Last(s.block)
      {
        ContainsIsInterval(s.block, a);
      }
    }
  }

  /** The address is in the block. */
  predicate Within(b: Block, a: Addr) {
    a.family == b.family && b.base <= a.value <= Last(b)
  }

  /** Which error is reported: the first of these that applies, in this order. */
  lemma ValidateReports(s: Subnet)
    ensures var startOut := s.start.Some? && !Within(s.block, s.start.value);
      var endOut := s.end.Some? && !Within(s.block, s.end.value);
      var crossed := s.start.Some? && s.end.Some? && s.start.value.value > s.end.value.value;
      && (Validate(s) == NotASubnet <==> s.block.base % Pow2(s.block.bits) != 0)
      && (Validate(s) == StartOutside <==> Aligned(s.block) && startOut)
      && (Validate(s) == EndOutside <==> Aligned(s.block) && !startOut && endOut)
      && (Validate(s) == EndBeforeStart <==> Aligned(s.block) && !startOut && !endOut && crossed)
      && (Validate(s) == ReservedOutside <==>
            Aligned(s.block) && !startOut && !endOut && !crossed
            && exists i :: 0 <= i < |s.reserved| && !Within(s.block, s.reserved[i]))
  {
    assert s.block.base == Mask(s.block.base, s.block.bits) + s.block.base % Pow2(s.block.bits);
    if Aligned(s.block) {
      forall a: Addr ensures Contains(s.block, a) <==> Within(s.block, a) {
        ContainsIsInterval(s.block, a);
      }
    }
  }

  datatype Check = Accepted | NoSubnets | Duplicate | Overlapping

  ghost predicate PairwiseDisjoint(bs: seq<Block>) {
    forall i, j :: 0 <= i < j < |bs| ==> Disjoint(bs[i], bs[j])
  }

  /** The configuration check accepts exactly the non-empty lists of pairwise disjoint blocks. */
  method CheckSubnets(bs: seq<Block>) returns (r: Check)
    requires forall b :: b in bs ==> Aligned(b)
    ensures r == Accepted <==> |bs| > 0 && PairwiseDisjoint(bs)
    ensures r == NoSubnets <==> bs == []
    ensures r == Duplicate <==> !NoDup(bs)
  {
    if |bs| == 0 {
      return NoSubnets;
    }
    var seen: set<Block> := {};
    for i := 0 to |bs|
      invariant seen == Elems(bs[..i])
      invariant NoDup(bs[..i])
    {
      if bs[i] in seen {
        var j :| 0 <= j < i && bs[j] == bs[i];
        var a := Addr(bs[i].family, bs[i].base);
        assert Contains(bs[j], a) && Contains(bs[i], a);
        return Duplicate;
      }
      assert bs[..i + 1] == bs[..i] + [bs[i]];
      seen := seen + {bs[i]};
    }
    assert bs[..|bs|] == bs;
    for i := 0 to |bs|
      invariant forall k, j :: 0 <= k < i && 0 <= j < |bs| && k != j ==> Disjoint(bs[k], bs[j])
    {
      for j := 0 to |bs|
        invariant forall l :: 0 <= l < j && l != i ==> Disjoint(bs[i], bs[l])
      {
        OverlapsIffNotDisjoint(bs[i], bs[j]);
        if bs[i] != bs[j] && Overlaps(bs[i], bs[j]) {
          var a :| Contains(bs[i], a) && Contains(bs[j], a);
          assert !Disjoint(bs[i], bs[j]) && !Disjoint(bs[j], bs[i]);
          return Overlapping;
        }
      }
    }
    r := Accepted;
  }
}
