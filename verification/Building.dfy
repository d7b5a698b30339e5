/** Construction of the dual-stack allocator from a configured list of subnets. */
module Building {
  import opened Address
  import opened Config
  import opened Engine
  import opened MetricsStores
  import opened SimpleAllocators
  import opened MultiAllocators

  /** The subnets of one family, in configured order. */
  function OfFamily(subnets: seq<Subnet>, f: Family): seq<Subnet> {
    if subnets == [] then []
    else
      var n := |subnets| - 1;
      OfFamily(subnets[..n], f) + (if subnets[n].block.family == f then [subnets[n]] else [])
  }

  lemma {:induction false} OfFamilyMembers(subnets: seq<Subnet>, f: Family)
    ensures forall s :: s in OfFamily(subnets, f) <==> s in subnets && s.block.family == f
  {
    if subnets != [] {
      var n := |subnets| - 1;
      OfFamilyMembers(subnets[..n], f);
      assert subnets == subnets[..n] + [subnets[n]];
    }
  }

  /** Where in the configuration each of them stands: in the same order, and with none of the family left out. */
  lemma {:induction false} OfFamilyOrder(subnets: seq<Subnet>, f: Family) returns (at: seq<nat>)
    ensures |at| == |OfFamily(subnets, f)|
    ensures forall i :: 0 <= i < |at| ==> at[i] < |subnets| && subnets[at[i]] == OfFamily(subnets, f)[i]
    ensures forall i, j :: 0 <= i < j < |at| ==> at[i] < at[j]
    ensures forall k :: 0 <= k < |subnets| && subnets[k].block.family == f ==> k in at
  {
    at := [];
    if subnets != [] {
      var n := |subnets| - 1;
      at := OfFamilyOrder(subnets[..n], f);
      if subnets[n].block.family == f {
        at := at + [n];
      }
    }
  }

  lemma {:induction false} OfFamilyApart(subnets: seq<Subnet>, f: Family)
    requires Apart(subnets)
    ensures Apart(OfFamily(subnets, f))
  {
    if subnets != [] {
      var n := |subnets| - 1;
      var init := subnets[..n];
      assert Apart(init);
      OfFamilyApart(init, f);
      OfFamilyMembers(init, f);
      forall s | s in OfFamily(init, f) ensures Disjoint(s.block, subnets[n].block) {
        var i :| 0 <= i < n && subnets[i] == s;
      }
    }
  }

  function ServerOf(subnets: seq<Subnet>, duration: int): Server {
    Server(OfFamily(subnets, IPv4), OfFamily(subnets, IPv6), duration)
  }

  lemma ServerOfIsGood(subnets: seq<Subnet>, duration: int)
    requires Apart(subnets) && AllValid(subnets)
    ensures GoodServer(ServerOf(subnets, duration))
  {
    OfFamilyMembers(subnets, IPv4);
    OfFamilyMembers(subnets, IPv6);
    OfFamilyApart(subnets, IPv4);
    OfFamilyApart(subnets, IPv6);
    var v := ServerOf(subnets, duration);
    var all := SubnetsOf(v);
    forall i, j | 0 <= i < j < |all| ensures Disjoint(all[i].block, all[j].block) {
      if j < |v.subs4| {
        assert all[i] == v.subs4[i] && all[j] == v.subs4[j];
      } else if |v.subs4| <= i {
        assert all[i] == v.subs6[i - |v.subs4|] && all[j] == v.subs6[j - |v.subs4|];
      } else {
        assert all[i] in v.subs4 && all[j] in v.subs6;
      }
    }
  }

  /** The store's subnets once these have been registered on a memory store, in order. */
  function Register(subnets: map<Block, set<Addr>>, subs: seq<Subnet>): map<Block, set<Addr>> {
    if subs == [] then subnets else Register(subnets, subs[..|subs| - 1])[subs[|subs| - 1].block := {}]
  }

  predicate AllValid(subs: seq<Subnet>) {
    forall t :: t in subs ==> Validate(t) == Config.Valid
  }

  lemma ValidByFamily(subnets: seq<Subnet>)
    ensures AllValid(subnets) <==> AllValid(OfFamily(subnets, IPv4)) && AllValid(OfFamily(subnets, IPv6))
  {
    OfFamilyMembers(subnets, IPv4);
    OfFamilyMembers(subnets, IPv6);
  }

  /** A new allocator of this subnet on this store, its cursor on the start. */
  ghost predicate Built(a: SimpleAllocator, s: MetricsStore, sub: Subnet)
    reads a, a.c
  {
    a.Valid() && a.s == s && a.sub == sub && a.c.pos == StartOf(sub)
  }

  ghost predicate AllBuilt(allocs: seq<SimpleAllocator>, s: MetricsStore, subs: seq<Subnet>)
    reads set a | a in allocs, set a | a in allocs :: a.c
  {
    && |allocs| == |subs|
    && (forall i :: 0 <= i < |subs| ==> Built(allocs[i], s, subs[i]))
    && (forall i, j :: 0 <= i < j < |subs| ==> allocs[i].c != allocs[j].c)
  }

  lemma BuiltMore(allocs: seq<SimpleAllocator>, s: MetricsStore, subs: seq<Subnet>, a: SimpleAllocator, sub: Subnet)
    requires AllBuilt(allocs, s, subs) && Built(a, s, sub) && forall b :: b in allocs ==> b.c != a.c
    ensures AllBuilt(allocs + [a], s, subs + [sub])
  {
  }

  lemma BuiltTogether(s: MetricsStore, as4: seq<SimpleAllocator>, sub4: seq<Subnet>,
      as6: seq<SimpleAllocator>, sub6: seq<Subnet>)
    requires AllBuilt(as4, s, sub4) && AllBuilt(as6, s, sub6) && forall a, b :: a in as4 && b in as6 ==> a.c != b.c
    ensures AllBuilt(as4 + as6, s, sub4 + sub6) && SubsOf(as4) == sub4 && SubsOf(as6) == sub6
  {
    assert SubsOf(as4) == sub4 && SubsOf(as6) == sub6;
  }

  /** One allocator for each subnet of a family; an invalid subnet stops the construction. */
  method BuildFamily(s: MetricsStore, subs: seq<Subnet>) returns (ok: bool, allocs: seq<SimpleAllocator>)
    modifies s.store`subnets
    ensures ok <==> AllValid(subs)
    ensures ok ==> AllBuilt(allocs, s, subs) && s.store.subnets == Register(old(s.store.subnets), subs)
    ensures forall a :: a in allocs ==> fresh(a) && fresh(a.c)
  {
    ok, allocs := true, [];
    for n := 0 to |subs|
      invariant AllValid(subs[..n]) && AllBuilt(allocs, s, subs[..n])
      invariant s.store.subnets == Register(old(s.store.subnets), subs[..n])
      invariant forall a :: a in allocs ==> fresh(a) && fresh(a.c)
    {
      assert subs[..n + 1][..n] == subs[..n] && subs[..n + 1] == subs[..n] + [subs[n]];
      if Validate(subs[n]) != Config.Valid {
        ok := false;
        return;
      }
      var a := new SimpleAllocator(s, subs[n]);
      BuiltMore(allocs, s, subs[..n], a, subs[n]);
      allocs := allocs + [a];
    }
    assert subs[..|subs|] == subs;
  }

  /** Maps each block to its allocator's cursor. */
  ghost function CursorsOf(allocs: seq<SimpleAllocator>): (m: map<Block, Cursor>)
    requires Apart(SubsOf(allocs))
    ensures forall i :: 0 <= i < |allocs| ==> allocs[i].sub.block in m && m[allocs[i].sub.block] == allocs[i].c
    ensures forall b :: b in m ==> exists i :: 0 <= i < |allocs| && allocs[i].sub.block == b
  {
    BlocksDiffer(allocs);
    map i | 0 <= i < |allocs| :: allocs[i].sub.block := allocs[i].c
  }

  lemma BlocksDiffer(allocs: seq<SimpleAllocator>)
    requires Apart(SubsOf(allocs))
    ensures forall i, j :: 0 <= i < j < |allocs| ==> allocs[i].sub.block != allocs[j].sub.block
  {
    forall i, j | 0 <= i < j < |allocs| ensures allocs[i].sub.block != allocs[j].sub.block {
      var b, c := SubsOf(allocs)[i].block, SubsOf(allocs)[j].block;
      assert Disjoint(b, c) && Contains(b, Addr(b.family, b.base));
    }
  }

  lemma SubsOfConcat(s: seq<SimpleAllocator>, t: seq<SimpleAllocator>)
    ensures SubsOf(s + t) == SubsOf(s) + SubsOf(t)
  {
  }

  lemma CursorKeys(all: seq<SimpleAllocator>, v: Server)
    requires Apart(SubsOf(all)) && SubsOf(all) == SubnetsOf(v)
    ensures CursorsOf(all).Keys == Blocks(v)
  {
    var m := CursorsOf(all);
    forall b ensures b in m <==> b in Blocks(v) {
      if b in m {
        var i :| 0 <= i < |all| && all[i].sub.block == b;
        assert SubsOf(all)[i] in SubnetsOf(v);
      }
      if b in Blocks(v) {
        var t :| t in SubsOf(all) && t.block == b;
        var i :| 0 <= i < |all| && SubsOf(all)[i] == t;
        assert all[i].sub.block in m;
      }
    }
  }

  lemma CursorsAreOwn(all: seq<SimpleAllocator>)
    requires Apart(SubsOf(all)) && forall i, j :: 0 <= i < j < |all| ==> all[i].c != all[j].c
    ensures OwnCursors(CursorsOf(all))
  {
    var m := CursorsOf(all);
    forall b, c | b in m && c in m && b != c ensures m[b] != m[c] {
      var i :| 0 <= i < |all| && all[i].sub.block == b;
      var j :| 0 <= j < |all| && all[j].sub.block == c;
      assert i < j || j < i;
    }
  }

  lemma CursorsStart(all: seq<SimpleAllocator>, s: MetricsStore, subs: seq<Subnet>)
    requires Apart(SubsOf(all)) && AllBuilt(all, s, subs)
    ensures AtStarts(CursorsOf(all), subs)
  {
    forall t | t in subs ensures t.block in CursorsOf(all) && CursorsOf(all)[t.block].pos == StartOf(t) {
      var i :| 0 <= i < |subs| && subs[i] == t;
      assert Built(all[i], s, subs[i]);
    }
  }

  lemma AllMembers(all: seq<SimpleAllocator>, s: MetricsStore, subs: seq<Subnet>)
    requires Apart(SubsOf(all)) && AllBuilt(all, s, subs)
    ensures forall a :: a in all ==> Member(a, s, CursorsOf(all))
  {
    forall a | a in all ensures Member(a, s, CursorsOf(all)) {
      var i :| 0 <= i < |all| && all[i] == a;
      assert Built(all[i], s, subs[i]);
    }
  }

  /** The subnets by family, each in configured order. */
  method SplitByFamily(subnets: seq<Subnet>) returns (sub4: seq<Subnet>, sub6: seq<Subnet>)
    ensures sub4 == OfFamily(subnets, IPv4) && sub6 == OfFamily(subnets, IPv6)
  {
    sub4, sub6 := [], [];
    for i := 0 to |subnets|
      invariant sub4 == OfFamily(subnets[..i], IPv4) && sub6 == OfFamily(subnets[..i], IPv6)
    {
      assert subnets[..i + 1][..i] == subnets[..i];
      if subnets[i].block.family == IPv4 {
        sub4 := sub4 + [subnets[i]];
      } else {
        sub6 := sub6 + [subnets[i]];
      }
    }
    assert subnets[..|subnets|] == subnets;
  }

  /** Every one of these subnets has a cursor, and it is on the subnet's start. */
  ghost predicate AtStarts(cursorOf: map<Block, Cursor>, subs: seq<Subnet>)
    reads cursorOf.Values
  {
    forall t :: t in subs ==> t.block in cursorOf && cursorOf[t.block].pos == StartOf(t)
  }

  lemma PartsFit(s: MetricsStore, as4: seq<SimpleAllocator>, as6: seq<SimpleAllocator>, v: Server)
    requires GoodServer(v) && AllBuilt(as4, s, v.subs4) && AllBuilt(as6, s, v.subs6)
    requires forall a, b :: a in as4 && b in as6 ==> a.c != b.c
    ensures Apart(SubsOf(as4 + as6)) && SubsOf(as4) == v.subs4 && SubsOf(as6) == v.subs6
    ensures var cursorOf := CursorsOf(as4 + as6);
      && (forall a :: a in as4 + as6 ==> Member(a, s, cursorOf))
      && cursorOf.Keys == Blocks(v) && OwnCursors(cursorOf) && AtStarts(cursorOf, SubnetsOf(v))
  {
    var all := as4 + as6;
    BuiltTogether(s, as4, v.subs4, as6, v.subs6);
    SubsOfConcat(as4, as6);
    CursorKeys(all, v);
    CursorsAreOwn(all);
    CursorsStart(all, s, SubnetsOf(v));
    AllMembers(all, s, SubnetsOf(v));
  }

  /** The cursors of a good server's allocators, by block. */
  lemma CursorMap(s: MetricsStore, as4: seq<SimpleAllocator>, as6: seq<SimpleAllocator>, v: Server)
    returns (cursorOf: map<Block, Cursor>)
    requires AllBuilt(as4, s, v.subs4) && AllBuilt(as6, s, v.subs6)
    requires forall a, b :: a in as4 && b in as6 ==> a.c != b.c
    ensures GoodServer(v) ==>
      && SubsOf(as4) == v.subs4 && SubsOf(as6) == v.subs6
      && (forall a :: a in as4 + as6 ==> Member(a, s, cursorOf))
      && cursorOf.Keys == Blocks(v) && OwnCursors(cursorOf) && AtStarts(cursorOf, SubnetsOf(v))
  {
    cursorOf := map[];
    if GoodServer(v) {
      PartsFit(s, as4, as6, v);
      cursorOf := CursorsOf(as4 + as6);
    }
  }

  /** Puts built allocators together. */
  method Assemble(s: MetricsStore, as4: seq<SimpleAllocator>, as6: seq<SimpleAllocator>, ghost v: Server)
    returns (m: MultiAllocator)
    requires AllBuilt(as4, s, v.subs4) && AllBuilt(as6, s, v.subs6)
    requires forall a, b :: a in as4 && b in as6 ==> a.c != b.c
    ensures fresh(m) && m.s == s && m.server == v && m.as4 == as4 && m.as6 == as6
    ensures GoodServer(v) ==> m.Valid() && AtStarts(m.cursorOf, SubnetsOf(v))
  {
    ghost var cursorOf := CursorMap(s, as4, as6, v);
    m := new MultiAllocator(s, as4, as6, v, cursorOf);
  }

  /**
   * The dual-stack allocator: fails without subnets or with an invalid one, and otherwise has one allocator for each
   * subnet of each family, in order, its cursor on its start, with every subnet registered; overlapping subnets are not
   * refused. When none overlap it is a valid whole.
   */
  method DualStack(s: MetricsStore, subnets: seq<Subnet>, ghost duration: int) returns (m: MultiAllocator?)
    modifies s.store`subnets
    ensures m == null <==> subnets == [] || exists s :: s in subnets && Validate(s) != Config.Valid
    ensures m != null ==>
      var v := ServerOf(subnets, duration);
      && fresh(m) && m.s == s && m.server == v
      && AllBuilt(m.as4, s, v.subs4) && AllBuilt(m.as6, s, v.subs6)
      && s.store.subnets == Register(Register(old(s.store.subnets), v.subs4), v.subs6)
      && (Apart(subnets) ==> GoodServer(v) && m.Valid() && AtStarts(m.cursorOf, SubnetsOf(v)))
  {
    m := null;
    if |subnets| == 0 {
      return;
    }
    var sub4, sub6 := SplitByFamily(subnets);
    ValidByFamily(subnets);
    var ok4, as4 := BuildFamily(s, sub4);
    if !ok4 {
      return;
    }
    var ok6, as6 := BuildFamily(s, sub6);
    if !ok6 {
      return;
    }
    if Apart(subnets) {
      ServerOfIsGood(subnets, duration);
    }
    m := Assemble(s, as4, as6, ServerOf(subnets, duration));
  }
}
