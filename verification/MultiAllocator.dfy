/** The allocator over all subnets: allocation loops, rollback and free, proved against the engine. */
module MultiAllocators {
  import opened Address
  import opened Config
  import opened Store
  import opened Metrics
  import opened Engine
  import opened MetricsStores
  import opened SimpleAllocators

  ghost function SubsOf(allocs: seq<SimpleAllocator>): seq<Subnet> {
    seq(|allocs|, i requires 0 <= i < |allocs| => allocs[i].sub)
  }

  /** The allocators of one family. */
  datatype Pair = Pair(f: Family, allocs: seq<SimpleAllocator>)

  ghost function SubsOfPairs(pairs: seq<Pair>): seq<Subnet> {
    if pairs == [] then [] else SubsOf(pairs[0].allocs) + SubsOfPairs(pairs[1..])
  }

  ghost function Positions(cursorOf: map<Block, Cursor>): map<Block, nat>
    reads cursorOf.Values
  {
    map b | b in cursorOf :: cursorOf[b].pos
  }

  ghost predicate OwnCursors(cursorOf: map<Block, Cursor>) {
    forall b, c :: b in cursorOf && c in cursorOf && b != c ==> cursorOf[b] != cursorOf[c]
  }

  lemma OneMoved(before: map<Block, nat>, now: map<Block, nat>, b: Block)
    requires now.Keys == before.Keys && b in now
    requires forall c :: c in now && c != b ==> now[c] == before[c]
    ensures now == before[b := now[b]]
  {
  }

  /** One turn of the allocation loop: the subnet at index i is tried, and either the walk ends or i moves on. */
  lemma TryStep(v: Server, subs: seq<Subnet>, i: nat, y: Sys, out: seq<Addr>)
    requires Sound(v, y) && i < |subs| && forall t :: t in subs ==> t in SubnetsOf(v)
    ensures var whole := Prepend(out, TryAllocate(subs[i..], y));
      match AllocateOne(subs[i], y)
      case OnePanic => whole.ManyPanic?
      case NoAddress(y') => whole == Many(out, false, y') && Sound(v, y')
      case Address(a, y') => Sound(v, y') && whole == Prepend(out + [a], TryAllocate(subs[i + 1..], y'))
  {
    assert subs[i..][0] == subs[i] && subs[i..][1..] == subs[i + 1..];
    assert forall t :: t in subs[i..] ==> t in subs;
    var one := AllocateOne(subs[i], y);
    if !one.OnePanic? {
      AllocateOneEffect(v, subs[i], y);
    }
    if one.Address? {
      var rest := TryAllocate(subs[i + 1..], one.sys);
      assert rest.Many? ==> out + ([one.a] + rest.ips) == out + [one.a] + rest.ips;
    } else {
      assert out + [] == out;
    }
  }

  ghost predicate AllConfigured(v: Server, subs: seq<Subnet>) {
    forall t :: t in subs ==> t in SubnetsOf(v)
  }

  /** Goes on with t where r left off, if nothing failed so far. */
  ghost function Then(r: Many, t: seq<Subnet>): Many
    requires r.Many? && r.ok ==> forall z :: z in t ==> Served(z, r.sys)
  {
    if r.Many? && r.ok then Prepend(r.ips, TryAllocate(t, r.sys)) else r
  }

  lemma PrependTwice(a: seq<Addr>, b: seq<Addr>, r: Many)
    ensures Prepend(a, Prepend(b, r)) == Prepend(a + b, r)
  {
    if r.Many? {
      assert a + (b + r.ips) == a + b + r.ips;
    }
  }

  lemma PrependNothing(r: Many)
    ensures Prepend([], r) == r
  {
    assert r.Many? ==> [] + r.ips == r.ips;
  }

  lemma StillServed(v: Server, s: seq<Subnet>, t: seq<Subnet>, y: Sys)
    requires Sound(v, y) && AllConfigured(v, s) && AllConfigured(v, t)
    ensures var r := TryAllocate(s, y); r.Many? ==> Sound(v, r.sys) && forall z :: z in t ==> Served(z, r.sys)
  {
    TryAllocateEffect(v, s, y);
  }

  lemma ThenPrepends(a: Addr, r: Many, t: seq<Subnet>)
    requires r.Many? ==> forall z :: z in t ==> Served(z, r.sys)
    ensures Then(Prepend([a], r), t) == Prepend([a], Then(r, t))
  {
    if r.Many? && r.ok {
      PrependTwice([a], r.ips, TryAllocate(t, r.sys));
    }
  }

  lemma {:induction false} TryConcat(v: Server, s: seq<Subnet>, t: seq<Subnet>, y: Sys)
    requires Sound(v, y) && AllConfigured(v, s) && AllConfigured(v, t)
    ensures AllConfigured(v, s + t)
    ensures var r := TryAllocate(s, y); r.Many? ==> forall z :: z in t ==> Served(z, r.sys)
    ensures TryAllocate(s + t, y) == Then(TryAllocate(s, y), t)
    decreases |s|
  {
    StillServed(v, s, t, y);
    if s == [] {
      assert s + t == t;
      PrependNothing(TryAllocate(t, y));
    } else {
      assert (s + t)[1..] == s[1..] + t && (s + t)[0] == s[0];
      FirstTurn(v, s, y);
      FirstTurn(v, s + t, y);
      var one := AllocateOne(s[0], y);
      if one.Address? {
        StillServed(v, s[1..], t, one.sys);
        TryConcat(v, s[1..], t, one.sys);
        ThenPrepends(one.a, TryAllocate(s[1..], one.sys), t);
      }
    }
  }

  lemma ConcatStep(v: Server, s: seq<Subnet>, t: seq<Subnet>, y: Sys, out: seq<Addr>)
    requires Sound(v, y) && AllConfigured(v, s) && AllConfigured(v, t)
    ensures AllConfigured(v, s + t)
    ensures var whole := Prepend(out, TryAllocate(s + t, y));
      match TryAllocate(s, y)
      case ManyPanic => whole.ManyPanic?
      case Many(ips, ok, y') =>
        if ok then Sound(v, y') && whole == Prepend(out + ips, TryAllocate(t, y'))
        else whole == Many(out + ips, false, y')
  {
    StillServed(v, s, t, y);
    TryConcat(v, s, t, y);
    var r := TryAllocate(s, y);
    if r.Many? && r.ok {
      PrependTwice(out, r.ips, TryAllocate(t, r.sys));
    }
  }

  lemma SubsOfPairsTwo(p: Pair, q: Pair)
    ensures SubsOfPairs([]) == []
    ensures SubsOfPairs([p]) == SubsOf(p.allocs)
    ensures SubsOfPairs([p, q]) == SubsOf(p.allocs) + SubsOf(q.allocs)
  {
    assert [p][1..] == [];
    assert [p, q][1..] == [q] && [q][1..] == [];
  }

  /** An allocator on this store, with the cursor its block is mapped to. */
  ghost predicate Member(a: SimpleAllocator, s: MetricsStore, cursorOf: map<Block, Cursor>)
    reads a, a.c
  {
    && a.Valid() && a.s == s
    && a.sub.block in cursorOf && cursorOf[a.sub.block] == a.c
  }

  ghost function FreedFrom(sub: Subnet, y: Sys, a: Addr): Sys {
    if Contains(sub.block, a) then y.(meter := MeteredStep(y.meter, FreeIP(sub.block, a)).0) else y
  }

  lemma FreeNext(subs: seq<Subnet>, i: nat, y: Sys, a: Addr)
    requires i < |subs|
    ensures FreeAt(subs[i..], y, a) == FreeAt(subs[i + 1..], FreedFrom(subs[i], y, a), a)
  {
    assert subs[i..][0] == subs[i] && subs[i..][1..] == subs[i + 1..];
  }

  datatype MultiReply = Addresses(ips: seq<Addr>) | Unavailable | MultiPanic

  class MultiAllocator {
    const s: MetricsStore
    const as4: seq<SimpleAllocator>
    const as6: seq<SimpleAllocator>
    ghost const server: Server
    /** The cursor of each configured block. */
    ghost const cursorOf: map<Block, Cursor>

    ghost predicate Valid()
      reads this, set a | a in as4 + as6, set a | a in as4 + as6 :: a.c
    {
      && (forall a :: a in as4 + as6 ==> Member(a, s, cursorOf))
      && SubsOf(as4) == server.subs4 && SubsOf(as6) == server.subs6
      && cursorOf.Keys == Blocks(server)
      && OwnCursors(cursorOf)
    }

    ghost function View(): Sys
      reads this, s, s.store, s.store.leases.Values, cursorOf.Values
    {
      Sys(s.View(), Positions(cursorOf))
    }

    ghost predicate SubsConfigured(allocs: seq<SimpleAllocator>) {
      forall t :: t in SubsOf(allocs) ==> t in SubnetsOf(server)
    }

    lemma SubsAreConfigured(allocs: seq<SimpleAllocator>)
      requires Valid() && forall a :: a in allocs ==> a in as4 + as6
      ensures SubsConfigured(allocs)
    {
      forall t | t in SubsOf(allocs) ensures t in SubnetsOf(server) {
        var i :| 0 <= i < |allocs| && allocs[i].sub == t;
        assert allocs[i] in as4 + as6;
        if allocs[i] in as4 {
          var j :| 0 <= j < |as4| && as4[j] == allocs[i];
          assert server.subs4[j] == t;
        } else {
          var j :| 0 <= j < |as6| && as6[j] == allocs[i];
          assert server.subs6[j] == t;
        }
      }
    }

    /** Takes any allocators; they make up a valid whole when each is a member and no two share a cursor. */
    constructor (s: MetricsStore, as4: seq<SimpleAllocator>, as6: seq<SimpleAllocator>, ghost server: Server,
        ghost cursorOf: map<Block, Cursor>)
      ensures this.s == s && this.as4 == as4 && this.as6 == as6 && this.server == server && this.cursorOf == cursorOf
    {
      this.s, this.as4, this.as6, this.server, this.cursorOf := s, as4, as6, server, cursorOf;
    }

    /** One member's allocation, seen from the whole system. */
    method AllocateFrom(a: SimpleAllocator) returns (r: AllocateReply)
      requires Valid() && a in as4 + as6 && Served(a.sub, View())
      modifies s, s.store`subnets, cursorOf.Values
      ensures Valid()
      ensures match AllocateOne(a.sub, old(View()))
        case OnePanic => r == Panicked
        case NoAddress(y) => r == OutOfAddresses && View() == y
        case Address(x, y) => r == Ips([x]) && View() == y
    {
      ghost var y := View();
      r := a.Allocate(a.sub.block.family);
      OneMoved(y.cursors, Positions(cursorOf), a.sub.block);
    }

    /** The allocators of one family in turn, keeping what was allocated when one has nothing left. */
    method TryPair(p: Pair) returns (panicked: bool, out: seq<Addr>, ok: bool)
      requires Valid() && Sound(server, View())
      requires forall a :: a in p.allocs ==> a in as4 + as6
      modifies s, s.store`subnets, cursorOf.Values
      ensures Valid()
      ensures SubsConfigured(p.allocs)
      ensures match Engine.TryAllocate(SubsOf(p.allocs), old(View()))
        case ManyPanic => panicked
        case Many(ips, ok', y) => !panicked && out == ips && ok == ok' && View() == y && Sound(server, y)
    {
      SubsAreConfigured(p.allocs);
      ghost var subs := SubsOf(p.allocs);
      ghost var whole := Engine.TryAllocate(subs, View());
      panicked, out, ok := false, [], true;
      assert subs[0..] == subs;
      PrependNothing(whole);
      for i := 0 to |p.allocs|
        invariant Valid() && Sound(server, View())
        invariant whole == Prepend(out, Engine.TryAllocate(subs[i..], View()))
      {
        TryStep(server, subs, i, View(), out);
        var r := AllocateFrom(p.allocs[i]);
        if r.Panicked? {
          panicked := true;
          return;
        }
        if !r.Ips? {
          ok := false;
          return;
        }
        out := out + r.ips;
      }
    }

    ghost predicate Ours(pairs: seq<Pair>) {
      forall p, a :: p in pairs && a in p.allocs ==> a in as4 + as6
    }

    lemma {:induction false} PairsAreConfigured(pairs: seq<Pair>)
      requires Valid() && Ours(pairs)
      ensures AllConfigured(server, SubsOfPairs(pairs))
      decreases |pairs|
    {
      if pairs != [] {
        SubsAreConfigured(pairs[0].allocs);
        PairsAreConfigured(pairs[1..]);
      }
    }

    /** One turn of the loop over families. */
    lemma PairStep(pairs: seq<Pair>, i: nat, y: Sys, out: seq<Addr>)
      requires Valid() && Sound(server, y) && Ours(pairs) && i < |pairs|
      ensures AllConfigured(server, SubsOfPairs(pairs[i..])) && AllConfigured(server, SubsOfPairs(pairs[i + 1..]))
      ensures SubsConfigured(pairs[i].allocs)
      ensures var whole := Prepend(out, Engine.TryAllocate(SubsOfPairs(pairs[i..]), y));
        match Engine.TryAllocate(SubsOf(pairs[i].allocs), y)
        case ManyPanic => whole.ManyPanic?
        case Many(ips, ok, y') =>
          if ok then
            Sound(server, y') && whole == Prepend(out + ips, Engine.TryAllocate(SubsOfPairs(pairs[i + 1..]), y'))
          else whole == Many(out + ips, false, y')
    {
      assert pairs[i..][0] == pairs[i] && pairs[i..][1..] == pairs[i + 1..];
      PairsAreConfigured(pairs[i..]);
      PairsAreConfigured(pairs[i + 1..]);
      SubsAreConfigured(pairs[i].allocs);
      ConcatStep(server, SubsOf(pairs[i].allocs), SubsOfPairs(pairs[i + 1..]), y, out);
    }

    /** Before family i, with these addresses in hand: what is still to come completes the whole. */
    ghost predicate TriedUpTo(pairs: seq<Pair>, i: nat, whole: Many, out: seq<Addr>)
      requires i <= |pairs|
      reads this, s, s.store, s.store.leases.Values, cursorOf.Values
    {
      && Sound(server, View())
      && AllConfigured(server, SubsOfPairs(pairs[i..]))
      && whole == Prepend(out, Engine.TryAllocate(SubsOfPairs(pairs[i..]), View()))
    }

    /** One family's turn within the whole. */
    method TryFamily(pairs: seq<Pair>, i: nat, ghost whole: Many, out: seq<Addr>)
      returns (panicked: bool, out': seq<Addr>, more: bool)
      requires i < |pairs| && Valid() && Ours(pairs) && TriedUpTo(pairs, i, whole, out)
      modifies s, s.store`subnets, cursorOf.Values
      ensures Valid()
      ensures panicked ==> whole.ManyPanic?
      ensures !panicked && more ==> TriedUpTo(pairs, i + 1, whole, out')
      ensures !panicked && !more ==> whole == Many(out', false, View()) && Sound(server, View())
    {
      PairStep(pairs, i, View(), out);
      var p, ips, ok := TryPair(pairs[i]);
      panicked, out', more := p, out + ips, ok;
      PairsAreConfigured(pairs[i + 1..]);
    }

    /** Every family's allocators in turn; all addresses allocated on the way are returned for cleanup. */
    method TryAllocate(pairs: seq<Pair>) returns (panicked: bool, out: seq<Addr>, ok: bool)
      requires Valid() && Sound(server, View()) && Ours(pairs)
      modifies s, s.store`subnets, cursorOf.Values
      ensures Valid() && AllConfigured(server, SubsOfPairs(pairs))
      ensures match Engine.TryAllocate(SubsOfPairs(pairs), old(View()))
        case ManyPanic => panicked
        case Many(ips, ok', y) => !panicked && out == ips && ok == (ok' && ips != []) && View() == y && Sound(server, y)
    {
      PairsAreConfigured(pairs);
      ghost var whole := Engine.TryAllocate(SubsOfPairs(pairs), View());
      panicked, out, ok := false, [], false;
      assert pairs[0..] == pairs;
      PrependNothing(whole);
      for i := 0 to |pairs|
        invariant !panicked && !ok && Valid() && TriedUpTo(pairs, i, whole, out)
      {
        var more;
        panicked, out, more := TryFamily(pairs, i, whole, out);
        if panicked || !more {
          return;
        }
      }
      ok := |out| != 0;
    }

    method FreeFrom(alloc: SimpleAllocator, a: Addr)
      requires Valid() && alloc in as4 + as6
      modifies s, s.store`subnets
      ensures Valid() && View() == FreedFrom(alloc.sub, old(View()), a)
    {
      alloc.Free(a);
    }

    /** Each allocator of the address's family frees it if its subnet contains it. */
    method Free(a: Addr)
      requires Valid()
      modifies s, s.store`subnets
      ensures Valid() && View() == FreeOne(server, old(View()), a)
    {
      var allocs := if a.family == IPv4 then as4 else as6;
      ghost var subs, y0 := FamilySubnets(server, a.family), View();
      assert subs == SubsOf(allocs);
      for i := 0 to |allocs|
        invariant Valid() && FreeAt(subs, y0, a) == FreeAt(subs[i..], View(), a)
      {
        FreeNext(subs, i, View(), a);
        FreeFrom(allocs[i], a);
      }
    }

    /** The allocators of the wanted families, IPv4 first. */
    method PairsFor(wanted: set<Family>) returns (pairs: seq<Pair>)
      requires Valid()
      ensures Ours(pairs) && SubsOfPairs(pairs) == Consulted(server, wanted)
      ensures IPv4 in wanted <==> |pairs| > 0 && pairs[0].f == IPv4
      ensures IPv6 in wanted <==> |pairs| > 0 && pairs[|pairs| - 1].f == IPv6
      ensures forall p :: p in pairs ==> p.allocs == if p.f == IPv4 then as4 else as6
      ensures forall i, j :: 0 <= i < j < |pairs| ==> pairs[i].f == IPv4 && pairs[j].f == IPv6
    {
      pairs := [];
      if IPv4 in wanted {
        pairs := pairs + [Pair(IPv4, as4)];
      }
      if IPv6 in wanted {
        pairs := pairs + [Pair(IPv6, as6)];
      }
      SubsOfPairsTwo(Pair(IPv4, as4), Pair(IPv6, as6));
      SubsOfPairsTwo(Pair(IPv6, as6), Pair(IPv6, as6));
    }

    /** Frees what was allocated along the way. */
    method TakeBack(ips: seq<Addr>)
      requires Valid()
      modifies s, s.store`subnets
      ensures Valid() && View() == FreeEach(server, old(View()), ips)
    {
      ghost var whole := FreeEach(server, View(), ips);
      for i := 0 to |ips|
        invariant Valid() && FreeEach(server, View(), ips[i..]) == whole
      {
        assert ips[i..][0] == ips[i] && ips[i..][1..] == ips[i + 1..];
        Free(ips[i]);
      }
    }

    /** What the caller and the allocators show of a grant. */
    ghost predicate Mirrors(r: MultiReply, g: Grant)
      reads this, s, s.store, s.store.leases.Values, cursorOf.Values
    {
      match g
      case GrantPanic => r == MultiPanic
      case Refused(y) => r == Unavailable && View() == y
      case Granted(ips, y) => r == Addresses(ips) && View() == y
    }

    /** Allocates from the wanted families, and takes everything back unless all of it succeeds. */
    method Allocate(wanted: set<Family>) returns (r: MultiReply)
      requires Valid() && Sound(server, View())
      modifies s, s.store`subnets, cursorOf.Values
      ensures Valid()
      ensures Mirrors(r, AllocateAll(server, old(View()), wanted))
    {
      var pairs := PairsFor(wanted);
      var panicked, ips, ok := TryAllocate(pairs);
      if panicked {
        return MultiPanic;
      }
      if !ok {
        TakeBack(ips);
        return Unavailable;
      }
      r := Addresses(ips);
    }
  }
}
