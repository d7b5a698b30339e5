/** How the daemon puts one interface's server together: configuration checks, store, metrics, allocators, handler. */
module Wiring {
  import opened Util
  import opened Address
  import opened Config
  import opened Store
  import opened BoltSpec
  import opened Metrics
  import opened Engine
  import opened Runs
  import opened MemoryStores
  import opened MetricsStores
  import opened SimpleAllocators
  import opened MultiAllocators
  import opened Building
  import opened Handlers

  function BlocksOf(subnets: seq<Subnet>): seq<Block> {
    seq(|subnets|, i requires 0 <= i < |subnets| => subnets[i].block)
  }

  /** The configuration is accepted when every subnet is valid, there is one, and no two share an address. */
  method Configured(subnets: seq<Subnet>) returns (ok: bool)
    ensures ok <==>
      && subnets != [] && (forall s :: s in subnets ==> Validate(s) == Config.Valid)
      && forall i, j, a :: 0 <= i < j < |subnets| ==> !(Contains(subnets[i].block, a) && Contains(subnets[j].block, a))
  {
    for i := 0 to |subnets|
      invariant AllValid(subnets[..i])
    {
      ValidateAcceptsIff(subnets[i]);
      if Validate(subnets[i]) != Config.Valid {
        assert subnets[i] in subnets;
        return false;
      }
      assert subnets[..i + 1] == subnets[..i] + [subnets[i]];
    }
    assert subnets[..|subnets|] == subnets;
    var blocks := BlocksOf(subnets);
    forall b | b in blocks ensures Aligned(b) {
      var i :| 0 <= i < |subnets| && subnets[i].block == b;
      ValidateAcceptsIff(subnets[i]);
    }
    var check := CheckSubnets(blocks);
    assert PairwiseDisjoint(blocks) <==> Apart(subnets) by {
      assert forall i :: 0 <= i < |subnets| ==> blocks[i] == subnets[i].block;
    }
    ok := check == Accepted;
  }

  /** Subnets registered on an empty store all have an empty allocated set. */
  lemma {:induction false} RegisteredAreEmpty(subnets: map<Block, set<Addr>>, subs: seq<Subnet>)
    requires forall b :: b in subnets ==> subnets[b] == {}
    ensures var r := Register(subnets, subs);
      && (forall b :: b in r ==> r[b] == {})
      && forall b :: b in r <==> b in subnets || exists s :: s in subs && s.block == b
    decreases |subs|
  {
    if subs != [] {
      var n := |subs| - 1;
      RegisteredAreEmpty(subnets, subs[..n]);
      assert subs == subs[..n] + [subs[n]];
    }
  }

  lemma AllRegistered(v: Server)
    ensures Register(Register(map[], v.subs4), v.subs6) == map b | b in Blocks(v) :: {}
  {
    var r4 := Register(map[], v.subs4);
    var r := Register(r4, v.subs6);
    RegisteredAreEmpty(map[], v.subs4);
    RegisteredAreEmpty(r4, v.subs6);
    forall b ensures b in r <==> b in Blocks(v) {
      if b in Blocks(v) {
        var s :| s in SubnetsOf(v) && s.block == b;
        assert s in v.subs4 || s in v.subs6;
      }
      if b in r4 {
        var s :| s in v.subs4 && s.block == b;
        assert s in SubnetsOf(v);
      } else if b in r {
        var s :| s in v.subs6 && s.block == b;
        assert s in SubnetsOf(v);
      }
    }
  }

  lemma CursorsAreFresh(v: Server, cursorOf: map<Block, Cursor>)
    requires GoodServer(v) && cursorOf.Keys == Blocks(v) && AtStarts(cursorOf, SubnetsOf(v))
    ensures Positions(cursorOf) == FreshCursors(v)
  {
    forall b | b in Blocks(v) ensures Positions(cursorOf)[b] == FreshCursors(v)[b] {
      assert SubnetFor(v, b) in SubnetsOf(v);
    }
  }

  /** One interface's server on a new memory store, or nothing if its configuration is not accepted. */
  method Start(subnets: seq<Subnet>, duration: int) returns (h: Handler?)
    ensures h == null <==>
      || subnets == [] || (exists s :: s in subnets && Validate(s) != Config.Valid)
      || exists i, j, a :: 0 <= i < j < |subnets| && Contains(subnets[i].block, a) && Contains(subnets[j].block, a)
    ensures h != null ==>
      var v := ServerOf(subnets, duration);
      && h.Valid() && h.ips.server == v && GoodServer(v) && h.View() == Started(v)
      && h.duration == v.duration == duration
  {
    var ok := Configured(subnets);
    if !ok {
      return null;
    }
    var store := new MemoryStore();
    var ips := new MetricsStore(store);
    var ipa := DualStack(ips, subnets, duration);
    h := new Handler(store, ipa, duration);
    AllRegistered(ipa.server);
    CursorsAreFresh(ipa.server, ipa.cursorOf);
  }

  lemma BlocksOfAll(v: Server)
    ensures Elems(BlocksOf(SubnetsOf(v))) == Blocks(v)
  {
    var all := SubnetsOf(v);
    forall b ensures b in BlocksOf(all) <==> b in Blocks(v) {
      if b in Blocks(v) {
        var s :| s in all && s.block == b;
        var i :| 0 <= i < |all| && all[i] == s;
        assert BlocksOf(all)[i] == b;
      }
    }
  }

  lemma {:induction false} RegisteredOnNothing(s: Bolt, bs: seq<Block>)
    requires (forall b :: b in s.db.subnets ==> s.db.subnets[b] == {}) && s.cache == s.db.subnets.Keys
    ensures var r := Registered(s, bs);
      && r.db.leases == s.db.leases && r.cache == r.db.subnets.Keys == s.cache + Elems(bs)
      && forall b :: b in r.db.subnets ==> r.db.subnets[b] == {}
    decreases |bs|
  {
    if bs != [] {
      var r := BoltStep(s, Op.SaveSubnet(bs[0])).0;
      RegisteredOnNothing(r, bs[1..]);
      assert r.cache + Elems(bs[1..]) == s.cache + Elems(bs);
    }
  }

  lemma NewFileRegisters(v: Server)
    requires GoodServer(v)
    ensures var r := Registered(EMPTY_BOLT, BlocksOf(SubnetsOf(v)));
      r == Bolt(State(EMPTY_BOLT.db.leases, Started(v).meter.store.subnets), Blocks(v))
  {
    BlocksOfAll(v);
    RegisteredOnNothing(EMPTY_BOLT, BlocksOf(SubnetsOf(v)));
    var r := Registered(EMPTY_BOLT, BlocksOf(SubnetsOf(v)));
    assert r.db.subnets == Started(v).meter.store.subnets;
  }

  lemma NothingLeased(subnets: map<Block, set<Addr>>, cache: set<Block>)
    requires subnets.Keys == cache
    ensures Same(State(map[], subnets), Bolt(State(map[], subnets), cache))
  {
    KeyBytesInjective();
    assert Rekeyed<Key, seq<Byte>>(map[], ENCODE) == map[];
  }

  /** The store a run starts from, on a new file with these blocks registered. */
  ghost predicate StartsAs(v: Server, s: Bolt)
    requires GoodServer(v)
  {
    Same(Started(v).meter.store, s)
  }

  /** On a new file, registering the subnets leads to the file store's form of the state every run starts from. */
  lemma NewFileStarts(v: Server)
    requires GoodServer(v)
    ensures StartsAs(v, Registered(EMPTY_BOLT, BlocksOf(SubnetsOf(v))))
  {
    var empty := Started(v).meter.store.subnets;
    NewFileRegisters(v);
    NothingLeased(empty, Blocks(v));
    assert Registered(EMPTY_BOLT, BlocksOf(SubnetsOf(v))) == Bolt(State(map[], empty), Blocks(v));
  }

  /** A restart on an existing file: reopened, counted, registered again, it is the restarted state of the runs. */
  lemma OldFileRestarts(v: Server, y: Sys, s: Bolt)
    requires GoodServer(v) && y.meter.store.subnets.Keys == Blocks(v) && Same(y.meter.store, s)
    ensures Same(Restarted(v, y).meter.store, Registered(Reopened(s), BlocksOf(SubnetsOf(v))))
    ensures Restarted(v, y).meter.gauge == InitialGauge(Reopened(s).db.subnets)
  {
    BlocksOfAll(v);
    assert forall b :: b in BlocksOf(SubnetsOf(v)) <==> b in Elems(BlocksOf(SubnetsOf(v)));
    ReopenedIsSame(y.meter.store, s, BlocksOf(SubnetsOf(v)));
  }

  /** One tick of the purge loop, through the metrics wrapper. */
  method Tick(h: Handler, t: int) returns (stats: map<Block, nat>)
    requires h.Valid()
    modifies h.leases, h.ips.s
    ensures h.Valid()
    ensures var (meter, r) := MeteredStep(old(h.View()).meter, Purge(t));
      h.View() == old(h.View()).(meter := meter) && stats == r.ips
  {
    stats := h.ips.s.Purge(t);
  }
}
