/** An allocator's walk over a store that others change between its attempts, as a schedule of the interleavings. */
module Attempts {
  import opened Address
  import opened Config
  import opened ReservedScan
  import opened RoundRobin
  import opened Store
  import opened Engine
  import opened Concurrent
  import opened Interleavings

  /** Where a walk is between two attempts: the cursor, and whether it has wrapped. */
  datatype Walker = Walker(cursor: nat, out: bool)

  /** The next turn of the retry loop: an address to try and where to go on if it is taken, or an end. */
  datatype Next = Attempt(addr: nat, after: Walker) | Exhausted(cursor: nat) | Broken

  function NextTurn(s: Subnet, w: Walker): Next
    requires Validate(s) == Valid && w.cursor <= Last(s.block)
  {
    match Pass1(s, w.cursor)
    case Panic => Broken
    case At(p, next) =>
      if Turns(s, next) then
        if w.out then Exhausted(Rest(Last(s.block), next))
        else if p.None? then Broken
        else Attempt(p.value, Walker(StartOf(s), true))
      else Attempt(p.value, Walker(next.value, w.out))
  }

  lemma TurnStaysInBlock(s: Subnet, w: Walker)
    requires Validate(s) == Valid && s.block.base <= w.cursor <= Last(s.block)
    ensures var t := NextTurn(s, w);
      t.Attempt? ==> Contains(s.block, ToAddr(s, t.addr)) && s.block.base <= t.after.cursor <= Last(s.block)
  {
    ValidSubnetShape(s);
    var t := NextTurn(s, w);
    if t.Attempt? {
      ContainsIsInterval(s.block, ToAddr(s, t.addr));
    }
  }

  /** A turn takes the walk further. */
  lemma TurnGoesOn(s: Subnet, w: Walker)
    requires Validate(s) == Valid && s.block.base <= w.cursor <= Last(s.block) && NextTurn(s, w).Attempt?
    ensures var after := NextTurn(s, w).after;
      (w.out ==> after.out) && (after.out == w.out ==> w.cursor < after.cursor <= Last(s.block))
  {
    ValidSubnetShape(s);
  }

  /** On a store that does not change, these turns are the walk. */
  lemma TurnsAreTheWalk(s: Subnet, w: Walker, taken: set<Addr>)
    requires Validate(s) == Valid && s.block.base <= w.cursor <= Last(s.block)
    ensures s.block.base <= StartOf(s) <= Last(s.block)
    ensures var r, t := Walk(s, w.cursor, w.out, taken), NextTurn(s, w);
      && (t.Broken? ==> r == Crash)
      && (t.Exhausted? ==> r == Out(t.cursor))
      && (t.Attempt? ==>
            && t.after.cursor <= Last(s.block)
            && r == if FreeIn(s, t.addr, taken) then Got(t.addr, t.after.cursor)
                    else Walk(s, t.after.cursor, t.after.out, taken))
  {
    ValidSubnetShape(s);
    TurnStaysInBlock(s, w);
  }

  /** A step that is not this client's, and that leaves its request in flight. */
  predicate Foreign(e: Action, key: Key) {
    match e
    case Sweep(_, _) => true
    case Reboot => false
    case _ => e.key != key
  }

  /**
   * The walk for this client's request, from n to m: its own steps are the turns of the retry loop, each on the store
   * as it is then, and it ends with the first address it gets; any other steps come in between.
   */
  ghost predicate Walks(v: Server, n: Net, key: Key, s: Subnet, w: Walker, es: seq<Action>, m: Net)
    requires Validate(s) == Valid && s.block.base <= w.cursor <= Last(s.block)
    requires key in n.flights && n.flights[key].Allocating?
    decreases |es|
  {
    if es == [] then m == n
    else if Foreign(es[0], key) then
      Enabled(v, n, es[0]) && (ForeignKeepsFlight(v, n, es[0], key); Walks(v, Act(v, n, es[0]), key, s, w, es[1..], m))
    else
      var t := NextTurn(s, w);
      TurnStaysInBlock(s, w);
      && t.Attempt? && es[0] == Try(key, ToAddr(s, t.addr))
      && var (store, r) := MemoryStep(n.store, AllocateIP(s.block, ToAddr(s, t.addr)));
         var f := n.flights[key];
         if r == Allocated(true) then
           es[1..] == [] && m == Flown(n.(store := store), key, Allocating(f.families, f.held + [ToAddr(s, t.addr)]))
         else Walks(v, n, key, s, t.after, es[1..], m)
  }

  lemma ForeignKeepsFlight(v: Server, n: Net, e: Action, key: Key)
    requires Enabled(v, n, e) && Foreign(e, key) && key in n.flights
    ensures var m := Act(v, n, e); key in m.flights && m.flights[key] == n.flights[key]
  {
  }

  /** Any step of another request, and any purge, may come in between. */
  lemma OthersMayStepIn(v: Server, n: Net, key: Key, s: Subnet, w: Walker, e: Action, es: seq<Action>, m: Net)
    requires Validate(s) == Valid && s.block.base <= w.cursor <= Last(s.block)
    requires Enabled(v, n, e) && !e.Reboot? && (e.Sweep? || e.key != key)
    requires key in n.flights && n.flights[key].Allocating?
    requires var z := Act(v, n, e);
      key in z.flights && z.flights[key].Allocating? && Walks(v, z, key, s, w, es, m)
    ensures Walks(v, n, key, s, w, [e] + es, m)
  {
    assert ([e] + es)[1..] == es;
  }

  /**
   * Whatever the others do in between, such a walk is a schedule of the interleavings; and until it has its address,
   * the request may go on to try or give up.
   */
  lemma {:induction false} WalkIsASchedule(v: Server, n: Net, key: Key, s: Subnet, w: Walker, es: seq<Action>, m: Net)
    requires Validate(s) == Valid && s.block.base <= w.cursor <= Last(s.block)
    requires key in n.flights && n.flights[key].Allocating?
    requires var f := n.flights[key];
      |f.held| < |Consulted(v, f.families)| && Consulted(v, f.families)[|f.held|] == s
    requires Walks(v, n, key, s, w, es, m)
    ensures Interleaves(v, n, es, m)
    ensures key in m.flights && m.flights[key].Allocating?
    ensures m.flights[key] == n.flights[key] ==> Enabled(v, m, GiveUp(key))
    decreases |es|
  {
    if es != [] {
      if Foreign(es[0], key) {
        ForeignKeepsFlight(v, n, es[0], key);
        WalkIsASchedule(v, Act(v, n, es[0]), key, s, w, es[1..], m);
      } else {
        TurnStaysInBlock(s, w);
        var t, f := NextTurn(s, w), n.flights[key];
        assert Act(v, n, es[0]) == Tried(n, key, f.families, f.held, s.block, ToAddr(s, t.addr));
        if MemoryStep(n.store, AllocateIP(s.block, ToAddr(s, t.addr))).1 == Allocated(true) {
          assert Interleaves(v, Act(v, n, es[0]), [], m);
        } else {
          WalkIsASchedule(v, n, key, s, t.after, es[1..], m);
        }
      }
    }
  }

  /** Left alone, it makes the attempts of the walk on the store as it is, and ends with what the walk ends with. */
  lemma {:induction false} WalkAlone(v: Server, n: Net, key: Key, s: Subnet, w: Walker)
    returns (es: seq<Action>, m: Net)
    requires Validate(s) == Valid && s.block.base <= w.cursor <= Last(s.block) && s.block in n.store.subnets
    requires key in n.flights && n.flights[key].Allocating?
    ensures Walks(v, n, key, s, w, es, m)
    ensures match Walk(s, w.cursor, w.out, n.store.subnets[s.block])
      case Got(a, _) =>
        && m.flights == n.flights[key := Allocating(n.flights[key].families, n.flights[key].held + [ToAddr(s, a)])]
        && m.store.subnets == n.store.subnets[s.block := n.store.subnets[s.block] + {ToAddr(s, a)}]
      case _ => m == n
    decreases !w.out, Last(s.block) - w.cursor
  {
    var t, taken := NextTurn(s, w), n.store.subnets[s.block];
    TurnsAreTheWalk(s, w, taken);
    TurnStaysInBlock(s, w);
    es, m := [], n;
    if t.Attempt? {
      var a := ToAddr(s, t.addr);
      var f := n.flights[key];
      if FreeIn(s, t.addr, taken) {
        var store := MemoryStep(n.store, AllocateIP(s.block, a)).0;
        m := Flown(n.(store := store), key, Allocating(f.families, f.held + [a]));
      } else {
        TurnGoesOn(s, w);
        es, m := WalkAlone(v, n, key, s, t.after);
      }
      assert ([Try(key, a)] + es)[1..] == es;
      es := [Try(key, a)] + es;
    }
  }
}
