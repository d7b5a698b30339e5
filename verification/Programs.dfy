/**
 * A request as a program of store operations: what it does next depends on the replies alone. So a store that replies
 * alike, as the file store does, gives the same responses.
 */
module Programs {
  import opened Address
  import opened Config
  import opened RoundRobin
  import opened Store
  import opened BoltSpec
  import opened Metrics
  import opened Engine
  import opened Leasing
  import opened Attempts

  /** An operation that a request may ask for. */
  type Plain = op: Op | !op.SaveSubnet? witness Op.Leases

  datatype Prog<R> = Finish(r: R) | Call(op: Plain, next: Reply -> Prog<R>)

  /** On the memory store behind its gauge, the program performs these operations and finishes with r. */
  ghost predicate Performs<R>(p: Prog<R>, m: Metered, ops: seq<Op>, m': Metered, r: R)
    decreases |ops|
  {
    if ops == [] then p == Finish(r) && m' == m
    else
      && p.Call? && p.op == ops[0]
      && var (m1, reply) := MeteredStep(m, ops[0]);
         Performs(p.next(reply), m1, ops[1..], m', r)
  }

  datatype Filed = Filed(store: Bolt, gauge: map<Block, int>)

  ghost function FiledStep(f: Filed, op: Op): (Filed, Reply) {
    var (s, r) := BoltStep(f.store, op);
    (Filed(s, GaugeAfter(f.gauge, op, r)), r)
  }

  /** The same on the file store behind its gauge. */
  ghost predicate PerformsFiled<R>(p: Prog<R>, f: Filed, ops: seq<Op>, f': Filed, r: R)
    decreases |ops|
  {
    if ops == [] then p == Finish(r) && f' == f
    else
      && p.Call? && p.op == ops[0]
      && var (f1, reply) := FiledStep(f, ops[0]);
         PerformsFiled(p.next(reply), f1, ops[1..], f', r)
  }

  /** A program has one way to run. */
  lemma {:induction false} FiledRunsOneWay<R>(p: Prog<R>, f: Filed, es: seq<Op>, x: Filed, q: R,
      fs: seq<Op>, y: Filed, r: R)
    requires PerformsFiled(p, f, es, x, q) && PerformsFiled(p, f, fs, y, r)
    ensures es == fs && x == y && q == r
    decreases |es|
  {
    if es != [] {
      var (f1, reply) := FiledStep(f, es[0]);
      FiledRunsOneWay(p.next(reply), f1, es[1..], x, q, fs[1..], y, r);
    }
  }

  /** The same stores and the same gauge. */
  ghost predicate Alike(m: Metered, f: Filed) {
    Same(m.store, f.store) && m.gauge == f.gauge
  }

  /** No program can tell the stores apart. */
  lemma {:induction false} ProgramsRunAlike<R>(p: Prog<R>, m: Metered, f: Filed, ops: seq<Op>, m': Metered, r: R)
    returns (f': Filed)
    requires Alike(m, f) && Performs(p, m, ops, m', r)
    ensures PerformsFiled(p, f, ops, f', r) && Alike(m', f')
    decreases |ops|
  {
    if ops == [] {
      f' := f;
    } else {
      var (m1, reply) := MeteredStep(m, ops[0]);
      StepsAgree(m.store, f.store, ops[0]);
      f' := ProgramsRunAlike(p.next(reply), m1, FiledStep(f, ops[0]).0, ops[1..], m', r);
    }
  }

  /** One operation before the rest. */
  lemma Asks<R>(op: Plain, next: Reply -> Prog<R>, m: Metered, ops: seq<Op>, m': Metered, r: R)
    requires Performs(next(MeteredStep(m, op).1), MeteredStep(m, op).0, ops, m', r)
    ensures Performs(Call(op, next), m, [op] + ops, m', r)
  {
    assert ([op] + ops)[1..] == ops;
  }

  /** One subnet's allocator: attempts until one succeeds, or the walk ends. */
  ghost function WalkProg<R>(s: Subnet, w: Walker, end: Outcome -> Prog<R>): Prog<R>
    decreases !w.out, Last(s.block) - w.cursor
  {
    if Validate(s) != Valid || !(s.block.base <= w.cursor <= Last(s.block)) then end(Crash)
    else
      match NextTurn(s, w)
      case Broken => end(Crash)
      case Exhausted(c) => end(Out(c))
      case Attempt(a, after) =>
        TurnGoesOn(s, w);
        Call(AllocateIP(s.block, ToAddr(s, a)),
             reply => if reply == Allocated(true) then end(Got(a, after.cursor)) else WalkProg(s, after, end))
  }

  ghost function AfterWalk(m: Metered, s: Subnet, o: Outcome): Metered {
    if o.Got? then MeteredStep(m, AllocateIP(s.block, ToAddr(s, o.addr))).0 else m
  }

  /** The walk's program performs the walk. */
  lemma {:induction false} WalkRuns<R>(s: Subnet, w: Walker, end: Outcome -> Prog<R>, m: Metered, ops: seq<Op>,
      m': Metered, r: R) returns (all: seq<Op>)
    requires Validate(s) == Valid && s.block.base <= w.cursor <= Last(s.block) && s.block in m.store.subnets
    requires var o := Walk(s, w.cursor, w.out, m.store.subnets[s.block]);
      Performs(end(o), AfterWalk(m, s, o), ops, m', r)
    ensures Performs(WalkProg(s, w, end), m, all, m', r)
    decreases !w.out, Last(s.block) - w.cursor
  {
    var t := NextTurn(s, w);
    TurnsAreTheWalk(s, w, m.store.subnets[s.block]);
    all := ops;
    if t.Attempt? {
      TurnStaysInBlock(s, w);
      TurnGoesOn(s, w);
      var op: Plain := AllocateIP(s.block, ToAddr(s, t.addr));
      if !FreeIn(s, t.addr, m.store.subnets[s.block]) {
        assert MeteredStep(m, op) == (m, Allocated(false));
        all := WalkRuns(s, t.after, end, m, ops, m', r);
      }
      var next := (reply: Reply) =>
        if reply == Allocated(true) then end(Got(t.addr, t.after.cursor)) else WalkProg(s, t.after, end);
      Asks(op, next, m, all, m', r);
      assert WalkProg(s, w, end) == Call(op, next);
      all := [op] + all;
    }
  }

  /** What the allocators of several subnets come back with. */
  datatype Haul = Haul(ips: seq<Addr>, ok: bool, cursors: map<Block, nat>) | NoHaul

  function With(a: Addr, h: Haul): Haul {
    if h.Haul? then h.(ips := [a] + h.ips) else h
  }

  ghost function Prefixed<R>(a: Addr, end: Haul -> Prog<R>): Haul -> Prog<R> {
    h => end(With(a, h))
  }

  ghost function TryProg<R>(subs: seq<Subnet>, cursors: map<Block, nat>, end: Haul -> Prog<R>): Prog<R>
    decreases |subs|, 1
  {
    if subs == [] then end(Haul([], true, cursors))
    else if subs[0].block !in cursors then end(NoHaul)
    else WalkProg(subs[0], Walker(cursors[subs[0].block], false), o => TriedProg(subs, cursors, end, o))
  }

  /** What follows the first subnet's walk. */
  ghost function TriedProg<R>(subs: seq<Subnet>, cursors: map<Block, nat>, end: Haul -> Prog<R>, o: Outcome): Prog<R>
    requires subs != []
    decreases |subs|, 0
  {
    match o
    case Crash => end(NoHaul)
    case Out(c) => end(Haul([], false, cursors[subs[0].block := c]))
    case Got(a, c) => TryProg(subs[1..], cursors[subs[0].block := c], Prefixed(ToAddr(subs[0], a), end))
  }

  ghost function Hauled(r: Many): Haul {
    if r.Many? then Haul(r.ips, r.ok, r.sys.cursors) else NoHaul
  }

  /** One subnet's allocation in the engine is its walk, and this is what follows it. */
  ghost function FollowUp<R>(subs: seq<Subnet>, one: One, end: Haul -> Prog<R>): Prog<R>
    requires subs != []
  {
    match one
    case OnePanic => end(NoHaul)
    case NoAddress(y) => end(Haul([], false, y.cursors))
    case Address(a, y) => TryProg(subs[1..], y.cursors, Prefixed(a, end))
  }

  ghost function MeterOf(y: Sys, one: One): Metered {
    if one.OnePanic? then y.meter else one.sys.meter
  }

  lemma OneRuns<R>(subs: seq<Subnet>, y: Sys, end: Haul -> Prog<R>, ops: seq<Op>, m': Metered, r: R)
    returns (all: seq<Op>)
    requires subs != [] && Served(subs[0], y)
    requires var one := AllocateOne(subs[0], y); Performs(FollowUp(subs, one, end), MeterOf(y, one), ops, m', r)
    ensures Performs(TryProg(subs, y.cursors, end), y.meter, all, m', r)
  {
    var s := subs[0];
    var o := Walk(s, y.cursors[s.block], false, y.meter.store.subnets[s.block]);
    assert TriedProg(subs, y.cursors, end, o) == FollowUp(subs, AllocateOne(s, y), end);
    assert AfterWalk(y.meter, s, o) == MeterOf(y, AllocateOne(s, y));
    all := WalkRuns(s, Walker(y.cursors[s.block], false), o => TriedProg(subs, y.cursors, end, o), y.meter, ops, m', r);
  }

  lemma HauledWith<R>(subs: seq<Subnet>, y: Sys, end: Haul -> Prog<R>)
    requires subs != [] && (forall s :: s in subs ==> Served(s, y)) && AllocateOne(subs[0], y).Address?
    ensures var one := AllocateOne(subs[0], y);
      && (forall s :: s in subs[1..] ==> Served(s, one.sys))
      && var rest := TryAllocate(subs[1..], one.sys);
         && TryAllocate(subs, y) == Prepend([one.a], rest)
         && Prefixed(one.a, end)(Hauled(rest)) == end(Hauled(TryAllocate(subs, y)))
  {
    RestServed(subs, y);
    var one := AllocateOne(subs[0], y);
    assert With(one.a, Hauled(TryAllocate(subs[1..], one.sys))) == Hauled(TryAllocate(subs, y));
  }

  /** The allocators' program does what the engine does, and goes on from there. */
  lemma {:induction false} TryRuns<R>(subs: seq<Subnet>, y: Sys, end: Haul -> Prog<R>, ops: seq<Op>, m': Metered, r: R)
    returns (all: seq<Op>)
    requires (forall s :: s in subs ==> Served(s, y)) && TryAllocate(subs, y).Many?
    requires var t := TryAllocate(subs, y); Performs(end(Hauled(t)), t.sys.meter, ops, m', r)
    ensures Performs(TryProg(subs, y.cursors, end), y.meter, all, m', r)
    decreases |subs|
  {
    all := ops;
    if subs != [] {
      var one := AllocateOne(subs[0], y);
      if one.Address? {
        HauledWith(subs, y, end);
        all := TryRuns(subs[1..], one.sys, Prefixed(one.a, end), ops, m', r);
      }
      all := OneRuns(subs, y, end, all, m', r);
    }
  }

  /** Where the engine's allocators crash, so does the program. */
  lemma {:induction false} TryDies<R>(subs: seq<Subnet>, y: Sys, end: Haul -> Prog<R>, x: R)
    returns (all: seq<Op>, m': Metered)
    requires (forall s :: s in subs ==> Served(s, y)) && TryAllocate(subs, y).ManyPanic? && end(NoHaul) == Finish(x)
    ensures Performs(TryProg(subs, y.cursors, end), y.meter, all, m', x)
    decreases |subs|
  {
    var one := AllocateOne(subs[0], y);
    all, m' := [], y.meter;
    if one.Address? {
      HauledWith(subs, y, end);
      all, m' := TryDies(subs[1..], one.sys, Prefixed(one.a, end), x);
    }
    all := OneRuns(subs, y, end, all, m', x);
  }

  ghost function FreeProg<R>(subs: seq<Subnet>, a: Addr, end: Prog<R>): Prog<R>
    decreases |subs|
  {
    if subs == [] then end
    else if Contains(subs[0].block, a) then Call(FreeIP(subs[0].block, a), _ => FreeProg(subs[1..], a, end))
    else FreeProg(subs[1..], a, end)
  }

  lemma {:induction false} FreeRuns<R>(subs: seq<Subnet>, y: Sys, a: Addr, end: Prog<R>, ops: seq<Op>,
      m': Metered, r: R)
    returns (all: seq<Op>)
    requires Performs(end, FreeAt(subs, y, a).meter, ops, m', r)
    ensures Performs(FreeProg(subs, a, end), y.meter, all, m', r)
    decreases |subs|
  {
    all := ops;
    if subs != [] {
      if Contains(subs[0].block, a) {
        var op: Plain := FreeIP(subs[0].block, a);
        all := FreeRuns(subs[1..], y.(meter := MeteredStep(y.meter, op).0), a, end, ops, m', r);
        Asks(op, _ => FreeProg(subs[1..], a, end), y.meter, all, m', r);
        all := [op] + all;
      } else {
        all := FreeRuns(subs[1..], y, a, end, ops, m', r);
      }
    }
  }

  ghost function FreeEachProg<R>(v: Server, ips: seq<Addr>, end: Prog<R>): Prog<R>
    decreases |ips|
  {
    if ips == [] then end else FreeProg(FamilySubnets(v, ips[0].family), ips[0], FreeEachProg(v, ips[1..], end))
  }

  lemma {:induction false} FreeEachRuns<R>(v: Server, y: Sys, ips: seq<Addr>, end: Prog<R>, ops: seq<Op>,
      m': Metered, r: R)
    returns (all: seq<Op>)
    requires Performs(end, FreeEach(v, y, ips).meter, ops, m', r)
    ensures Performs(FreeEachProg(v, ips, end), y.meter, all, m', r)
    decreases |ips|
  {
    all := ops;
    if ips != [] {
      all := FreeEachRuns(v, FreeOne(v, y, ips[0]), ips[1..], end, ops, m', r);
      all := FreeRuns(FamilySubnets(v, ips[0].family), y, ips[0], FreeEachProg(v, ips[1..], end), all, m', r);
    }
  }

  /** All consulted subnets, and the rollback when it does not work out. */
  ghost function AllocateProg<R>(v: Server, cursors: map<Block, nat>, wanted: set<Family>, end: Haul -> Prog<R>)
    : Prog<R>
  {
    TryProg(Consulted(v, wanted), cursors, Settled(v, end))
  }

  ghost function Settled<R>(v: Server, end: Haul -> Prog<R>): Haul -> Prog<R> {
    (h: Haul) =>
      if h.NoHaul? || (h.ok && h.ips != []) then end(h)
      else FreeEachProg(v, h.ips, end(Haul([], false, h.cursors)))
  }

  ghost function Given(g: Engine.Grant): Haul {
    match g
    case GrantPanic => NoHaul
    case Refused(y) => Haul([], false, y.cursors)
    case Granted(ips, y) => Haul(ips, true, y.cursors)
  }

  lemma RollbackRuns<R>(v: Server, t: Many, end: Haul -> Prog<R>, ops: seq<Op>, m': Metered, r: R)
    returns (all: seq<Op>)
    requires t.Many? && !(t.ok && t.ips != [])
    requires var z := FreeEach(v, t.sys, t.ips); Performs(end(Haul([], false, z.cursors)), z.meter, ops, m', r)
    ensures Performs(Settled(v, end)(Hauled(t)), t.sys.meter, all, m', r)
  {
    FreeEachKeepsCursors(v, t.sys, t.ips);
    all := FreeEachRuns(v, t.sys, t.ips, end(Haul([], false, t.sys.cursors)), ops, m', r);
  }

  lemma {:induction false} FreeAtKeepsCursors(subs: seq<Subnet>, y: Sys, a: Addr)
    ensures FreeAt(subs, y, a).cursors == y.cursors
    decreases |subs|
  {
    if subs != [] {
      if Contains(subs[0].block, a) {
        FreeAtKeepsCursors(subs[1..], y.(meter := MeteredStep(y.meter, FreeIP(subs[0].block, a)).0), a);
      } else {
        FreeAtKeepsCursors(subs[1..], y, a);
      }
    }
  }

  lemma {:induction false} FreeEachKeepsCursors(v: Server, y: Sys, ips: seq<Addr>)
    ensures FreeEach(v, y, ips).cursors == y.cursors
    decreases |ips|
  {
    if ips != [] {
      FreeAtKeepsCursors(FamilySubnets(v, ips[0].family), y, ips[0]);
      FreeEachKeepsCursors(v, FreeOne(v, y, ips[0]), ips[1..]);
    }
  }

  lemma AllocateRuns<R>(v: Server, y: Sys, wanted: set<Family>, end: Haul -> Prog<R>, ops: seq<Op>, m': Metered, r: R)
    returns (all: seq<Op>)
    requires (forall s :: s in SubnetsOf(v) ==> Served(s, y)) && !AllocateAll(v, y, wanted).GrantPanic?
    requires var g := AllocateAll(v, y, wanted); Performs(end(Given(g)), g.sys.meter, ops, m', r)
    ensures Performs(AllocateProg(v, y.cursors, wanted, end), y.meter, all, m', r)
  {
    ConsultedAreConfigured(v, wanted);
    var t := TryAllocate(Consulted(v, wanted), y);
    if t.ok && t.ips != [] {
      assert Settled(v, end)(Hauled(t)) == end(Given(AllocateAll(v, y, wanted)));
      all := ops;
    } else {
      all := RollbackRuns(v, t, end, ops, m', r);
    }
    all := TryRuns(Consulted(v, wanted), y, Settled(v, end), all, m', r);
  }

  /** What a request comes to: its response and where it leaves the cursors, or a crash. */
  datatype Answer = Answer(cursors: map<Block, nat>, response: Response) | Died

  ghost function GrantProg(v: Server, key: Key, now: int): Haul -> Prog<Answer> {
    (h: Haul) =>
      if h.NoHaul? then Finish(Died)
      else if !h.ok then Finish(Answer(h.cursors, IPUnavailable))
      else
        var l := Lease(h.ips, Seconds(now), v.duration);
        Call(SaveLease(key, l), _ => Finish(Answer(h.cursors, Grant(l.ips, l.start, l.length))))
  }

  ghost function NewLeaseProg(v: Server, cursors: map<Block, nat>, key: Key, ips: seq<Addr>, now: int): Prog<Answer> {
    if Wanted(ips).None? then Finish(Answer(cursors, IPUnavailable))
    else AllocateProg(v, cursors, Wanted(ips).value, GrantProg(v, key, now))
  }

  ghost function RenewProg(v: Server, cursors: map<Block, nat>, key: Key, ips: seq<Addr>, l: Lease, now: int)
    : Prog<Answer>
  {
    if !Honoured(ips, l) then Finish(Answer(cursors, IPUnavailable))
    else
      var l' := Lease(l.ips, Seconds(now), v.duration);
      Call(SaveLease(key, l'), _ => Finish(Answer(cursors, Grant(l'.ips, l'.start, l'.length))))
  }

  ghost function LapseProg(v: Server, key: Key, l: Lease, end: Prog<Answer>): Prog<Answer> {
    Call(DeleteLease(key), _ => FreeEachProg(v, l.ips, end))
  }

  /** A whole request: look the lease up, and go on as the reply says. */
  ghost function RequestProg(v: Server, cursors: map<Block, nat>, key: Key, ips: seq<Addr>, t1: int, t2: int)
    : Prog<Answer>
  {
    Call(GetLease(key), FoundProg(v, cursors, key, ips, t1, t2))
  }

  ghost function FoundProg(v: Server, cursors: map<Block, nat>, key: Key, ips: seq<Addr>, t1: int, t2: int)
    : Reply -> Prog<Answer>
  {
    (reply: Reply) =>
      if !reply.OneLease? then Finish(Died)
      else if reply.lease.None? then NewLeaseProg(v, cursors, key, ips, t2)
      else if Expired(reply.lease.value, t1) then
        LapseProg(v, key, reply.lease.value, NewLeaseProg(v, cursors, key, ips, t2))
      else RenewProg(v, cursors, key, ips, reply.lease.value, t2)
  }

  /** The program of a new lease does what the engine does. */
  lemma NewLeaseRuns(v: Server, y: Sys, key: Key, ips: seq<Addr>, now: int) returns (ops: seq<Op>, m': Metered)
    requires Sound(v, y)
    ensures var turn := NewLease(v, y, key, ips, now);
      Performs(NewLeaseProg(v, y.cursors, key, ips, now), y.meter, ops, m', AnswerOf(turn))
      && (turn.Turn? ==> m' == turn.sys.meter)
  {
    ops, m' := [], y.meter;
    if Wanted(ips).Some? {
      var g := AllocateAll(v, y, Wanted(ips).value);
      if g.GrantPanic? {
        ConsultedAreConfigured(v, Wanted(ips).value);
        ops, m' := TryDies(Consulted(v, Wanted(ips).value), y, Settled(v, GrantProg(v, key, now)), Died);
      } else {
        ops, m' := GrantRuns(v, g, key, now);
        var r := AnswerOf(NewLease(v, y, key, ips, now));
        ops := AllocateRuns(v, y, Wanted(ips).value, GrantProg(v, key, now), ops, m', r);
      }
    }
  }

  function AnswerOf(turn: Turn): Answer {
    match turn
    case Crashed => Died
    case Turn(z, response) => Answer(z.cursors, response)
  }

  /** What is left to do once the allocators have answered. */
  lemma GrantRuns(v: Server, g: Engine.Grant, key: Key, now: int) returns (ops: seq<Op>, m': Metered)
    requires !g.GrantPanic?
    ensures var l := Lease(if g.Granted? then g.ips else [], Seconds(now), v.duration);
      var r := Answer(g.sys.cursors, if g.Granted? then Response.Grant(l.ips, l.start, l.length) else IPUnavailable);
      && Performs(GrantProg(v, key, now)(Given(g)), g.sys.meter, ops, m', r)
      && m' == if g.Granted? then Stored(g.sys, key, l).meter else g.sys.meter
  {
    ops, m' := [], g.sys.meter;
    if g.Granted? {
      var l := Lease(g.ips, Seconds(now), v.duration);
      var op: Plain := SaveLease(key, l);
      m' := Stored(g.sys, key, l).meter;
      Asks(op, _ => Finish(Answer(g.sys.cursors, Response.Grant(l.ips, l.start, l.length))), g.sys.meter, [], m',
           Answer(g.sys.cursors, Response.Grant(l.ips, l.start, l.length)));
      ops := [op] + [];
    }
  }

  lemma RenewRuns(v: Server, y: Sys, key: Key, ips: seq<Addr>, l: Lease, now: int) returns (ops: seq<Op>, m': Metered)
    ensures var turn := RenewLease(v, y, key, ips, l, now);
      && Performs(RenewProg(v, y.cursors, key, ips, l, now), y.meter, ops, m', AnswerOf(turn))
      && turn.Turn? && m' == turn.sys.meter
  {
    ops, m' := [], y.meter;
    if Honoured(ips, l) {
      var l' := Lease(l.ips, Seconds(now), v.duration);
      var op: Plain := SaveLease(key, l');
      m' := Stored(y, key, l').meter;
      Asks(op, _ => Finish(Answer(y.cursors, Response.Grant(l'.ips, l'.start, l'.length))), y.meter, [], m',
           Answer(y.cursors, Response.Grant(l'.ips, l'.start, l'.length)));
      ops := [op] + [];
    }
  }

  lemma LapseRuns(v: Server, y: Sys, key: Key, end: Prog<Answer>, ops: seq<Op>, m': Metered, r: Answer)
    returns (all: seq<Op>)
    requires key in y.meter.store.leases && Performs(end, Lapsed(v, y, key).meter, ops, m', r)
    ensures Performs(LapseProg(v, key, y.meter.store.leases[key], end), y.meter, all, m', r)
  {
    var l := y.meter.store.leases[key];
    all := FreeEachRuns(v, Deleted(y, key), l.ips, end, ops, m', r);
    var op: Plain := DeleteLease(key);
    Asks(op, _ => FreeEachProg(v, l.ips, end), y.meter, all, m', r);
    all := [op] + all;
  }

  /** The request's program does what the engine's request does, to the store, the gauge, the cursors and the client. */
  lemma RequestRuns(v: Server, y: Sys, key: Key, ips: seq<Addr>, t1: int, t2: int) returns (ops: seq<Op>, m': Metered)
    requires Sound(v, y) && Conserved(y.meter.store)
    ensures var turn := Request(v, y, key, ips, t1, t2);
      && Performs(RequestProg(v, y.cursors, key, ips, t1, t2), y.meter, ops, m', AnswerOf(turn))
      && (turn.Turn? ==> m' == turn.sys.meter)
  {
    if key !in y.meter.store.leases {
      ops, m' := NewLeaseRuns(v, y, key, ips, t2);
    } else {
      var l := y.meter.store.leases[key];
      if Expired(l, t1) {
        LapseEffect(v, y, key);
        var z := Lapsed(v, y, key);
        ops, m' := NewLeaseRuns(v, z, key, ips, t2);
        var r := AnswerOf(NewLease(v, z, key, ips, t2));
        ops := LapseRuns(v, y, key, NewLeaseProg(v, y.cursors, key, ips, t2), ops, m', r);
      } else {
        ops, m' := RenewRuns(v, y, key, ips, l, t2);
      }
    }
    var r := AnswerOf(Request(v, y, key, ips, t1, t2));
    Asks(GetLease(key), FoundProg(v, y.cursors, key, ips, t1, t2), y.meter, ops, m', r);
    ops := [GetLease(key)] + ops;
  }

  /**
   * A request over the file store, in a state like the memory store's: the same response, the same cursors, and a state
   * like the memory store's again; a crash where the memory store's request crashes.
   */
  lemma RequestOverFile(v: Server, y: Sys, f: Filed, key: Key, ips: seq<Addr>, t1: int, t2: int)
    returns (ops: seq<Op>, f': Filed)
    requires Sound(v, y) && Conserved(y.meter.store) && Alike(y.meter, f)
    ensures var turn := Request(v, y, key, ips, t1, t2);
      && PerformsFiled(RequestProg(v, y.cursors, key, ips, t1, t2), f, ops, f', AnswerOf(turn))
      && (turn.Turn? ==> Alike(turn.sys.meter, f'))
  {
    var m';
    ops, m' := RequestRuns(v, y, key, ips, t1, t2);
    f' := ProgramsRunAlike(RequestProg(v, y.cursors, key, ips, t1, t2), y.meter, f, ops, m',
                           AnswerOf(Request(v, y, key, ips, t1, t2)));
  }
}
