/** One subnet's allocator: a cursor moved in place over the block, proved to walk as specified. */
module SimpleAllocators {
  import opened Util
  import opened Address
  import opened Config
  import opened ReservedScan
  import opened RoundRobin
  import opened Store
  import opened Metrics
  import opened MetricsStores

  /** The address library's cursor over one block. */
  class Cursor {
    const first: nat
    const last: nat
    var pos: nat

    ghost predicate Valid()
      reads this
    {
      first <= pos <= last
    }

    constructor (b: Block)
      ensures Valid() && first == b.base && last == Last(b) && pos == first
    {
      first, last, pos := b.base, Last(b), b.base;
    }

    /** Moves on, or reports the end and stays on the last address. */
    method Next() returns (next: Option<nat>)
      requires Valid()
      modifies this
      ensures Valid() && next == Advance(last, Some(old(pos))) && pos == Rest(last, next)
    {
      if pos == last {
        return None;
      }
      pos := pos + 1;
      next := Some(pos);
    }

    method Set(p: nat) returns (ok: bool)
      requires Valid()
      modifies this
      ensures Valid() && ok == (first <= p <= last) && pos == if ok then p else old(pos)
    {
      ok := first <= p <= last;
      if ok {
        pos := p;
      }
    }
  }

  datatype AllocateReply = Ips(ips: seq<Addr>) | OutOfAddresses | WrongFamily | Panicked

  /** The cursor on the range's start, and the position one past the range's end. */
  method Bounds(sub: Subnet) returns (c: Cursor, start: nat, end: Option<nat>)
    requires Validate(sub) == Config.Valid
    ensures fresh(c) && c.Valid() && c.first == sub.block.base && c.last == Last(sub.block)
    ensures c.pos == start == StartOf(sub) && end == Stop(sub)
  {
    ValidSubnetShape(sub);
    c := new Cursor(sub.block);
    start := sub.block.base;
    if sub.start.Some? {
      start := sub.start.value.value;
      var ok := c.Set(start);
    }
    end := None;
    if sub.end.Some? {
      var ctmp := new Cursor(sub.block);
      var ok := ctmp.Set(sub.end.value.value);
      end := ctmp.Next();
    }
  }

  class SimpleAllocator {
    const s: MetricsStore
    const sub: Subnet
    const c: Cursor
    const start: nat
    const end: Option<nat>

    ghost predicate Valid()
      reads this, c
    {
      && c.Valid() && Validate(sub) == Config.Valid
      && c.first == sub.block.base && c.last == Last(sub.block)
      && start == StartOf(sub) && end == Stop(sub)
    }

    /** Registers the subnet and puts the cursor on the range's start. */
    constructor (store: MetricsStore, sub: Subnet)
      requires Validate(sub) == Config.Valid
      modifies store.store`subnets
      ensures Valid() && fresh(c) && s == store && this.sub == sub && c.pos == StartOf(sub)
      ensures store.store.subnets == old(store.store.subnets)[sub.block := {}]
    {
      s, this.sub := store, sub;
      var cursor, from, stop := Bounds(sub);
      c, start, end := cursor, from, stop;
      new;
      store.SaveSubnet(sub.block);
    }

    /** The reserved loop: the two positions and the cursor move together; true stands for a nil dereference. */
    method SkipReserved() returns (panicked: bool, p: Option<nat>, next: Option<nat>)
      requires Valid()
      modifies c
      ensures Valid()
      ensures panicked <==> Pass1(sub, old(c.pos)).Panic?
      ensures !panicked ==> Pass1(sub, old(c.pos)) == At(p, next) && c.pos == Rest(Last(sub.block), next)
    {
      ghost var rs := ReservedValues(sub);
      p := Some(c.pos);
      next := c.Next();
      panicked := false;
      for i := 0 to |sub.reserved|
        invariant Valid() && Ordered(c.last, p, next) && c.pos == Rest(c.last, next)
        invariant Pass1(sub, old(c.pos)) == Skip(c.last, rs[i..], p, next)
      {
        if p.None? {
          panicked := true;
          return;
        }
        var ip := sub.reserved[i].value;
        ghost var p0, next0 := p.value, next;
        if p.value == ip {
          p := next;
          next := c.Next();
        }
        if next == Some(ip) {
          next := c.Next();
        }
        assert p == StepP(ip, p0, next0) && next == StepNext(c.last, ip, p0, next0);
        assert rs[i..][1..] == rs[i + 1..];
      }
    }

    /** The store's test-and-set for one address of the subnet. */
    method Take(a: Addr) returns (ok: bool)
      requires Contains(sub.block, a) && sub.block in s.store.subnets
      modifies s, s.store`subnets
      ensures ok == (a !in old(s.store.subnets[sub.block]))
      ensures ok ==> s.View() == MeteredStep(old(s.View()), AllocateIP(sub.block, a)).0
      ensures !ok ==> s.View() == old(s.View()) && s.store.subnets == old(s.store.subnets)
    {
      var reply := s.AllocateIP(sub.block, a);
      ok := reply == Allocated(true);
    }

    /** What the caller, the cursor and the store show of a walk. */
    ghost predicate Mirrors(r: AllocateReply, walk: Outcome, before: Metered)
      reads c, s, s.store, s.store.leases.Values
    {
      match walk
      case Crash => r == Panicked
      case Out(cursor) => r == OutOfAddresses && c.pos == cursor && s.View() == before
      case Got(v, cursor) =>
        && r == Ips([ToAddr(sub, v)]) && c.pos == cursor
        && s.View() == MeteredStep(before, AllocateIP(sub.block, ToAddr(sub, v))).0
    }

    /** One allocation, as the round-robin specification walks it. */
    method Allocate(family: Family) returns (r: AllocateReply)
      requires Valid() && sub.block in s.store.subnets
      modifies c, s, s.store`subnets
      ensures Valid()
      ensures family != sub.block.family ==> r == WrongFamily && s.View() == old(s.View()) && c.pos == old(c.pos)
      ensures family == sub.block.family ==>
        Mirrors(r, Walk(sub, old(c.pos), false, old(s.store.subnets[sub.block])), old(s.View()))
    {
      if family != sub.block.family {
        return WrongFamily;
      }
      ValidSubnetShape(sub);
      ghost var taken := s.store.subnets[sub.block];
      ghost var before, whole := s.View(), Walk(sub, c.pos, false, taken);
      var out := false;
      while true
        invariant Valid() && s.View() == before && s.store.subnets == old(s.store.subnets)
        invariant Walk(sub, c.pos, out, taken) == whole
        decreases !out, c.last - c.pos
      {
        var panicked, p, next := SkipReserved();
        if panicked {
          return Panicked;
        }
        if next.None? || next == end {
          if out {
            return OutOfAddresses;
          }
          var moved := c.Set(start);
          out := true;
        }
        if p.None? {
          return Panicked;
        }
        var a := Addr(sub.block.family, p.value);
        ContainsIsInterval(sub.block, a);
        var ok := Take(a);
        if ok {
          assert whole == Got(p.value, c.pos);
          return Ips([a]);
        }
      }
    }

    /** Frees an address if the subnet contains it. */
    method Free(a: Addr)
      modifies s, s.store`subnets
      ensures s.View() ==
        if Contains(sub.block, a) then MeteredStep(old(s.View()), FreeIP(sub.block, a)).0 else old(s.View())
    {
      if Contains(sub.block, a) {
        var r := s.FreeIP(sub.block, a);
      }
    }
  }
}
