/** The metrics wrapper: the embedded store's operations, with the gauge updated around them. */
module MetricsStores {
  import opened Address
  import opened Store
  import opened Metrics
  import opened MemoryStores

  class MetricsStore {
    const store: MemoryStore
    var gauge: map<Block, int>

    ghost function View(): Metered
      reads this, store, store.leases.Values
    {
      Metered(store.View(), gauge)
    }

    /** Wraps an existing store and counts, subnet by subnet, what it already holds. */
    constructor (store: MemoryStore)
      ensures this.store == store && gauge == InitialGauge(store.subnets)
    {
      this.store, gauge := store, map[];
      new;
      var todo := store.subnets.Keys;
      while todo != {}
        invariant todo <= store.subnets.Keys && gauge.Keys == store.subnets.Keys - todo
        invariant forall b :: b in gauge ==> gauge[b] == |store.subnets[b]|
        decreases todo
      {
        var b :| b in todo;
        var r := store.AllocatedIPs(b);
        gauge := gauge[b := |r.addrs|];
        todo := todo - {b};
      }
    }

    method SaveSubnet(b: Block)
      modifies store`subnets
      ensures store.subnets == old(store.subnets)[b := {}]
      ensures View() == MeteredStep(old(View()), Op.SaveSubnet(b)).0
    {
      store.SaveSubnet(b);
    }

    method AllocateIP(b: Block, a: Addr) returns (r: Reply)
      modifies this, store`subnets
      ensures (View(), r) == MeteredStep(old(View()), Op.AllocateIP(b, a))
    {
      r := store.AllocateIP(b, a);
      if r == Allocated(true) {
        gauge := gauge[b := Gauge(gauge, b) + 1];
      }
    }

    /** The gauge drops whenever the store reports no error, allocated or not. */
    method FreeIP(b: Block, a: Addr) returns (r: Reply)
      modifies this, store`subnets
      ensures (View(), r) == MeteredStep(old(View()), Op.FreeIP(b, a))
    {
      r := store.FreeIP(b, a);
      if r == Done {
        gauge := gauge[b := Gauge(gauge, b) - 1];
      }
    }

    /** Subtracts the freed counts, subnet by subnet. */
    method Debit(stats: map<Block, nat>)
      modifies this`gauge
      ensures gauge == Debited(old(gauge), stats)
    {
      var todo := stats.Keys;
      while todo != {}
        invariant todo <= stats.Keys
        invariant gauge.Keys == old(gauge).Keys + (stats.Keys - todo)
        invariant forall b :: b in gauge ==>
          gauge[b] == Gauge(old(gauge), b) - (if b in todo then 0 else CountFor(stats, b))
        decreases todo
      {
        var b :| b in todo;
        gauge := gauge[b := Gauge(gauge, b) - stats[b]];
        todo := todo - {b};
      }
    }

    method Purge(t: int) returns (stats: map<Block, nat>)
      requires store.Valid()
      modifies this, store
      ensures store.Valid()
      ensures forall k :: k in store.leases ==> k in old(store.leases) && store.leases[k] == old(store.leases)[k]
      ensures (View(), Freed(stats)) == MeteredStep(old(View()), Op.Purge(t))
    {
      stats := store.Purge(t);
      Debit(stats);
    }
  }
}
