/** No request in flight waits for another: left alone, each can take its own steps to its end. */
module Completion {
  import opened Util
  import opened Store
  import opened Engine
  import opened Concurrent
  import opened Interleavings
  import opened Schedules

  /** Steps of this client's request only. */
  predicate OwnSteps(es: seq<Action>, key: Key) {
    forall e :: e in es ==> !e.Sweep? && !e.Reboot? && e.key == key
  }

  /** The request comes to its end by its own steps, and no other request is touched. */
  ghost predicate Finishes(v: Server, n: Net, key: Key, es: seq<Action>, m: Net) {
    Interleaves(v, n, es, m) && OwnSteps(es, key) && m.flights == n.flights - {key}
  }

  lemma StepThenFinishes(v: Server, n: Net, key: Key, e: Action, es: seq<Action>, m: Net)
    requires Enabled(v, n, e) && OwnSteps([e], key) && Finishes(v, Act(v, n, e), key, es, m)
    requires Act(v, n, e).flights - {key} == n.flights - {key}
    ensures Finishes(v, n, key, [e] + es, m)
  {
    Before(v, n, e, es, m);
    forall x | x in [e] + es ensures x == e || x in es {
    }
    assert e in [e];
  }

  lemma NoStepsFinish(v: Server, n: Net, key: Key)
    requires key !in n.flights
    ensures Finishes(v, n, key, [], n)
  {
    assert n.flights - {key} == n.flights;
  }

  lemma {:induction false} RollbackFinishes(v: Server, n: Net, key: Key) returns (es: seq<Action>, m: Net)
    requires Good(v, n) && key in n.flights && n.flights[key].Freeing? && n.flights[key].wanted == None
    ensures Finishes(v, n, key, es, m)
    decreases |n.flights[key].rest|
  {
    var z := Act(v, n, Free(key));
    ActIsGood(v, n, Free(key));
    if n.flights[key].rest == [] {
      es, m := [], z;
      NoStepsFinish(v, z, key);
    } else {
      es, m := RollbackFinishes(v, z, key);
    }
    StepThenFinishes(v, n, key, Free(key), es, m);
    es := [Free(key)] + es;
  }

  lemma SavingFinishes(v: Server, n: Net, key: Key) returns (es: seq<Action>, m: Net)
    requires key in n.flights && n.flights[key].Saving?
    ensures Finishes(v, n, key, es, m)
  {
    m := Act(v, n, Save(key));
    NoStepsFinish(v, m, key);
    StepThenFinishes(v, n, key, Save(key), [], m);
    es := [Save(key)] + [];
  }

  lemma StampingFinishes(v: Server, n: Net, key: Key) returns (es: seq<Action>, m: Net)
    requires Enabled(v, n, Stamp(key, n.clock, false))
    ensures Finishes(v, n, key, es, m)
  {
    var z := Act(v, n, Stamp(key, n.clock, false));
    es, m := SavingFinishes(v, z, key);
    StepThenFinishes(v, n, key, Stamp(key, n.clock, false), es, m);
    es := [Stamp(key, n.clock, false)] + es;
  }

  lemma AllocatingFinishes(v: Server, n: Net, key: Key) returns (es: seq<Action>, m: Net)
    requires Good(v, n) && key in n.flights && n.flights[key].Allocating?
    ensures Finishes(v, n, key, es, m)
  {
    assert Coherent(v, n.store.leases, n.clock, key, n.flights[key]);
    if Enabled(v, n, GiveUp(key)) {
      var z := Act(v, n, GiveUp(key));
      ActIsGood(v, n, GiveUp(key));
      es, m := RollbackFinishes(v, z, key);
      StepThenFinishes(v, n, key, GiveUp(key), es, m);
      es := [GiveUp(key)] + es;
    } else {
      es, m := StampingFinishes(v, n, key);
    }
  }

  lemma {:induction false} FreeingFinishes(v: Server, n: Net, key: Key) returns (es: seq<Action>, m: Net)
    requires Good(v, n) && key in n.flights && n.flights[key].Freeing?
    ensures Finishes(v, n, key, es, m)
    decreases |n.flights[key].rest|
  {
    if n.flights[key].wanted.None? {
      es, m := RollbackFinishes(v, n, key);
    } else {
      var z := Act(v, n, Free(key));
      ActIsGood(v, n, Free(key));
      if n.flights[key].rest == [] {
        es, m := AllocatingFinishes(v, z, key);
      } else {
        es, m := FreeingFinishes(v, z, key);
      }
      StepThenFinishes(v, n, key, Free(key), es, m);
      es := [Free(key)] + es;
    }
  }

  /** Whatever it is in the middle of, and whatever the others are. */
  lemma EveryRequestCanFinish(v: Server, n: Net, key: Key) returns (es: seq<Action>, m: Net)
    requires Good(v, n) && key in n.flights
    ensures Interleaves(v, n, es, m) && m.flights == n.flights - {key}
    ensures forall e :: e in es ==> !e.Sweep? && !e.Reboot? && e.key == key
  {
    match n.flights[key]
    case Deleting(_, _) =>
      var z := Act(v, n, Delete(key));
      ActIsGood(v, n, Delete(key));
      es, m := FreeingFinishes(v, z, key);
      StepThenFinishes(v, n, key, Delete(key), es, m);
      es := [Delete(key)] + es;
    case Freeing(_, _) => es, m := FreeingFinishes(v, n, key);
    case Allocating(_, _) => es, m := AllocatingFinishes(v, n, key);
    case Renewing(_) => es, m := StampingFinishes(v, n, key);
    case Saving(_, _) => es, m := SavingFinishes(v, n, key);
  }
}
