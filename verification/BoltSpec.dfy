/** The file store's state and operations, and its equivalence with the memory store. */
module BoltSpec {
  import opened Util
  import opened Address
  import opened Store

  type Byte = b: nat | b < 256

  /** Big-endian bytes of the low 8 * n bits. */
  function BigEndian(k: nat, n: nat): (bytes: seq<Byte>)
    ensures |bytes| == n
  {
    if n == 0 then [] else BigEndian(k / 256, n - 1) + [k % 256]
  }

  function KeyBytes(k: Key): seq<Byte> {
    BigEndian(k, 8)
  }

  function FromBytes(bytes: seq<Byte>): nat {
    if bytes == [] then 0 else FromBytes(bytes[..|bytes| - 1]) * 256 + bytes[|bytes| - 1]
  }

  function Pow256(n: nat): nat {
    if n == 0 then 1 else 256 * Pow256(n - 1)
  }

  lemma {:induction false} BigEndianRoundTrip(k: nat, n: nat)
    requires k < Pow256(n)
    ensures FromBytes(BigEndian(k, n)) == k
  {
    if n > 0 {
      BigEndianRoundTrip(k / 256, n - 1);
      assert BigEndian(k, n)[..n - 1] == BigEndian(k / 256, n - 1);
    }
  }

  /** The most significant byte comes first. */
  lemma {:induction false} BigEndianAt(k: nat, n: nat, i: nat)
    requires i < n
    ensures Pow256(n - 1 - i) > 0 && BigEndian(k, n)[i] == k / Pow256(n - 1 - i) % 256
  {
    if i < n - 1 {
      BigEndianAt(k / 256, n - 1, i);
      assert BigEndian(k, n)[i] == BigEndian(k / 256, n - 1)[i];
      QuotientTwice(k, Pow256(n - 2 - i));
    }
  }

  lemma QuotientTwice(k: nat, m: nat)
    requires m > 0
    ensures k / 256 / m == k / (256 * m)
  {
    QuotientOfQuotient(k, 256, m);
  }

  /** Distinct client keys have distinct database keys. */
  lemma KeyBytesRoundTrip(k: Key)
    ensures FromBytes(KeyBytes(k)) == k
  {
    assert Pow256(4) == 0x1_0000_0000;
    assert Pow256(8) == 0x1_0000_0000_0000_0000;
    BigEndianRoundTrip(k, 8);
  }

  /** The database's two buckets, and the process's own list of registered subnets. */
  datatype Bolt = Bolt(db: State<seq<Byte>>, cache: set<Block>)

  const EMPTY_BOLT: Bolt := Bolt(State(map[], map[]), {})

  ghost function BoltStep(s: Bolt, op: Op): (Bolt, Reply) {
    var leases, subnets := s.db.leases, s.db.subnets;
    match op
    case Leases => (s, LeaseList(LeaseBag(leases)))
    case GetLease(k) => (s, OneLease(if KeyBytes(k) in leases then Some(leases[KeyBytes(k)]) else None))
    case SaveLease(k, l) => (s.(db := State(leases[KeyBytes(k) := l], subnets)), Done)
    case DeleteLease(k) => (s.(db := State(leases - {KeyBytes(k)}, subnets)), Done)
    case Purge(t) =>
      (s.(db := State(Surviving(leases, t), SweptSubnets(subnets, s.cache, FreedAddrs(leases, t)))),
       Freed(FreedIPs(leases, t, s.cache)))
    case Subnets => (s, SubnetList(subnets.Keys))
    case SaveSubnet(b) =>
      (Bolt(State(leases, if b in subnets then subnets else subnets[b := {}]), s.cache + {b}), Done)
    case AllocatedIPs(b) => (s, if b in subnets then AddrList(subnets[b]) else Failed)
    case AllocateIP(b, a) =>
      if !Contains(b, a) || b !in subnets then (s, Failed)
      else if a in subnets[b] then (s, Allocated(false))
      else (s.(db := State(leases, subnets[b := subnets[b] + {a}])), Allocated(true))
    case FreeIP(b, a) =>
      if !Contains(b, a) || b !in subnets then (s, Failed)
      else (s.(db := State(leases, subnets[b := subnets[b] - {a}])), Done)
  }

  /** A new process on the same file: the database stays, the cache starts empty. */
  function Reopened(s: Bolt): Bolt {
    s.(cache := {})
  }

  const ENCODE: Key -> seq<Byte> := (k: Key) => KeyBytes(k)

  lemma KeyBytesInjective()
    ensures Injective(ENCODE)
  {
    forall k, j | ENCODE(k) == ENCODE(j) ensures k == j {
      KeyBytesRoundTrip(k);
      KeyBytesRoundTrip(j);
    }
  }

  /** Same leases under encoded keys, same allocated sets, and a cache that lists exactly the buckets. */
  ghost predicate Same(m: State<Key>, s: Bolt) {
    KeyBytesInjective();
    s.db.leases == Rekeyed(m.leases, ENCODE) && s.db.subnets == m.subnets && s.cache == m.subnets.Keys
  }

  /** Registering a subnet again is allowed only while nothing is allocated from it. */
  ghost predicate Legal(m: State<Key>, op: Op) {
    op.SaveSubnet? && op.subnet in m.subnets ==> m.subnets[op.subnet] == {}
  }

  lemma PurgesAgree(m: State<Key>, s: Bolt, t: int)
    requires Same(m, s)
    ensures MemoryStep(m, Purge(t)).1 == BoltStep(s, Purge(t)).1
    ensures Same(MemoryStep(m, Purge(t)).0, BoltStep(s, Purge(t)).0)
  {
    KeyBytesInjective();
    RekeyedSurviving(m.leases, ENCODE, t);
    RekeyedFreed(m.leases, ENCODE, t);
    RekeyedFreedIPs(m.leases, ENCODE, t, s.cache);
  }

  /** Saving and deleting under a key, and under its bytes. */
  lemma LeaseStepsAgree(m: State<Key>, s: Bolt, k: Key, l: Lease)
    requires Same(m, s)
    ensures Same(MemoryStep(m, SaveLease(k, l)).0, BoltStep(s, SaveLease(k, l)).0)
    ensures Same(MemoryStep(m, DeleteLease(k)).0, BoltStep(s, DeleteLease(k)).0)
  {
    KeyBytesInjective();
    RekeyedPlus(m.leases, ENCODE, k, l);
    RekeyedMinus(m.leases, ENCODE, k);
  }

  lemma SubnetStepsAgree(m: State<Key>, s: Bolt, op: Op)
    requires Same(m, s) && Legal(m, op)
    requires op.SaveSubnet? || op.AllocatedIPs? || op.AllocateIP? || op.FreeIP? || op.Subnets?
    ensures MemoryStep(m, op).1 == BoltStep(s, op).1
    ensures Same(MemoryStep(m, op).0, BoltStep(s, op).0)
  {
  }

  lemma LookupsAgree(m: State<Key>, s: Bolt, k: Key)
    requires Same(m, s)
    ensures MemoryStep(m, GetLease(k)) == (m, BoltStep(s, GetLease(k)).1)
    ensures MemoryStep(m, Leases) == (m, BoltStep(s, Leases).1)
  {
    KeyBytesInjective();
    RekeyedBag(m.leases, ENCODE);
    assert ENCODE(k) == KeyBytes(k);
  }

  /** Every legal operation gets the same reply from both stores and keeps them the same. */
  lemma StepsAgree(m: State<Key>, s: Bolt, op: Op)
    requires Same(m, s) && Legal(m, op)
    ensures MemoryStep(m, op).1 == BoltStep(s, op).1
    ensures Same(MemoryStep(m, op).0, BoltStep(s, op).0)
  {
    match op
    case Leases => LookupsAgree(m, s, 0);
    case GetLease(k) => LookupsAgree(m, s, k);
    case SaveLease(k, l) => LeaseStepsAgree(m, s, k, l);
    case DeleteLease(k) => LeaseStepsAgree(m, s, k, Lease([], 0, 0));
    case Purge(t) => PurgesAgree(m, s, t);
    case _ => SubnetStepsAgree(m, s, op);
  }

  ghost predicate LegalRun(m: State<Key>, ops: seq<Op>)
    decreases |ops|
  {
    ops == [] || (Legal(m, ops[0]) && LegalRun(MemoryStep(m, ops[0]).0, ops[1..]))
  }

  ghost function MemoryReplies(m: State<Key>, ops: seq<Op>): seq<Reply>
    decreases |ops|
  {
    if ops == [] then []
    else
      var (m', r) := MemoryStep(m, ops[0]);
      [r] + MemoryReplies(m', ops[1..])
  }

  ghost function BoltReplies(s: Bolt, ops: seq<Op>): seq<Reply>
    decreases |ops|
  {
    if ops == [] then []
    else
      var (s', r) := BoltStep(s, ops[0]);
      [r] + BoltReplies(s', ops[1..])
  }

  lemma {:induction false} RunsAgree(m: State<Key>, s: Bolt, ops: seq<Op>)
    requires Same(m, s) && LegalRun(m, ops)
    ensures MemoryReplies(m, ops) == BoltReplies(s, ops)
    decreases |ops|
  {
    if ops != [] {
      StepsAgree(m, s, ops[0]);
      RunsAgree(MemoryStep(m, ops[0]).0, BoltStep(s, ops[0]).0, ops[1..]);
    }
  }

  /** No client can tell the two stores apart. */
  lemma StoresAreEquivalent(ops: seq<Op>)
    requires LegalRun(EMPTY, ops)
    ensures MemoryReplies(EMPTY, ops) == BoltReplies(EMPTY_BOLT, ops)
  {
    assert Same(EMPTY, EMPTY_BOLT);
    RunsAgree(EMPTY, EMPTY_BOLT, ops);
  }

  /** A run that registers no subnet twice is legal. */
  lemma {:induction false} RegisteredOnceIsLegal(m: State<Key>, ops: seq<Op>)
    requires forall i :: 0 <= i < |ops| && ops[i].SaveSubnet? ==> ops[i].subnet !in m.subnets
    requires forall i, j :: 0 <= i < j < |ops| && ops[i].SaveSubnet? && ops[j].SaveSubnet? ==>
      ops[i].subnet != ops[j].subnet
    ensures LegalRun(m, ops)
    decreases |ops|
  {
    if ops != [] {
      var z := MemoryStep(m, ops[0]).0;
      forall i | 0 <= i < |ops[1..]| && ops[1..][i].SaveSubnet? ensures ops[1..][i].subnet !in z.subnets {
        assert ops[1..][i] == ops[i + 1];
      }
      RegisteredOnceIsLegal(z, ops[1..]);
    }
  }

  /** Registering a subnet keeps the stores the same exactly when nothing was allocated from it. */
  lemma SaveSubnetAgreesIff(m: State<Key>, s: Bolt, b: Block)
    requires Same(m, s)
    ensures MemoryReplies(m, [SaveSubnet(b), AllocatedIPs(b)]) == BoltReplies(s, [SaveSubnet(b), AllocatedIPs(b)])
      <==> Legal(m, SaveSubnet(b))
  {
    var ops := [SaveSubnet(b), AllocatedIPs(b)];
    assert ops[1..] == [AllocatedIPs(b)] && ops[1..][1..] == [];
    var m', s' := MemoryStep(m, ops[0]).0, BoltStep(s, ops[0]).0;
    var mr, br := MemoryStep(m', ops[1]).1, BoltStep(s', ops[1]).1;
    assert MemoryReplies(m', ops[1..]) == [mr] && BoltReplies(s', ops[1..]) == [br];
    assert MemoryReplies(m, ops) == [Done, mr] && BoltReplies(s, ops) == [Done, br];
    assert mr == br <==> [Done, mr] == [Done, br] by {
      assert [Done, mr][1] == mr && [Done, br][1] == br;
    }
  }

  /** A restarted process that registers its subnets again serves the same leases and allocated addresses. */
  lemma ReopenedIsSame(m: State<Key>, s: Bolt, bs: seq<Block>)
    requires Same(m, s)
    requires forall b :: b in m.subnets <==> b in bs
    ensures Reopened(s) == Bolt(s.db, {}) && Same(m, Registered(Reopened(s), bs))
  {
    RegisteredKeeps(Reopened(s), bs);
  }

  ghost function Registered(s: Bolt, bs: seq<Block>): Bolt
    decreases |bs|
  {
    if bs == [] then s else Registered(BoltStep(s, SaveSubnet(bs[0])).0, bs[1..])
  }

  lemma {:induction false} RegisteredKeeps(s: Bolt, bs: seq<Block>)
    requires forall b :: b in bs ==> b in s.db.subnets
    ensures Registered(s, bs) == Bolt(s.db, s.cache + Elems(bs))
    decreases |bs|
  {
    if bs != [] {
      RegisteredKeeps(s.(cache := s.cache + {bs[0]}), bs[1..]);
      assert s.cache + {bs[0]} + Elems(bs[1..]) == s.cache + Elems(bs);
    }
  }
}
