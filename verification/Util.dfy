/** Shared vocabulary: options, powers of two, and facts about finite sets and sequences. */
module Util {
  datatype Option<+T> = None | Some(value: T)

  function Pow2(k: nat): (p: nat)
    ensures p >= 1
  {
    if k == 0 then 1 else 2 * Pow2(k - 1)
  }

  lemma {:induction false} Pow2Adds(j: nat, k: nat)
    ensures Pow2(j + k) == Pow2(j) * Pow2(k)
  {
    if j > 0 {
      Pow2Adds(j - 1, k);
      assert Pow2(j + k) == 2 * Pow2(j - 1 + k);
      assert 2 * (Pow2(j - 1) * Pow2(k)) == (2 * Pow2(j - 1)) * Pow2(k);
    }
  }

  ghost predicate NoDup<T>(s: seq<T>) {
    forall i, j :: 0 <= i < j < |s| ==> s[i] != s[j]
  }

  ghost function Elems<T>(s: seq<T>): set<T> {
    set x | x in s
  }

  lemma NoDupTail<T>(s: seq<T>)
    requires NoDup(s) && s != []
    ensures NoDup(s[1..]) && s[0] !in s[1..]
    ensures Elems(s) == {s[0]} + Elems(s[1..])
  {
  }

  ghost function Interval(lo: int, hi: int): (s: set<int>)
    ensures forall x :: x in s <==> lo <= x <= hi
    decreases hi - lo
  {
    if lo > hi then {} else Interval(lo, hi - 1) + {hi}
  }

  lemma {:induction false} IntervalCard(lo: int, hi: int)
    requires lo <= hi + 1
    ensures |Interval(lo, hi)| == hi - lo + 1
    decreases hi - lo
  {
    if lo <= hi {
      IntervalCard(lo, hi - 1);
    }
  }

  /** Two finite sets matched by a one-to-one, onto relation have the same size. */
  lemma {:induction false} MatchedCard<A(!new), B(!new)>(s: set<A>, t: set<B>, f: A -> B)
    requires forall x, y :: x in s && y in s && f(x) == f(y) ==> x == y
    requires forall x :: x in s ==> f(x) in t
    requires forall z :: z in t ==> exists x :: x in s && f(x) == z
    ensures |s| == |t|
  {
    if s == {} {
      assert t == {};
    } else {
      var x :| x in s;
      MatchedCard(s - {x}, t - {f(x)}, f);
    }
  }
}
