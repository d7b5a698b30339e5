/** IP addresses and the aligned power-of-two blocks of section 3.1 of RFC 4632. */
module Address {
  import opened Util

  datatype Family = IPv4 | IPv6

  function Width(f: Family): nat {
    match f
    case IPv4 => 32
    case IPv6 => 128
  }

  datatype Addr = Addr(family: Family, value: nat)

  /** A CIDR block: its network address and its number of host bits. */
  datatype Block = Block(family: Family, base: nat, bits: nat)

  /** The largest multiple of m not above v. */
  function FloorTo(v: nat, m: nat): nat
    requires m > 0
  {
    v / m * m
  }

  /** The address with its low k bits cleared. */
  function Mask(v: nat, k: nat): nat {
    FloorTo(v, Pow2(k))
  }

  predicate Contains(b: Block, a: Addr) {
    a.family == b.family && Mask(a.value, b.bits) == Mask(b.base, b.bits)
  }

  predicate Aligned(b: Block) {
    b.base == Mask(b.base, b.bits)
  }

  function Last(b: Block): nat {
    b.base + (Pow2(b.bits) - 1)
  }

  ghost predicate Disjoint(p: Block, q: Block) {
    forall a :: !(Contains(p, a) && Contains(q, a))
  }

  lemma MultipleGap(x: nat, y: nat, m: nat)
    requires x < y
    ensures x * m + m <= y * m
  {
    assert (y - x - 1) * m >= 0;
    assert y * m == x * m + m + (y - x - 1) * m;
  }

  lemma MultiplesEqual(x: nat, y: nat, m: nat)
    requires m > 0 && x * m == y * m
    ensures x == y
  {
    if x < y {
      MultipleGap(x, y, m);
    } else if y < x {
      MultipleGap(y, x, m);
    }
  }

  lemma MaskEqualIffQuotientEqual(v: nat, w: nat, k: nat)
    ensures Mask(v, k) == Mask(w, k) <==> v / Pow2(k) == w / Pow2(k)
  {
    if Mask(v, k) == Mask(w, k) {
      MultiplesEqual(v / Pow2(k), w / Pow2(k), Pow2(k));
    }
  }

  lemma QuotientIffBetween(v: nat, m: nat, q: nat)
    requires m > 0
    ensures v / m == q <==> q * m <= v < q * m + m
  {
    assert v == v / m * m + v % m;
    if v / m < q {
      MultipleGap(v / m, q, m);
    } else if q < v / m {
      MultipleGap(q, v / m, m);
    }
  }

  /** The mask test of an aligned block is membership in an interval. */
  lemma ContainsIsInterval(b: Block, a: Addr)
    requires Aligned(b)
    ensures Contains(b, a) <==> a.family == b.family && b.base <= a.value <= Last(b)
  {
    MaskEqualIffQuotientEqual(a.value, b.base, b.bits);
    QuotientIffBetween(a.value, Pow2(b.bits), b.base / Pow2(b.bits));
  }

  lemma Regroup(q: nat, n: nat, r: nat, m: nat)
    ensures (q * n + r) * m == q * (m * n) + r * m
  {
    assert (q * n + r) * m == (q * n) * m + r * m;
    assert (q * n) * m == q * (n * m);
  }

  lemma NestedBounds(v: nat, m: nat, n: nat, x: nat, q: nat)
    requires x * m <= v < x * m + m
    requires q * n <= x < q * n + n
    ensures q * (m * n) <= v < q * (m * n) + m * n
  {
    var r := x - q * n;
    Regroup(q, n, r, m);
    MultipleGap(r, n, m);
  }

  lemma QuotientOfQuotient(v: nat, m: nat, n: nat)
    requires m > 0 && n > 0 && m * n > 0
    ensures v / m / n == v / (m * n)
  {
    var x := v / m;
    var q := x / n;
    QuotientIffBetween(v, m, x);
    QuotientIffBetween(x, n, q);
    NestedBounds(v, m, n, x, q);
    QuotientIffBetween(v, m * n, q);
  }

  lemma SharedQuotientWidens(v: nat, w: nat, j: nat, k: nat)
    requires j <= k && v / Pow2(j) == w / Pow2(j)
    ensures v / Pow2(k) == w / Pow2(k)
  {
    Pow2Adds(j, k - j);
    QuotientOfQuotient(v, Pow2(j), Pow2(k - j));
    QuotientOfQuotient(w, Pow2(j), Pow2(k - j));
  }

  /** The prefix library's containment: q is a proper subnetwork of p. */
  predicate ProperlyContains(p: Block, q: Block) {
    p.family == q.family && p.bits > q.bits && Mask(q.base, p.bits) == Mask(p.base, p.bits)
  }

  predicate Overlaps(p: Block, q: Block) {
    ProperlyContains(p, q) || ProperlyContains(q, p) || p == q
  }

  /** Two aligned blocks that share an address are nested. */
  lemma SharedAddressMeansOverlap(p: Block, q: Block, a: Addr)
    requires Aligned(p) && Aligned(q) && Contains(p, a) && Contains(q, a)
    ensures Overlaps(p, q)
  {
    MaskEqualIffQuotientEqual(a.value, p.base, p.bits);
    MaskEqualIffQuotientEqual(a.value, q.base, q.bits);
    MaskEqualIffQuotientEqual(q.base, p.base, p.bits);
    MaskEqualIffQuotientEqual(q.base, p.base, q.bits);
    if q.bits <= p.bits {
      SharedQuotientWidens(a.value, q.base, q.bits, p.bits);
    } else {
      SharedQuotientWidens(a.value, p.base, p.bits, q.bits);
    }
  }

  /** The library's overlap test is exact on aligned blocks: nested, or no shared address. */
  lemma OverlapsIffNotDisjoint(p: Block, q: Block)
    requires Aligned(p) && Aligned(q)
    ensures Overlaps(p, q) <==> !Disjoint(p, q)
  {
    if Overlaps(p, q) {
      var inner := if ProperlyContains(p, q) then q else p;
      var a := Addr(inner.family, inner.base);
      assert Contains(p, a) && Contains(q, a);
    } else {
      forall a ensures !(Contains(p, a) && Contains(q, a)) {
        if Contains(p, a) && Contains(q, a) {
          SharedAddressMeansOverlap(p, q, a);
        }
      }
    }
  }

  lemma LastMultipleFits(q: nat, m: nat, n: nat)
    requires m > 0 && q * m < n * m
    ensures q * m + m <= n * m
  {
    if n < q {
      MultipleGap(n, q, m);
    } else if q < n {
      MultipleGap(q, n, m);
    }
  }

  /** An aligned block within its family's width has no address outside it, so no address computed here wraps. */
  lemma BlockFits(b: Block, a: Addr)
    requires Aligned(b) && b.bits <= Width(b.family) && b.base < Pow2(Width(b.family))
    requires Contains(b, a)
    ensures a.value < Pow2(if a.family == IPv4 then 32 else 128)
  {
    var w := Width(b.family);
    Pow2Adds(w - b.bits, b.bits);
    LastMultipleFits(b.base / Pow2(b.bits), Pow2(b.bits), Pow2(w - b.bits));
    ContainsIsInterval(b, a);
  }
}
