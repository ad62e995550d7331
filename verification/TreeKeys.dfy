/** The shifted size that steers a walk down a tree bin: its top bit is the next size bit to test
    (src/mm/malloc.c:2908-2915, 3669-3676, 4448-4467). */
module TreeKeys {
  import opened Bits
  import opened BinIndex
  import opened Index

  /** x << n on size_t. */
  function Shl64(x: int, n: nat): int { (x * Pow2(n)) % SIZE_RANGE }

  /** leftshift_for_tree_index. */
  function LeftShift(i: nat): nat
    requires i < NTREEBINS
  {
    if i == NTREEBINS - 1 then 0 else 63 - (i / 2 + 8 - 2)
  }

  /** (K >> (SIZE_T_BITSIZE - 1)) & 1. */
  function TopBitOf(k: int): int { if k / 0x8000_0000_0000_0000 % 2 == 1 then 1 else 0 }

  /** The key k holds the e size bits of s that are still undecided, s being in [lo, lo + 2^e). */
  ghost predicate KeyFor(k: int, s: int, lo: int, e: nat) {
    e <= 64 && lo <= s < lo + Pow2(e) && k == (s - lo) * Pow2(64 - e)
  }

  lemma Pow2Of63()
    ensures Pow2(63) == 0x8000_0000_0000_0000 && Pow2(64) == SIZE_RANGE
  {
    Pow2Of64();
    assert Pow2(64) == 2 * Pow2(63);
  }

  lemma MulLess(a: int, b: int, d: int)
    requires a < b && d > 0
    ensures a * d < b * d && a * d + d <= b * d
  {
    MulMono(a + 1, b, d);
    assert (a + 1) * d == a * d + d;
  }

  const HALF := 0x8000_0000_0000_0000

  lemma KeyLow(d: int, h: int, u: int)
    requires 0 <= d < h && u > 0 && h * u == HALF
    ensures 0 <= d * u < HALF && d * (2 * u) == 2 * (d * u)
  {
    MulLess(d, h, u);
    MulMono(0, d, u);
  }

  lemma KeyHigh(d: int, h: int, u: int)
    requires h <= d < 2 * h && u > 0 && h * u == HALF
    ensures HALF <= d * u < SIZE_RANGE && (d - h) * (2 * u) == 2 * (d * u) - SIZE_RANGE
  {
    MulMono(h, d, u);
    MulLess(d, 2 * h, u);
    assert (2 * h) * u == 2 * (h * u);
    assert (d - h) * (2 * u) == 2 * ((d - h) * u);
    assert (d - h) * u == d * u - h * u;
  }

  lemma KeyBits(k: int)
    requires 0 <= k < SIZE_RANGE
    ensures TopBitOf(k) == if k < HALF then 0 else 1
    ensures Shl64(k, 1) == if k < HALF then 2 * k else 2 * k - SIZE_RANGE
  {
    assert Pow2(1) == 2;
  }

  /** The top bit of the key tells the half, and shifting it out gives the key for that half. */
  lemma KeyStep(k: int, s: int, lo: int, e: nat)
    requires KeyFor(k, s, lo, e) && e >= 1
    ensures TopBitOf(k) == if s < lo + Pow2(e - 1) then 0 else 1
    ensures s < lo + Pow2(e - 1) ==> KeyFor(Shl64(k, 1), s, lo, e - 1)
    ensures s >= lo + Pow2(e - 1) ==> KeyFor(Shl64(k, 1), s, lo + Pow2(e - 1), e - 1)
  {
    var d, u, h := s - lo, Pow2(64 - e), Pow2(e - 1);
    assert h * u == HALF by { Pow2Add(e - 1, 64 - e); Pow2Of63(); }
    assert Pow2(64 - (e - 1)) == 2 * u && Pow2(e) == 2 * h;
    if d < h { KeyLow(d, h, u); } else { KeyHigh(d, h, u); }
    KeyBits(k);
  }

  lemma ModMultiple(q: int, m: int, r: int)
    requires m > 0 && 0 <= r < m
    ensures (q * m + r) % m == r
  {
    DivUnique(q * m + r, m, q, r);
  }

  /** The first key of a walk: the size shifted so that the bin's fixed leading bits fall out. */
  lemma FirstKey(i: nat, s: int)
    requires InTreeBin(i, s) && s < SIZE_RANGE
    ensures KeyFor(Shl64(s, LeftShift(i)), s, Lo(i), Exp(i))
  {
    BinSpan(i, s);
    Pow2Of63();
    if i == 31 {
      assert Pow2(0) == 1;
    } else {
      FirstKeyBelow(i, s);
    }
  }

  lemma FirstKeyProduct(q: int, p: int, u: int, d: int)
    requires p > 0 && u > 0 && p * u == SIZE_RANGE && 0 <= d < p
    ensures 0 <= d * u < SIZE_RANGE && ((q * p + d) * u) % SIZE_RANGE == d * u
  {
    MulLess(d, p, u);
    MulMono(0, d, u);
    assert (q * p + d) * u == q * (p * u) + d * u;
    ModMultiple(q, SIZE_RANGE, d * u);
  }

  lemma FirstKeyBelow(i: nat, s: int)
    requires InTreeBin(i, s) && i < 31 && Lo(i) <= s < Lo(i) + Pow2(Exp(i))
    ensures KeyFor(Shl64(s, LeftShift(i)), s, Lo(i), Exp(i))
  {
    var e, lo := Exp(i), Lo(i);
    var q := if i % 2 == 1 then 3 else 2;
    assert Pow2(e) * Pow2(64 - e) == SIZE_RANGE by { Pow2Add(e, 64 - e); Pow2Of63(); }
    assert lo == q * Pow2(e);
    FirstKeyProduct(q, Pow2(e), Pow2(64 - e), s - lo);
  }
}
