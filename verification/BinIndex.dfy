/** Which bin a free chunk belongs to: the small-bin index, the branch-free tree index and the
    size range of every tree bin (src/mm/malloc.c:2838-2844, 2888-2920). */
module BinIndex {
  import opened Bits

  const NSMALLBINS := 32
  const NTREEBINS := 32
  const MIN_LARGE_SIZE := 256
  const SIZE_RANGE := 0x1_0000_0000_0000_0000

  predicate IsSmall(s: nat) { s / 8 < NSMALLBINS }

  function SmallIndex(s: nat): nat { s / 8 }

  function SmallIndex2Size(i: nat): nat { 8 * i }

  /** minsize_for_tree_index. */
  function MinSize(i: nat): nat {
    Pow2(i / 2 + 8) + (if i % 2 == 1 then Pow2(i / 2 + 7) else 0)
  }

  /** The sizes of tree bin i: from its minimum up to the next bin's, unbounded for the last bin. */
  predicate InTreeBin(i: nat, s: int) {
    i < NTREEBINS && MinSize(i) <= s && (i + 1 < NTREEBINS ==> s < MinSize(i + 1))
  }

  function Sub32(a: int, b: int): nat { (a - b) % WORD_RANGE }

  lemma Pow2Small()
    ensures Pow2(0) == 1 && Pow2(1) == 2 && Pow2(2) == 4 && Pow2(3) == 8 && Pow2(4) == 16
    ensures Pow2(7) == 0x80 && Pow2(8) == 0x100 && Pow2(15) == 0x8000 && Pow2(16) == 0x10000
    ensures Pow2(23) == 0x80_0000 && Pow2(24) == 0x100_0000
  {
    assert Pow2(3) == 8;
    assert Pow2(6) == 0x40;
    assert Pow2(8) == 0x100;
    assert Pow2(12) == 0x1000;
    assert Pow2(16) == 0x10000;
    assert Pow2(20) == 0x100000;
  }

  lemma {:induction false} MinSizeMono(i: nat, j: nat)
    requires i <= j
    ensures MinSize(i) <= MinSize(j)
    ensures i < j ==> MinSize(i) < MinSize(j)
  {
    if i < j { MinSizeMono(i, j - 1); MinSizeStep(j - 1); }
  }

  lemma MinSizeStep(i: nat)
    ensures MinSize(i + 1) == MinSize(i) + Pow2(i / 2 + 7)
  {
    assert Pow2(i / 2 + 8) == 2 * Pow2(i / 2 + 7);
    if i % 2 == 1 {
      assert (i + 1) / 2 == i / 2 + 1 && (i + 1) % 2 == 0;
      assert Pow2(i / 2 + 9) == 2 * Pow2(i / 2 + 8);
    } else {
      assert (i + 1) / 2 == i / 2 && (i + 1) % 2 == 1;
    }
  }

  /** Every size from 256 up has exactly one tree bin, and bins are ordered by size. */
  lemma TreeBinsOrdered(i: nat, j: nat, s: int, t: int)
    requires InTreeBin(i, s) && InTreeBin(j, t)
    ensures i < j ==> s < t
    ensures s == t ==> i == j
  {
    if i < j { MinSizeMono(i + 1, j); }
    if j < i { MinSizeMono(j + 1, i); }
  }

  /** One line of compute_tree_index, `K = ((Y <<= k) - bound) >> 16 & w`: w exactly when Y is below the bound. */
  lemma BelowBound(y: nat, bound: nat, w: nat, b: nat)
    requires y < 0x1_0000 && 0 < bound < 0x1_0000 && b < 16 && w == Pow2(b)
    ensures And(Shr(Sub32(y, bound), 16), w) == if y < bound then w else 0
  {
    Pow2Small();
    var d := Sub32(y, bound);
    ShrIsDiv(d, 16);
    if y < bound {
      assert d == WORD_RANGE + y - bound;
      assert d / 0x1_0000 == 0xFFFF;
      AndOnes(16, b);
    } else {
      assert d / 0x1_0000 == 0;
    }
  }

  lemma Pow2Step(n: nat)
    ensures Pow2(n) > 0 && Pow2(0) == 1 && (n > 0 ==> Pow2(n) == 2 * Pow2(n - 1))
  {
  }

  lemma Shifts(x: int, y: int, z: int, m: nat, n: nat)
    requires y == x * Pow2(m) && z == y * Pow2(n)
    ensures z == x * Pow2(m + n)
  {
    hide Pow2;
    Pow2Add(m, n);
    MulAssoc(x, Pow2(m), Pow2(n));
  }

  lemma MulAssoc(x: int, a: int, b: int)
    ensures x * a * b == x * (a * b)
  {
  }

  lemma Regroup(x: nat, p: int, q: int)
    requires p >= 1 && q == 2 * p && x * q < WORD_RANGE
    ensures x * q == (2 * x) * p && 2 * x < WORD_RANGE
  {
    MulMono(1, p, 2 * x);
  }

  lemma ShlNone(x: nat)
    requires x * 1 < WORD_RANGE
    ensures Shl32(x, 0) == x * 1
  {
  }

  lemma ShlOnce(x: nat, n: nat)
    requires 2 * x < WORD_RANGE && n > 0
    ensures Shl32(x, n) == Shl32(2 * x, n - 1)
  {
  }

  lemma {:induction false} ShlIsMul(x: nat, n: nat)
    requires x * Pow2(n) < WORD_RANGE
    ensures x < WORD_RANGE && Shl32(x, n) == x * Pow2(n)
    decreases n
  {
    hide Pow2, Shl32;
    Pow2Step(n);
    if n == 0 {
      ShlNone(x);
    } else {
      Pow2Step(n - 1);
      Regroup(x, Pow2(n - 1), Pow2(n));
      ShlIsMul(2 * x, n - 1);
      ShlOnce(x, n);
    }
  }

  /** One line of compute_tree_index: `K = (Y - bound) >> 16 & w; Y <<= K`. */
  method TreeIndexLine(y: nat, bound: nat, w: nat, ghost b: nat, ghost f: nat) returns (k: nat, y': nat)
    requires 0 < y < 0x1_0000 && 0 < bound < 0x1_0000 && b < 16 && w == Pow2(b) && f == Pow2(w)
    requires bound * f <= 0x1_0000
    ensures k == if y < bound then w else 0
    ensures y' == y * Pow2(k)
    ensures y < bound ==> y' == y * f
    ensures y' < 0x1_0000
  {
    BelowBound(y, bound, w, b);
    k := And(Shr(Sub32(y, bound), 16), w);
    if y < bound {
      MulMono(y, bound - 1, f);
      assert y * f < bound * f by { assert (bound - 1) * f == bound * f - f; }
      ShlIsMul(y, k);
    }
    y' := Shl32(y, k);
  }

  /** If x shifted left by n has its top bit at place p, then x has its own top bit at place p - n. */
  lemma TopBit(x: nat, n: nat, p: nat)
    requires n <= p && Pow2(p) <= x * Pow2(n) < Pow2(p + 1)
    ensures Pow2(p - n) <= x < Pow2(p - n + 1)
  {
    hide Pow2;
    Pow2Add(p - n, n);
    Pow2Add(p - n + 1, n);
    Between(x, Pow2(p - n), Pow2(p - n + 1), Pow2(n));
  }

  /** A common positive factor can be taken out. */
  lemma Between(x: int, lo: int, hi: int, d: int)
    requires d > 0 && lo * d <= x * d < hi * d
    ensures lo <= x < hi
  {
    if x < lo { MulMono(x + 1, lo, d); }
    if x >= hi { MulMono(hi, x, d); }
  }

  lemma AndOne(v: nat)
    ensures And(v, 1) == v % 2
  {
  }

  lemma PairOfBins(k: nat)
    ensures MinSize(2 * k) == 2 * Pow2(k + 7)
    ensures MinSize(2 * k + 1) == 3 * Pow2(k + 7)
    ensures MinSize(2 * k + 2) == 4 * Pow2(k + 7)
  {
    MinSizeStep(2 * k + 1);
  }

  lemma Quotient23(s: nat, p: nat)
    requires p > 0 && 2 * p <= s < 4 * p
    ensures s / p == if s < 3 * p then 2 else 3
  {
    if s < 3 * p { DivUnique(s, p, 2, s - 2 * p); } else { DivUnique(s, p, 3, s - 3 * p); }
  }

  lemma Times128(k: nat)
    ensures Pow2(k + 7) == 128 * Pow2(k) > 0
  {
    hide Pow2;
    Pow2Add(7, k);
    Pow2Small();
  }

  /** The size's top bit picks the pair of bins, the bit below it picks the half. */
  lemma TopTwoBits(s: nat, k: nat)
    requires k <= 15
    requires Pow2(k) <= s / 256 < 2 * Pow2(k)
    ensures InTreeBin(2 * k + Shr(s, k + 7) % 2, s)
  {
    hide Pow2, MinSize, Shr;
    var p := Pow2(k + 7);
    ShrIsDiv(s, k + 7);
    Times128(k);
    Quotient23(s, p);
    PairOfBins(k);
  }

  lemma LastBin(s: nat)
    requires s / 256 >= 0x1_0000
    ensures InTreeBin(31, s)
  {
    Pow2Small();
    assert Pow2(22) == 0x40_0000;
  }

  /** compute_tree_index, the generic branch-free form. */
  method ComputeTreeIndex(s: nat) returns (i: nat)
    requires s < SIZE_RANGE
    ensures s >= MIN_LARGE_SIZE ==> InTreeBin(i, s)
    ensures s < MIN_LARGE_SIZE ==> i == 0
  {
    ShrIsDiv(s, 8);
    Pow2Small();
    var x := Shr(s, 8);
    if x == 0 {
      i := 0;
    } else if x > 0xFFFF {
      LastBin(s);
      i := NTREEBINS - 1;
    } else {
      i := IndexOfTopBits(s, x);
    }
  }

  lemma LinePowers()
    ensures Pow2(0) == 1 && Pow2(8) == 256 && Pow2(4) == 16 && Pow2(3) == 8 && Pow2(2) == 4 && Pow2(1) == 2
  {
  }

  /** The branch-free part: Y is shifted left until its top bit is at place 14 or 15, and the
      shift counted in N gives the place of the top bit of X. */
  method IndexOfTopBits(s: nat, x: nat) returns (i: nat)
    requires x == s / 256 && 0 < x <= 0xFFFF
    ensures InTreeBin(i, s)
  {
    hide Pow2, Shr, And, InTreeBin;
    LinePowers();
    var n, y := TreeIndexLine(x, 0x100, 8, 3, 256);
    assert 0x100 <= y;
    var k, z := TreeIndexLine(y, 0x1000, 4, 2, 16);
    assert 0x1000 <= z;
    Shifts(x, y, z, n, k);
    n, y := n + k, z;
    k, z := TreeIndexLine(y, 0x4000, 2, 1, 4);
    assert 0x4000 <= z;
    Shifts(x, y, z, n, k);
    n, y := n + k, z;
    k := TopOfX(x, y, n);
    AndOne(Shr(s, k + 7));
    TopTwoBits(s, k);
    i := 2 * k + And(Shr(s, k + 7), 1);
  }

  lemma Pow2High()
    ensures Pow2(14) == 0x4000 && Pow2(15) == 0x8000 && Pow2(16) == 0x1_0000
  {
    Pow2Small();
  }

  method TopOfX(x: nat, y: nat, n: nat) returns (k: nat)
    requires n <= 14 && y == x * Pow2(n) && 0x4000 <= y < 0x1_0000
    ensures k <= 15 && Pow2(k) <= x < 2 * Pow2(k)
  {
    hide Pow2, Shr;
    Pow2High();
    ShrIsDiv(y, 15);
    k := 14 - n + Shr(y, 15);
    Pow2Step(k + 1);
    TopBit(x, n, if y < 0x8000 then 14 else 15);
  }
}
