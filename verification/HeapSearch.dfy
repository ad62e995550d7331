/** tmalloc_large, tmalloc_small and the small-bin searches of dlmalloc: whatever they find is the
    smallest binned chunk that fits (src/mm/malloc.c:4442-4548, 4583-4633). */
module HeapSearch {
  import opened Bits
  import opened BinIndex
  import opened Memory
  import opened Tries
  import opened TrieLinks
  import opened TrieQueues
  import opened Tiling
  import opened Macros
  import opened Index
  import opened TreeKeys
  import opened HeapState
  import opened HeapTrees
  import opened HeapFit
  import HeapRelink

  /** No large binned chunk that fits nb is smaller than s. */
  ghost predicate LeastLarge(f: Sizes, nb: int, s: int) {
    forall a {:trigger a in f} :: a in f && f[a] >= nb && f[a] >= MIN_LARGE_SIZE ==> s <= f[a]
  }

  /** No binned chunk that fits nb is smaller than s. */
  ghost predicate Least(f: Sizes, nb: int, s: int) {
    forall a {:trigger a in f} :: a in f && f[a] >= nb ==> s <= f[a]
  }

  lemma LeastFrom(f: Sizes, nb: int, rsize: int)
    requires Ahead(f, nb, rsize, Nil, 0)
    ensures LeastLarge(f, nb, nb + rsize)
  {
    forall a {:trigger a in f} | a in f && f[a] >= nb && f[a] >= MIN_LARGE_SIZE ensures nb + rsize <= f[a] {
      assert AheadAt(f[a], nb, rsize, Nil, 0);
    }
  }

  lemma LaterBits(treemap: nat, idx: nat)
    requires treemap < WORD_RANGE && idx < 32
    ensures Idx2Bit(idx) < WORD_RANGE && LeftBits(Idx2Bit(idx)) < WORD_RANGE
    ensures var b := And(LeftBits(Idx2Bit(idx)), treemap); b < WORD_RANGE && forall j: nat :: j < 32 ==>
        (Bit(b, j) <==> j > idx && Bit(treemap, j))
  {
    LeftBitsOfBit(idx, 0);
    var b := And(LeftBits(Idx2Bit(idx)), treemap);
    forall j: nat | j < 32 ensures Bit(b, j) <==> j > idx && Bit(treemap, j) {
      LeftBitsOfBit(idx, j);
      BitAnd(LeftBits(Idx2Bit(idx)), treemap, j);
    }
  }

  lemma NoneLater(mem: Mem, treemap: nat, trees: seq<Tree>, f: Sizes, nb: int, rsize: int, idx: nat)
    requires TreeBins(mem, treemap, trees, f) && OnlyLater(f, nb, idx) && forall j: nat :: j < 32 && j > idx ==>
        !Bit(treemap, j)
    ensures Ahead(f, nb, rsize, Nil, 0)
  {
    forall a | a in f && f[a] >= MIN_LARGE_SIZE ensures f[a] < nb {
      if f[a] >= nb { var j := LaterMarked(mem, treemap, trees, f, idx, a); }
    }
  }

  lemma LaterMarked(mem: Mem, treemap: nat, trees: seq<Tree>, f: Sizes, idx: nat, a: int) returns (j: nat)
    requires TreeBins(mem, treemap, trees, f) && a in f && idx + 1 < NTREEBINS && f[a] >= MinSize(idx + 1)
    ensures idx < j < 32 && Bit(treemap, j)
  {
    hide TreeBins, MinSize, Bit, InTreeBin;
    j := HeapRelink.BinFrom(f[a], idx + 1);
    BinsInOrder(idx + 1, idx + 1, j, f[a]);
    InBinMarked(mem, treemap, trees, f, j, a);
  }

  /** t = root of the next non-empty tree bin after idx, or null. */
  method NextBin(m: Heap, nb: int, rsize: int, idx: nat) returns (t: int, ghost sub: Start, ghost i: nat)
    requires IndexOk(m.mem, m.smallmap, m.treemap, m.bins, m.binned) && Spaced(m.binned)
        && OnlyLater(m.binned, nb, idx) && InTreeBin(idx, nb)
    ensures t == Root(sub.tree) && (t == 0 <==> sub.tree.Nil?) && Fits(sub.tree, nb)
        && (sub.tree.Node? ==> sub.par != 0)
    ensures Walking(m.mem, sub.tree, m.binned, i, sub.par, sub.lo, sub.hi)
        && Ahead(m.binned, nb, rsize, sub.tree, sub.hi)
  {
    hide TreeBins, SmallBins, Spaced, Walking, Ahead, Fits, Bit, OnlyLater, InTreeBin, LeftBits, Idx2Bit, And;
    ghost var trees := m.bins.trees;
    TreeMapRange(m.mem, m.smallmap, m.treemap, m.bins, m.binned, idx, nb);
    LaterBits(m.treemap, idx);
    var leftbits := And(LeftBits(Idx2Bit(idx)), m.treemap);
    if leftbits != 0 {
      var least := LowestMarked(leftbits);
      i := least;
      t := Rd(m.mem, TreeBinAt(least));
      FirstIsMarked(m.mem, m.treemap, trees, m.binned, nb, rsize, least, idx);
      sub := Start(trees[i], TreeBinAt(i), Lo(i), Lo(i) + Pow2(Exp(i)));
    } else {
      ZeroBits(leftbits);
      NoneLater(m.mem, m.treemap, trees, m.binned, nb, rsize, idx);
      EmptyWalk(m.mem, m.binned, 0);
      NilFits(nb);
      t, i, sub := 0, 0, Start(Nil, 0, 0, 0);
    }
  }

  lemma NilFits(nb: int)
    ensures Fits(Nil, nb)
  {
  }

  lemma ZeroBits(b: nat)
    requires b == 0
    ensures forall j: nat :: !Bit(b, j)
  {
    forall j: nat ensures !Bit(b, j) { BitOfZero(j); }
  }

  lemma TreeMapRange(mem: Mem, smallmap: nat, treemap: nat, bins: Bins, f: Sizes, idx: nat, nb: int)
    requires IndexOk(mem, smallmap, treemap, bins, f) && InTreeBin(idx, nb)
    ensures treemap < WORD_RANGE && TreeBins(mem, treemap, bins.trees, f) && |bins.trees| == NTREEBINS && idx < 32
  {
  }

  lemma FirstIsMarked(mem: Mem, treemap: nat, trees: seq<Tree>, f: Sizes, nb: int, rsize: int, i: nat, idx: nat)
    requires TreeBins(mem, treemap, trees, f) && Spaced(f) && idx < i < NTREEBINS && Bit(treemap, i)
        && InTreeBin(idx, nb)
    requires forall j: nat :: idx < j < i ==> !Bit(treemap, j)
    requires OnlyLater(f, nb, idx)
    ensures |trees| == NTREEBINS
    ensures Ahead(f, nb, rsize, trees[i], Lo(i) + Pow2(Exp(i))) && Fits(trees[i], nb)
    ensures Rd(mem, TreeBinAt(i)) == Root(trees[i]) && (Root(trees[i]) == 0 <==> trees[i].Nil?)
    ensures Walking(mem, trees[i], f, i, TreeBinAt(i), Lo(i), Lo(i) + Pow2(Exp(i)))
  {
    hide Spaced, Shape, Halved, Links, Bit, Pow2, Walking, Ahead, Fits;
    LaterThan(idx, nb);
    FirstMarked(mem, treemap, trees, f, nb, rsize, i, idx + 1);
    RootOfBin(mem, treemap, trees, f, i);
  }

  lemma LaterThan(idx: nat, nb: int)
    requires InTreeBin(idx, nb) && idx + 1 < NTREEBINS
    ensures nb <= MinSize(idx + 1)
  {
  }

  lemma BinOfRequest(mem: Mem, smallmap: nat, treemap: nat, bins: Bins, f: Sizes, nb: int, idx: nat)
    requires IndexOk(mem, smallmap, treemap, bins, f) && Spaced(f) && InTreeBin(idx, nb) && nb % 16 == 0
        && nb < SIZE_RANGE
    ensures |bins.trees| == NTREEBINS
    ensures Rd(mem, TreeBinAt(idx)) == Root(bins.trees[idx]) && (Root(bins.trees[idx]) == 0 <==> bins.trees[idx].Nil?)
    ensures bins.trees[idx].Nil? ==> OnlyLater(f, nb, idx)
    ensures bins.trees[idx].Node? ==>
        Descending(mem, bins.trees[idx], f, nb, Shl64(nb, LeftShift(idx)), Lo(idx), Exp(idx), idx, TreeBinAt(idx))
    ensures OnPath(f, nb, SIZE_RANGE - nb, bins.trees[idx], Nil, 0, Lo(idx) + Pow2(Exp(idx)))
  {
    hide Spaced, Shape, Halved, Links, Bit, Pow2, MinSize, OnPath, Descending, InTreeBin, Walking, OnlyLater;
    TreeMapRange(mem, smallmap, treemap, bins, f, idx, nb);
    RootOfBin(mem, treemap, bins.trees, f, idx);
    PathStart(f, nb, idx, bins.trees[idx]);
    if bins.trees[idx].Nil? {
      EmptyBin(f, nb, idx);
    } else {
      StartDescent(mem, bins.trees[idx], idx, f, nb);
    }
  }

  /** The search of tmalloc_large: v, when not null, is the smallest large binned chunk that fits, and
      exceeds nb by rsize; when null, no large binned chunk fits. */
  method FindLarge(m: Heap, nb: int) returns (v: int, rsize: int)
    requires IndexOk(m.mem, m.smallmap, m.treemap, m.bins, m.binned) && Spaced(m.binned) && HeadSizes(m.mem, m.binned)
    requires MIN_LARGE_SIZE <= nb < SIZE_RANGE && nb % 16 == 0
    ensures Best(m.binned, nb, v, rsize) && LeastLarge(m.binned, nb, nb + rsize) && IsNode(m.mem, v)
  {
    hide IndexOk, Spaced, HeadSizes, Descending, OnPath, OnlyLater, Walking, Ahead, Best, Fits, InTreeBin;
    v := 0;
    SubWraps(0, nb);
    rsize := Sub64(0, nb);
    NoneYet(m.binned, nb);
    var idx := ComputeTreeIndex(nb);
    BinOfRequest(m.mem, m.smallmap, m.treemap, m.bins, m.binned, nb, idx);
    var t := Rd(m.mem, TreeBinAt(idx));
    ghost var sub, i := Start(Nil, 0, 0, 0), idx;
    if t != 0 {
      var sizebits := Shl64(nb, LeftShift(idx));
      v, rsize, t,
          sub := DescendBin(m.mem, nb, t, sizebits, m.bins.trees[idx], m.binned, Lo(idx), Exp(idx), idx,
          TreeBinAt(idx));
      if v == 0 && t == 0 { LaterFrom(m.binned, nb, idx); }
    } else {
      EmptyWalk(m.mem, m.binned, i);
      NilFits(nb);
    }
    if t == 0 && v == 0 {
      t, sub, i := NextBin(m, nb, rsize, idx);
    }
    v, rsize := SmallestBelow(m.mem, nb, t, v, rsize, sub.tree, m.binned, i, sub.par, sub.lo, sub.hi);
    LeastFrom(m.binned, nb, rsize);
  }

  /** v is the oldest chunk of size s in its tree bin. */
  ghost predicate Front(bins: Bins, s: int, v: int) {
    forall i: nat {:trigger InTreeBin(i, s)} :: i < |bins.trees| && InTreeBin(i, s) ==>
        IsFront(Queue(bins.trees[i], s), v)
  }

  ghost predicate IsFront(q: seq<int>, v: int) { |q| > 0 && q[0] == v }

  lemma {:induction false} NodeFirst(mem: Mem, t: Tree, f: Sizes, i: nat, par: int, lo: int, hi: int, v: int)
    requires Links(mem, par, t, i) && Shape(t, lo, hi) && Holds(t, f) && v in Nodes(t) && Rd(mem, v + PARENT) != 0
    ensures v in f && IsFront(Queue(t, f[v]), v)
    decreases t
  {
    HoldsAt(t, f, v);
    if v in t.ring {
      var k :| 0 <= k < |t.ring| && t.ring[k] == v;
      assert k == 0 || Chained(mem, t.ring[k]);
      OrderAt(t.ring, 0);
    } else if v in Nodes(t.left) {
      HoldsAt(t.left, f, v);
      SizeInRange(t.left, lo, t.mid, f[v]);
      NodeFirst(mem, t.left, f, i, t.ring[0], lo, t.mid, v);
    } else {
      HoldsAt(t.right, f, v);
      SizeInRange(t.right, t.mid, hi, f[v]);
      NodeFirst(mem, t.right, f, i, t.ring[0], t.mid, hi, v);
    }
  }

  /** What a search returns is the oldest chunk of its size. */
  lemma NodeIsFront(mem: Mem, smallmap: nat, treemap: nat, bins: Bins, f: Sizes, v: int)
    requires IndexOk(mem, smallmap, treemap, bins, f) && v in f && v != 0 && IsNode(mem, v)
    ensures Front(bins, f[v], v)
  {
    hide Shape, Halved, Holds, Links, Queue, SmallBins, IsFront;
    forall i: nat {:trigger InTreeBin(i, f[v])} | i < |bins.trees|
        && InTreeBin(i, f[v]) ensures IsFront(Queue(bins.trees[i], f[v]), v) {
      TreeBinOf(mem, treemap, bins.trees, f, i);
      NodeFirst(mem, bins.trees[i], f, i, TreeBinAt(i), Lo(i), Lo(i) + Pow2(Exp(i)), v);
    }
  }

  lemma NoneYet(f: Sizes, nb: int)
    requires 0 < nb < SIZE_RANGE
    ensures Best(f, nb, 0, SIZE_RANGE - nb)
  {
  }

  // ----- small requests -----

  lemma RootConsidered(mem: Mem, t: Tree, f: Sizes, i: nat, par: int, nb: int, lo: int, hi: int)
    requires Walking(mem, t, f, i, par, lo, hi) && t.Node? && HeadSizes(mem, f) && Spaced(f) && Fits(t, nb)
        && 0 < nb < SIZE_RANGE
    requires Ahead(f, nb, SIZE_RANGE - nb, t, hi)
    ensures Root(t) != 0 && SizeOf(Rd(mem, Root(t) + HEAD)) == t.size && nb <= t.size
    ensures Best(f, nb, Root(t), t.size - nb) && Ahead(f, nb, t.size - nb, Leftmost(t), LeftmostHi(t, hi))
    ensures Walking(mem, Leftmost(t), f, i, Root(t), LeftmostLo(t, lo), LeftmostHi(t, hi)) && Fits(Leftmost(t), nb)
    ensures Root(Leftmost(t)) == (if Rd(mem, Root(t) + CHILD0) != 0 then Rd(mem, Root(t) + CHILD0)
        else Rd(mem, Root(t) + CHILD1))
    ensures Root(Leftmost(t)) == 0 <==> Leftmost(t).Nil?
    ensures Rd(mem, Root(t) + PARENT) == par
  {
    hide Walking, Ahead, HeadSizes;
    WalkStep(mem, t, f, i, par, lo, hi);
    AheadStep(f, nb, SIZE_RANGE - nb, t.size - nb, t, lo, hi);
  }

  lemma SmallestBin()
    ensures MinSize(0) == 256
  {
    Pow2Small();
  }

  /** The lowest marked tree bin: everything large lies in it or after it. */
  lemma LowestBin(mem: Mem, treemap: nat, trees: seq<Tree>, f: Sizes, nb: int, rsize: int, i: nat)
    requires TreeBins(mem, treemap, trees, f) && Spaced(f) && i < NTREEBINS && Bit(treemap, i)
        && 0 < nb <= MIN_LARGE_SIZE
    requires forall j: nat :: j < i ==> !Bit(treemap, j)
    ensures |trees| == NTREEBINS && trees[i].Node?
    ensures Ahead(f, nb, rsize, trees[i], Lo(i) + Pow2(Exp(i))) && Fits(trees[i], nb)
    ensures Rd(mem, TreeBinAt(i)) == Root(trees[i])
    ensures Walking(mem, trees[i], f, i, TreeBinAt(i), Lo(i), Lo(i) + Pow2(Exp(i)))
  {
    hide Spaced, Shape, Halved, Links, Bit, Walking, Ahead, Fits, Pow2, Root;
    SmallestBin();
    FirstMarked(mem, treemap, trees, f, nb, rsize, i, 0);
    RootOfBin(mem, treemap, trees, f, i);
  }

  /** The search of tmalloc_small: v is the smallest large binned chunk. */
  method FindSmallest(m: Heap, nb: int) returns (v: int, rsize: int)
    requires IndexOk(m.mem, m.smallmap, m.treemap, m.bins, m.binned) && Spaced(m.binned) && HeadSizes(m.mem, m.binned)
    requires 0 < nb <= MIN_LARGE_SIZE && m.treemap != 0
    ensures v != 0 && Best(m.binned, nb, v, rsize) && LeastLarge(m.binned, nb, nb + rsize) && IsNode(m.mem, v)
  {
    hide SmallBins, TreeBins, Spaced, HeadSizes, Walking, Ahead, Best, Fits, Bit, LeftmostHi, LeftmostLo;
    assert m.treemap < WORD_RANGE
        && TreeBins(m.mem, m.treemap, m.bins.trees,
        m.binned) by { MapRanges(m.mem, m.smallmap, m.treemap, m.bins, m.binned); }
    var i := LowestMarked(m.treemap);
    LowestBin(m.mem, m.treemap, m.bins.trees, m.binned, nb, SIZE_RANGE - nb, i);
    var t := Rd(m.mem, TreeBinAt(i));
    ghost var tr, lo, hi := m.bins.trees[i], Lo(i), Lo(i) + Pow2(Exp(i));
    RootConsidered(m.mem, tr, m.binned, i, TreeBinAt(i), nb, lo, hi);
    v := t;
    rsize := ChunkSize(m.mem, t) - nb;
    ghost var par := t;
    t := LeftmostChild(m.mem, t);
    v, rsize := SmallestBelow(m.mem, nb, t, v, rsize, Leftmost(tr), m.binned, i, par, LeftmostLo(tr, lo),
        LeftmostHi(tr, hi));
    LeastFrom(m.binned, nb, rsize);
  }

  lemma MapRanges(mem: Mem, smallmap: nat, treemap: nat, bins: Bins, f: Sizes)
    requires IndexOk(mem, smallmap, treemap, bins, f)
    ensures smallmap < WORD_RANGE && treemap < WORD_RANGE && TreeBins(mem, treemap, bins.trees, f)
        && SmallBins(mem, smallmap, bins.small, f)
    ensures |bins.small| == NSMALLBINS
  {
  }

  /** Only even small bins are ever marked: sizes are multiples of 16. */
  lemma EvenBins(mem: Mem, smallmap: nat, small: seq<seq<int>>, f: Sizes, i: nat)
    requires SmallBins(mem, smallmap, small, f) && AlignedSizes(f) && i < NSMALLBINS && Bit(smallmap, i)
    ensures i % 2 == 0
  {
    hide Bit;
    SmallBinOf(mem, smallmap, small, f, i);
    MembersSmall(small[i], f, i, true, mem, 0);
    var a := small[i][0];
    assert f[a] == 8 * i && f[a] % 16 == 0;
  }

  /** A small chunk of size s in the index marks its bin. */
  lemma SmallMarked(mem: Mem, smallmap: nat, small: seq<seq<int>>, f: Sizes, a: int)
    requires SmallBins(mem, smallmap, small, f) && AlignedSizes(f) && a in f && 0 <= f[a] < MIN_LARGE_SIZE
    ensures f[a] % 8 == 0 && f[a] / 8 < NSMALLBINS && Bit(smallmap, f[a] / 8)
  {
    hide Bit;
    var i := f[a] / 8;
    SmallBinOf(mem, smallmap, small, f, i);
    assert SmallIndex2Size(i) == f[a];
    assert a in Members(small[i]);
  }

  lemma ShiftedBits(w: nat, idx: nat)
    requires w < WORD_RANGE && idx < 31
    ensures And(Shr(w, idx), 3) != 0 <==> Bit(w, idx) || Bit(w, idx + 1)
    ensures Shr(w, idx) < WORD_RANGE && And(Not32(Shr(w, idx)), 1) == if Bit(w, idx) then 0 else 1
  {
    hide Shr, Bit, And;
    var b := Shr(w, idx);
    BitShr(w, idx, 0);
    BitShr(w, idx, 1);
    ShrSmaller(w, idx);
    AndThree(b);
    LowNot(b);
  }

  lemma {:induction false} ShrSmaller(w: nat, n: nat)
    ensures Shr(w, n) <= w
  {
    if n > 0 { ShrSmaller(w / 2, n - 1); }
  }

  lemma LowNot(b: nat)
    requires b < WORD_RANGE
    ensures And(Not32(b), 1) == if Bit(b, 0) then 0 else 1
  {
    AndOne(Not32(b));
  }

  lemma AndThree(b: nat)
    ensures And(b, 3) != 0 <==> Bit(b, 0) || Bit(b, 1)
  {
    assert And(b / 2, 1) == b / 2 % 2 by { AndOne(b / 2); }
  }

  lemma DoubledBits(x: nat, j: nat)
    requires x < WORD_RANGE && j < 32
    ensures Bit((2 * x) % WORD_RANGE, j) <==> j > 0 && Bit(x, j - 1)
  {
    var y := (2 * x) % WORD_RANGE;
    if j == 0 {
      assert y % 2 == 0;
    } else {
      assert y / 2 == x % 0x8000_0000;
      LowBits(x, 31, j - 1);
      Pow2Of32();
      assert Pow2(32) == 2 * Pow2(31);
    }
  }

  /** The low bits of x are those of its remainder. */
  lemma {:induction false} LowBits(x: nat, n: nat, j: nat)
    requires j < n
    ensures Bit(x % Pow2(n), j) <==> Bit(x, j)
  {
    var p := Pow2(n - 1);
    assert Pow2(n) == 2 * p;
    HalfMod(x, p);
    if j > 0 { LowBits(x / 2, n - 1, j - 1); }
  }

  lemma HalfMod(x: nat, p: nat)
    requires p > 0
    ensures (x % (2 * p)) % 2 == x % 2 && (x % (2 * p)) / 2 == (x / 2) % p
  {
    var q, r := x / 2 / p, x / 2 % p;
    assert x == 2 * (q * p + r) + x % 2;
    assert 2 * (q * p) == q * (2 * p);
    DivUnique(x, 2 * p, q, 2 * r + x % 2);
  }

  lemma {:induction false} ShlBits(x: nat, n: nat, j: nat)
    requires x < WORD_RANGE && j < 32
    ensures Bit(Shl32(x, n), j) <==> j >= n && Bit(x, j - n)
    decreases n
  {
    if n > 0 {
      ShlBits((2 * x) % WORD_RANGE, n - 1, j);
      if j >= n { DoubledBits(x, j - (n - 1)); } else if j == n - 1 { DoubledBits(x, 0); }
    }
  }

  /** leftbits = (smallbits << idx) & left_bits(idx2bit(idx)): the marked bins above idx. */
  lemma AboveBits(w: nat, idx: nat)
    requires w < WORD_RANGE && idx < 31
    ensures Shr(w, idx) < WORD_RANGE && Idx2Bit(idx) < WORD_RANGE && LeftBits(Idx2Bit(idx)) < WORD_RANGE
    ensures var b := And(Shl32(Shr(w, idx), idx), LeftBits(Idx2Bit(idx)));
            b < WORD_RANGE && forall j: nat :: j < 32 ==> (Bit(b, j) <==> j > idx && Bit(w, j))
  {
    hide Shr, Shl32, And, LeftBits, Idx2Bit, Bit;
    ShrIsDiv(w, idx);
    LeftBitsOfBit(idx, 0);
    var b := And(Shl32(Shr(w, idx), idx), LeftBits(Idx2Bit(idx)));
    forall j: nat | j < 32 ensures Bit(b, j) <==> j > idx && Bit(w, j) {
      LeftBitsOfBit(idx, j);
      BitAnd(Shl32(Shr(w, idx), idx), LeftBits(Idx2Bit(idx)), j);
      ShlBits(Shr(w, idx), idx, j);
      if j >= idx { BitShr(w, idx, j - idx); }
    }
  }

  lemma SomeBitAbove(w: nat, idx: nat)
    requires w < WORD_RANGE && idx < 31
    ensures Shr(w, idx) == 0 ==> forall j: nat :: j >= idx ==> !Bit(w, j)
    ensures Shr(w, idx) != 0 ==> exists j: nat :: idx <= j < 32 && Bit(w, j)
  {
    ShrIsDiv(w, idx);
    if Shr(w, idx) == 0 {
      forall j: nat | j >= idx ensures !Bit(w, j) { BitShr(w, idx, j - idx); BitOfZero(j - idx); }
    } else {
      Pow2Of32();
      Pow2Add(32 - idx, idx);
      ShrBound(w, idx);
      var j := NoBitIsZero(Shr(w, idx), 32 - idx);
      BitShr(w, idx, j);
      assert Bit(w, idx + j);
    }
  }

  lemma ShrBound(w: nat, idx: nat)
    requires w < WORD_RANGE && idx <= 32
    ensures Shr(w, idx) < Pow2(32 - idx)
  {
    hide Pow2;
    ShrIsDiv(w, idx);
    Pow2Of32();
    Pow2Add(32 - idx, idx);
    DivBound(w, Pow2(idx), Pow2(32 - idx));
  }

  lemma DivBound(w: int, p: int, q: int)
    requires p > 0 && 0 <= w < q * p
    ensures w / p < q
  {
    assert w == (w / p) * p + w % p;
    if w / p >= q { MulMono(q, w / p, p); }
  }
}
