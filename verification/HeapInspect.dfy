/** bin_find (src/mm/malloc.c:3395-3429): through small bins and tries alike it finds exactly the chunks of
    the map the index represents. */
module HeapInspect {
  import opened Bits
  import opened BinIndex
  import opened Memory
  import opened Rings
  import opened Tries
  import opened TrieLinks
  import opened Tiling
  import opened Macros
  import opened Index
  import opened TreeKeys
  import opened HeapLemmas
  import opened HeapState
  import opened HeapBins
  import opened HeapTrees
  import opened HeapRelays

  // ----- bin_find -----

  /** do { if (p == x) return 1; } while ((p = p->fd) != first). */
  method RingFind(mem: Mem, x: int, first: int, ghost r: seq<int>) returns (found: bool)
    requires Ring(mem, r) && first == r[0]
    ensures found <==> x in r
  {
    var p := first;
    ghost var j := 0;
    while true
      invariant j < |r| && p == r[j] && forall k :: 0 <= k < j ==> r[k] != x
      decreases |r| - j
    {
      if p == x { return true; }
      Neighbours(mem, r, j);
      SpreadPair(r, 0, Succ(j, |r|));
      p := Rd(mem, p + FD);
      if p == first { return false; }
      j := j + 1;
    }
  }

  /** A chunk of size s is below cur exactly when it is on the side of s. */
  lemma OnItsSide(cur: Tree, f: Sizes, lo: int, hi: int, s: int, x: int)
    requires cur.Node? && Shape(cur, lo, hi) && Holds(cur, f) && cur.size != s && (x in f ==> f[x] == s)
    ensures x in Nodes(cur) <==> x in Nodes(Side(cur, s))
  {
    if x in Nodes(cur.left) { HoldsAt(cur.left, f, x); SizeInRange(cur.left, lo, cur.mid, s); }
    if x in Nodes(cur.right) { HoldsAt(cur.right, f, x); SizeInRange(cur.right, cur.mid, hi, s); }
  }

  /** At the node of size s, only the ring can hold a chunk of that size. */
  lemma OnItsRing(cur: Tree, f: Sizes, lo: int, hi: int, x: int)
    requires cur.Node? && Shape(cur, lo, hi) && Holds(cur, f) && (x in f ==> f[x] == cur.size)
    ensures x in Nodes(cur) <==> x in cur.ring
  {
    if x in Nodes(cur.left) { HoldsAt(cur.left, f, x); }
    if x in Nodes(cur.right) { HoldsAt(cur.right, f, x); }
  }

  lemma DescendingParts(mem: Mem, cur: Tree, f: Sizes, s: int, k: int, lo: int, e: nat, i: nat, par: int)
    requires Descending(mem, cur, f, s, k, lo, e, i, par)
    ensures cur.Node? && Shape(cur, lo, lo + Pow2(e)) && Holds(cur, f) && Ring(mem, cur.ring)
        && Root(cur) == cur.ring[0]
  {
  }

  /** while (t != 0 && chunksize(t) != size) { t = t->child[...]; sizebits <<= 1; } */
  method FindNode(mem: Mem, root: int, s: int, k0: int, ghost x: int, ghost tr: Tree, ghost f: Sizes,
                  ghost lo0: int, ghost e0: nat, ghost i: nat, ghost par0: int)
    returns (t: int, ghost cur: Tree)
    requires Descending(mem, tr, f, s, k0, lo0, e0, i, par0) && root == Root(tr) && HeadSizes(mem, f) && Spaced(f)
    requires x in f ==> f[x] == s
    ensures t == 0 ==> x !in Nodes(tr)
    ensures t != 0 ==> cur.Node? && Ring(mem, cur.ring) && t == cur.ring[0] && (x in Nodes(tr) <==> x in cur.ring)
  {
    hide Descending, Shape, Halved, Links, Holds, Nodes, SpotOf, HeadSizes, Spaced, Ring;
    t, cur := root, tr;
    var k := k0;
    ghost var lo, e, par := lo0, e0, par0;
    RootFound(mem, cur, f, s, k, lo, e, i, par);
    while t != 0 && SizeOf(Rd(mem, t + HEAD)) != s
      invariant t != 0 ==>
          Descending(mem, cur, f, s, k, lo, e, i, par) && t == Root(cur) && SizeOf(Rd(mem, t + HEAD)) == cur.size
      invariant t == 0 ==> x !in Nodes(tr)
      invariant t != 0 ==> (x in Nodes(tr) <==> x in Nodes(cur))
      decreases t != 0, cur
    {
      DescendingParts(mem, cur, f, s, k, lo, e, i, par);
      OnItsSide(cur, f, lo, lo + Pow2(e), s, x);
      ghost var sub := Side(cur, s);
      var c, k', next := DescendOnce(mem, t, s, k, cur, f, lo, e, i, par);
      if next == 0 { NoNodes(sub); }
      lo, par, k := SideLo(cur, s, lo), t, k';
      if next != 0 { e := e - 1; }
      cur := sub;
      t := next;
    }
    if t != 0 {
      DescendingParts(mem, cur, f, s, k, lo, e, i, par);
      OnItsRing(cur, f, lo, lo + Pow2(e), x);
    }
  }

  lemma NoNodes(t: Tree)
    requires t.Nil?
    ensures Nodes(t) == {}
  {
  }

  lemma RootFound(mem: Mem, cur: Tree, f: Sizes, s: int, k: int, lo: int, e: nat, i: nat, par: int)
    requires Descending(mem, cur, f, s, k, lo, e, i, par) && HeadSizes(mem, f) && Spaced(f)
    ensures Root(cur) != 0 && SizeOf(Rd(mem, Root(cur) + HEAD)) == cur.size
  {
    RootSize(mem, cur, f, i, par);
  }

  lemma InSmallBin(mem: Mem, marked: bool, i: nat, list: seq<int>, f: Sizes, s: int, x: int)
    requires SmallBin(mem, marked, i, list, f) && s == SmallIndex2Size(i) && x >= HEAP_FLOOR
        && (x in f ==> f[x] == s) && i < NSMALLBINS
    ensures !marked ==> x !in f
    ensures marked ==>
        Ring(mem, SmallRing(i, list)) && SmallRing(i, list)[0] == SmallBinAt(i) && (x in SmallRing(i, list) <==> x in f)
  {
    assert x in f <==> x in Members(list);
  }

  method BinFindSmall(m: Heap, x: int, s: int) returns (found: bool)
    requires BinsOk(m.mem, m.smallmap, m.treemap, m.bins, m.binned, m.leastAddr)
    requires s > 0 && s % 16 == 0 && IsSmall(s) && x >= HEAP_FLOOR && (x in m.binned ==> m.binned[x] == s)
    ensures found <==> x in m.binned
  {
    hide SmallBin, Spaced, TreeBins, Ring;
    var i := SmallIndex(s);
    found := false;
    SmallBinOf(m.mem, m.smallmap, m.bins.small, m.binned, i);
    InSmallBin(m.mem, Bit(m.smallmap, i), i, m.bins.small[i], m.binned, s, x);
    IsMarkedBit(m.smallmap, i);
    if IsMarked(m.smallmap, i) {
      found := RingFind(m.mem, x, SmallBinAt(i), SmallRing(i, m.bins.small[i]));
    }
  }

  lemma InTreeOf(mem: Mem, treemap: nat, trees: seq<Tree>, f: Sizes, i: nat, s: int, x: int)
    requires TreeBins(mem, treemap, trees, f) && Spaced(f) && InTreeBin(i, s) && s % 16 == 0 && s < SIZE_RANGE
        && (x in f ==> f[x] == s)
    ensures |trees| == NTREEBINS && (Bit(treemap, i) <==> trees[i].Node?) && Rd(mem, TreeBinAt(i)) == Root(trees[i])
    ensures x in f <==> x in Nodes(trees[i])
    ensures trees[i].Node? ==> Descending(mem, trees[i], f, s, Shl64(s, LeftShift(i)), Lo(i), Exp(i), i, TreeBinAt(i))
  {
    TreeBinOf(mem, treemap, trees, f, i);
    if trees[i].Node? { StartDescent(mem, trees[i], i, f, s); }
  }

  method BinFindTree(m: Heap, x: int, s: int) returns (found: bool)
    requires BinsOk(m.mem, m.smallmap, m.treemap, m.bins, m.binned, m.leastAddr) && HeadSizes(m.mem, m.binned)
    requires MIN_LARGE_SIZE <= s < SIZE_RANGE && s % 16 == 0 && (x in m.binned ==> m.binned[x] == s)
    ensures found <==> x in m.binned
  {
    hide Descending, SmallBins, TreeBins, Spaced, HeadSizes, InTreeBin, Ring, Nodes, Shl64, LeftShift;
    var i := ComputeTreeIndex(s);
    BinInRange(i, s);
    InTreeOf(m.mem, m.treemap, m.bins.trees, m.binned, i, s, x);
    IsMarkedBit(m.treemap, i);
    found := false;
    if !IsMarked(m.treemap, i) {
      NoNodes(m.bins.trees[i]);
      return;
    }
    var t := Rd(m.mem, TreeBinAt(i));
    ghost var cur;
    t, cur := FindNode(m.mem, t, s, Shl64(s, LeftShift(i)), x, m.bins.trees[i], m.binned, Lo(i), Exp(i), i,
        TreeBinAt(i));
    if t != 0 { found := RingFind(m.mem, x, t, cur.ring); }
  }

  lemma BinInRange(i: nat, s: int)
    requires s >= 0 && InTreeBin(i, s)
    ensures i < NTREEBINS
  {
  }

  /** bin_find, on a chunk whose size word is s: it finds exactly the binned chunks. */
  method BinFind(m: Heap, x: int) returns (found: bool)
    requires m.Inv(0, 0) && x >= HEAP_FLOOR && ChunkSize(m.mem, x) % 16 == 0 && 0 < ChunkSize(m.mem, x) < SIZE_RANGE
    ensures found <==> x in m.binned
  {
    hide Tiled, Tiling.Aligned, Heads, Feet, IndexOk, TopOk, Partition, LiveOk, Spaced, SomeOf;
    IndexReady(m);
    var s := ChunkSize(m.mem, x);
    if IsSmall(s) { found := BinFindSmall(m, x, s); } else { found := BinFindTree(m, x, s); }
  }
}
