/** The check routines that walk the whole state (src/mm/malloc.c:3309-3393, 3431-3489), which mallinfo runs
    first in this kernel: on every reachable heap all their assertions hold. `ok` is false as soon as one
    assertion fails. */
module HeapAudit {
  import opened Bits
  import opened BinIndex
  import opened Memory
  import opened Rings
  import opened Tries
  import opened TrieLinks
  import opened Tiling
  import opened Macros
  import opened Index
  import opened HeapLemmas
  import opened HeapState
  import opened HeapTrees
  import opened HeapFit
  import opened HeapSteps
  import opened HeapRelays
  import opened HeapChecks
  import opened HeapInspect
  import HeapInfo
  import HeapSys

  // ----- do_check_smallbin -----

  /** The chunk after a free one is live. */
  lemma AfterFree(m: Heap, p: int)
    requires m.Inv(0, 0) && p in m.chunks && !m.chunks[p].cin
    ensures InuseChunk(m.mem, p + m.chunks[p].size, m.leastAddr)
  {
    hide Tiling.Aligned, Heads, Feet, IndexOk, TopOk, Partition;
    var q := p + m.chunks[p].size;
    ChunkAt(m.chunks, m.segBase, m.top, p);
    assert q in m.live;
    LiveChecks(m, q);
  }

  /** What the walk of small bin i asks of its j-th chunk. */
  predicate SmallMember(m: Heap, b: int, i: nat, p: int)
    reads m
  {
    && FreeChunk(m.mem, p, m.dv, m.top, m.leastAddr) && ChunkSize(m.mem, p) / 8 == i
    && (Rd(m.mem, p + BK) == b || ChunkSize(m.mem, Rd(m.mem, p + BK)) == ChunkSize(m.mem, p))
    && (Rd(m.mem, NextChunkOf(m.mem, p) + HEAD) != HeapInfo.FENCEPOST_HEAD ==>
        InuseChunk(m.mem, NextChunkOf(m.mem, p), m.leastAddr))
  }

  lemma InBin(list: seq<int>, f: Sizes, mem: Mem, marked: bool, i: nat, k: nat)
    requires SmallBin(mem, marked, i, list, f) && k < |list|
    ensures list[k] in f && f[list[k]] == SmallIndex2Size(i)
  {
    var p := list[k];
    assert p in Members(list) && (p in f && f[p] == SmallIndex2Size(i) <==> p in Members(list));
  }

  lemma SmallMemberOk(m: Heap, i: nat, j: nat)
    requires m.Inv(0, 0) && |m.bins.small| == NSMALLBINS && i < NSMALLBINS
        && SmallBin(m.mem, true, i, m.bins.small[i], m.binned)
    requires 0 < j < |SmallRing(i, m.bins.small[i])|
    ensures SmallMember(m, SmallBinAt(i), i, SmallRing(i, m.bins.small[i])[j])
  {
    hide Tiled, Tiling.Aligned, Heads, Feet, IndexOk, TopOk, Partition, LiveOk, FreeChunk, InuseChunk;
    var list := m.bins.small[i];
    var r, p := SmallRing(i, list), list[j - 1];
    assert Rd(m.mem, r[j] + BK) == r[Pred(j, |r|)];
    InBin(list, m.binned, m.mem, true, i, j - 1);
    BinnedChecks(m, p);
    if j > 1 { InBin(list, m.binned, m.mem, true, i, j - 2); BinnedChecks(m, list[j - 2]); }
    BinnedIsFree(m.chunks, m.binned, m.dv, m.dvsize, p);
    AfterFree(m, p);
  }

  lemma BinnedIsFree(c: Chunks, f: Sizes, dv: int, dvsize: int, p: int)
    requires Partition(c, f, dv, dvsize, 0, 0) && p in f
    ensures p in c && !c[p].cin && c[p].size == f[p]
  {
  }

  /** do_check_smallbin. */
  method CheckSmallBin(m: Heap, i: nat) returns (ok: bool)
    requires m.Valid() && i < NSMALLBINS
    ensures ok
  {
    hide Tiled, Tiling.Aligned, Heads, Feet, TopOk, Partition, LiveOk, SmallMember, TreeBins;
    var b := SmallBinAt(i);
    var p := Rd(m.mem, b + BK);
    var empty := !IsMarked(m.smallmap, i);
    ok := true;
    IsMarkedBit(m.smallmap, i);
    ZeroBits(i);
    if !empty {
      SmallBinOf(m.mem, m.smallmap, m.bins.small, m.binned, i);
      ghost var r := SmallRing(i, m.bins.small[i]);
      ghost var j := |r| - 1;
      Neighbours(m.mem, r, 0);
      assert r[0] == b;
      while p != b
        invariant ok && 0 <= j < |r| && p == r[j]
        decreases j
      {
        SmallMemberOk(m, i, j);
        Neighbours(m.mem, r, j);
        ok := ok && SmallMember(m, b, i, p);
        p := Rd(m.mem, p + BK);
        j := j - 1;
      }
    }
    if Rd(m.mem, b + BK) == b { ok := ok && empty; }
  }

  lemma {:induction false} ZeroBits(i: nat)
    ensures !Bit(0, i)
  {
    if i > 0 { ZeroBits(i - 1); }
  }

  // ----- do_check_treebin and do_check_tree -----

  /** tr is a subtree of tree bin i, hanging under par. */
  ghost predicate Subtree(m: Heap, tr: Tree, i: nat, par: int, lo: int, hi: int)
    reads m
  {
    Walking(m.mem, tr, m.binned, i, par, lo, hi) && i < NTREEBINS && AllInBin(tr, m.binned, i)
  }

  ghost predicate AllInBin(tr: Tree, f: Sizes, i: nat) {
    forall a :: a in Nodes(tr) ==> a in f && InTreeBin(i, f[a])
  }

  /** What each chunk on the ring of a node satisfies. */
  predicate RingChunk(mem: Mem, u: int, tindex: int, tsize: int, least: int) {
    && AnyChunk(u, least) && Rd(mem, u + INDEX) == tindex && ChunkSize(mem, u) == tsize
    && !IsInuse(mem, u) && !Pinuse(mem, NextChunkOf(mem, u))
    && Rd(mem, Rd(mem, u + FD) + BK) == u && Rd(mem, Rd(mem, u + BK) + FD) == u
  }

  /** What the index and size of a node satisfy. */
  predicate IndexOfSize(tindex: int, tsize: int, idx: nat) {
    && tindex == idx && tsize >= MIN_LARGE_SIZE && tsize >= MinSize(idx)
    && (idx == NTREEBINS - 1 || tsize < MinSize(idx + 1))
  }

  /** The links of a node u to its parent. */
  predicate ParentLinks(mem: Mem, u: int) {
    var p := Rd(mem, u + PARENT);
    p != u && (Rd(mem, p + CHILD0) == u || Rd(mem, p + CHILD1) == u || Rd(mem, p) == u)
  }

  lemma RingChunkOk(m: Heap, tr: Tree, i: nat, par: int, lo: int, hi: int, j: nat)
    requires m.Inv(0, 0) && tr.Node? && Subtree(m, tr, i, par, lo, hi) && j < |tr.ring|
    ensures RingChunk(m.mem, tr.ring[j], i, tr.size, m.leastAddr) && tr.ring[j] in m.binned && 0 <= tr.size < SIZE_RANGE
    ensures j > 0 ==> Chained(m.mem, tr.ring[j])
    ensures j == 0 ==> Rd(m.mem, tr.ring[j] + PARENT) == par
  {
    hide Tiled, Tiling.Aligned, Heads, Feet, IndexOk, TopOk, Partition, LiveOk, Subtree, Spaced, HeadSizes,
        AlignedSizes, SomeOf, Chained, AnyChunk, IsInuse, Pinuse, NextChunkOf, ChunkSize;
    var u := tr.ring[j];
    OnTheRing(m, tr, i, par, lo, hi, j);
    IndexReady(m);
    SizeBound(m.binned, u);
    BinnedChecks(m, u);
  }

  lemma OnTheRing(m: Heap, tr: Tree, i: nat, par: int, lo: int, hi: int, j: nat)
    requires tr.Node? && Subtree(m, tr, i, par, lo, hi) && j < |tr.ring|
    ensures tr.ring[j] in m.binned && m.binned[tr.ring[j]] == tr.size && Rd(m.mem, tr.ring[j] + INDEX) == i
    ensures if j > 0 then Chained(m.mem, tr.ring[j]) else Rd(m.mem, tr.ring[j] + PARENT) == par
  {
    assert tr.ring[j] in tr.ring;
  }

  lemma SizeBound(f: Sizes, u: int)
    requires Spaced(f) && u in f
    ensures 0 <= f[u] < SIZE_RANGE
  {
  }

  /** The size of a node lies in the range of its bin, and in the range of no other. */
  lemma NodeIndex(m: Heap, tr: Tree, i: nat, par: int, lo: int, hi: int, idx: nat)
    requires m.Inv(0, 0) && tr.Node? && Subtree(m, tr, i, par, lo, hi)
    requires tr.size >= MIN_LARGE_SIZE ==> InTreeBin(idx, tr.size)
    ensures IndexOfSize(i, tr.size, idx) && tr.size < SIZE_RANGE
  {
    hide Tiled, Tiling.Aligned, Heads, Feet, IndexOk, TopOk, Partition, LiveOk;
    IndexReady(m);
    var u := tr.ring[0];
    assert u in tr.ring && u in Nodes(tr);
    TreeBinLarge(i, tr.size);
    TreeBinsOrdered(i, idx, tr.size, tr.size);
  }

  /** The children of a node: their sizes are in order, and they hang under it. */
  lemma ChildrenOf(m: Heap, tr: Tree, i: nat, par: int, lo: int, hi: int)
    requires m.Inv(0, 0) && tr.Node? && Subtree(m, tr, i, par, lo, hi)
    ensures var u := Root(tr);
            && u != 0 && Rd(m.mem, u + CHILD0) == Root(tr.left) && Rd(m.mem, u + CHILD1) == Root(tr.right)
            && (Root(tr.left) == 0 <==> tr.left.Nil?) && (Root(tr.right) == 0 <==> tr.right.Nil?)
            && Subtree(m, tr.left, i, u, lo, tr.mid) && Subtree(m, tr.right, i, u, tr.mid, hi)
    ensures tr.left.Node? ==>
        Root(tr.left) != Root(tr) && Rd(m.mem, Root(tr.left) + PARENT) == Root(tr)
        && ChunkSize(m.mem, Root(tr.left)) == tr.left.size < tr.mid
    ensures tr.right.Node? ==>
        Root(tr.right) != Root(tr) && Rd(m.mem, Root(tr.right) + PARENT) == Root(tr)
        && ChunkSize(m.mem, Root(tr.right)) == tr.right.size >= tr.mid
  {
    hide Tiled, Tiling.Aligned, Heads, Feet, IndexOk, TopOk, Partition, LiveOk, Spaced, HeadSizes, Walking, AllInBin,
        SomeOf, AlignedSizes, Root;
    IndexReady(m);
    WalkStep(m.mem, tr, m.binned, i, par, lo, hi);
    BelowInBin(tr, m.binned, i);
    if tr.left.Node? { ChildAt(m.mem, tr, tr.left, m.binned, i, par, lo, hi, Root(tr), lo, tr.mid); }
    if tr.right.Node? { ChildAt(m.mem, tr, tr.right, m.binned, i, par, lo, hi, Root(tr), tr.mid, hi); }
  }

  lemma BelowInBin(tr: Tree, f: Sizes, i: nat)
    requires tr.Node? && AllInBin(tr, f, i)
    ensures AllInBin(tr.left, f, i) && AllInBin(tr.right, f, i)
  {
  }

  lemma ChildAt(mem: Mem, tr: Tree, sub: Tree, f: Sizes, i: nat, par: int, lo: int, hi: int, u: int, lo': int, hi': int)
    requires Walking(mem, tr, f, i, par, lo, hi) && tr.Node? && (sub == tr.left || sub == tr.right) && sub.Node?
    requires Walking(mem, sub, f, i, u, lo', hi') && HeadSizes(mem, f)
    ensures Rd(mem, Root(sub) + PARENT) == u && SizeOf(Rd(mem, Root(sub) + HEAD)) == sub.size && lo' <= sub.size < hi'
    ensures Root(sub) != Root(tr)
  {
    hide NodeLinks, HeadSizes, Nodes;
    ChildLinks(mem, u, sub, i);
    NodeParent(mem, u, sub.ring, Root(sub.left), Root(sub.right), i);
    RootSize(mem, sub, f, i, u);
    RootSize(mem, tr, f, i, par);
  }

  lemma NodeParent(mem: Mem, par: int, ring: seq<int>, left: int, right: int, i: int)
    requires NodeLinks(mem, par, ring, left, right, i)
    ensures |ring| > 0 && Rd(mem, ring[0] + PARENT) == par
  {
  }

  /** do_check_tree. */
  method CheckTree(m: Heap, t: int, ghost tr: Tree, ghost i: nat, ghost par: int, ghost lo: int, ghost hi: int)
      returns (ok: bool)
    requires m.Inv(0, 0) && tr.Node? && Subtree(m, tr, i, par, lo, hi) && t == Root(tr)
    requires par != 0 && ParentLinks(m.mem, t)
    ensures ok
    decreases tr, 1
  {
    hide Tiled, Tiling.Aligned, Heads, Feet, IndexOk, TopOk, Partition, LiveOk, IndexOfSize, RingChunk, ParentLinks,
        InTreeBin, Subtree, Chained, Root;
    var head := 0;
    var u := t;
    NonEmpty(m, tr, i, par, lo, hi);
    RingChunkOk(m, tr, i, par, lo, hi, 0);
    ChildrenOf(m, tr, i, par, lo, hi);
    RingSize(m.mem, t, i, tr.size, m.leastAddr);
    var tindex := Rd(m.mem, t + INDEX);
    var tsize := ChunkSize(m.mem, t);
    var idx := ComputeTreeIndex(tsize);
    NodeIndex(m, tr, i, par, lo, hi, idx);
    ok := IndexOfSize(tindex, tsize, idx);
    ghost var j := 0;
    while true
      invariant ok && j < |tr.ring| && u == tr.ring[j] && head == if j == 0 then 0 else t
      decreases |tr.ring| - j
    {
      RingChunkOk(m, tr, i, par, lo, hi, j);
      if j > 0 { ChainedWords(m.mem, u); }
      ok := ok && RingChunk(m.mem, u, tindex, tsize, m.leastAddr);
      if Rd(m.mem, u + PARENT) == 0 {
        ok := ok && Rd(m.mem, u + CHILD0) == 0 && Rd(m.mem, u + CHILD1) == 0;
      } else {
        ok := ok && head == 0 && ParentLinks(m.mem, u);
        head := u;
        var below := CheckChildren(m, u, tr, i, par, lo, hi);
        ok := ok && below;
      }
      NextOnRing(m, tr, i, par, lo, hi, j);
      u := Rd(m.mem, u + FD);
      if u == t { break; }
      j := j + 1;
    }
    ok := ok && head != 0;
  }

  lemma NonEmpty(m: Heap, tr: Tree, i: nat, par: int, lo: int, hi: int)
    requires tr.Node? && Subtree(m, tr, i, par, lo, hi)
    ensures |tr.ring| > 0 && Root(tr) == tr.ring[0]
  {
  }

  /** A chained chunk, unlike the node itself, has neither parent nor children. */
  lemma ChainedWords(mem: Mem, u: int)
    requires Chained(mem, u)
    ensures Rd(mem, u + PARENT) == 0 && Rd(mem, u + CHILD0) == 0 && Rd(mem, u + CHILD1) == 0
  {
  }

  lemma RingSize(mem: Mem, u: int, tindex: int, tsize: int, least: int)
    requires RingChunk(mem, u, tindex, tsize, least)
    ensures Rd(mem, u + INDEX) == tindex && ChunkSize(mem, u) == tsize
  {
  }

  lemma NextOnRing(m: Heap, tr: Tree, i: nat, par: int, lo: int, hi: int, j: nat)
    requires tr.Node? && Subtree(m, tr, i, par, lo, hi) && j < |tr.ring|
    ensures |tr.ring| > 0 && Rd(m.mem, tr.ring[j] + FD) == tr.ring[Succ(j, |tr.ring|)] && Root(tr) == tr.ring[0]
    ensures Succ(j, |tr.ring|) != 0 ==> tr.ring[Succ(j, |tr.ring|)] != tr.ring[0]
  {
    Neighbours(m.mem, tr.ring, j);
    SpreadPair(tr.ring, 0, Succ(j, |tr.ring|));
  }

  /** The part of do_check_tree about the children of the node u. */
  method CheckChildren(m: Heap, u: int, ghost tr: Tree, ghost i: nat, ghost par: int, ghost lo: int, ghost hi: int)
      returns (ok: bool)
    requires m.Inv(0, 0) && tr.Node? && Subtree(m, tr, i, par, lo, hi) && u == Root(tr)
    ensures ok
    decreases tr, 0
  {
    hide Tiled, Tiling.Aligned, Heads, Feet, IndexOk, TopOk, Partition, LiveOk, Subtree;
    ok := true;
    ChildrenOf(m, tr, i, par, lo, hi);
    var left, right := Rd(m.mem, u + CHILD0), Rd(m.mem, u + CHILD1);
    if left != 0 {
      var below := CheckTree(m, left, tr.left, i, u, lo, tr.mid);
      ok := ok && Rd(m.mem, left + PARENT) == u && left != u && below;
    }
    if right != 0 {
      var below := CheckTree(m, right, tr.right, i, u, tr.mid, hi);
      ok := ok && Rd(m.mem, right + PARENT) == u && right != u && below;
    }
    if left != 0 && right != 0 { ok := ok && ChunkSize(m.mem, left) < ChunkSize(m.mem, right); }
  }

  lemma WholeTree(m: Heap, i: nat)
    requires m.Inv(0, 0) && i < NTREEBINS
    ensures |m.bins.trees| == NTREEBINS && Rd(m.mem, TreeBinAt(i)) == Root(m.bins.trees[i])
        && (Bit(m.treemap, i) <==> m.bins.trees[i].Node?)
    ensures var tr := m.bins.trees[i];
            tr.Node? ==>
                Root(tr) != 0 && Subtree(m, tr, i, TreeBinAt(i), Lo(i), Lo(i) + Pow2(Exp(i)))
                && ParentLinks(m.mem, Root(tr))
  {
    hide Tiled, Tiling.Aligned, Heads, Feet, TopOk, Partition, LiveOk, SmallBins, Spaced, HeadSizes, AlignedSizes,
        SomeOf, TreeOk, Walking, AllInBin;
    IndexReady(m);
    var par, lo, hi := TreeBinAt(i), Lo(i), Lo(i) + Pow2(Exp(i));
    TreeBinOf(m.mem, m.treemap, m.bins.trees, m.binned, i);
    var tr := m.bins.trees[i];
    if tr.Node? {
      TreeParts(m.mem, tr, i, m.binned);
      WalkStep(m.mem, tr, m.binned, i, par, lo, hi);
      InHeap(m.binned, Root(tr));
    }
  }

  lemma TreeParts(mem: Mem, tr: Tree, i: nat, f: Sizes)
    requires TreeOk(tr, i, f) && Links(mem, TreeBinAt(i), tr, i)
    ensures Walking(mem, tr, f, i, TreeBinAt(i), Lo(i), Lo(i) + Pow2(Exp(i))) && AllInBin(tr, f, i)
  {
  }

  lemma InHeap(f: Sizes, a: int)
    requires Spaced(f) && a in f
    ensures a >= HEAP_FLOOR
  {
  }

  /** do_check_treebin. */
  method CheckTreeBin(m: Heap, i: nat) returns (ok: bool)
    requires m.Valid() && i < NTREEBINS
    ensures ok
  {
    hide Tiled, Tiling.Aligned, Heads, Feet, IndexOk, TopOk, Partition, LiveOk, Subtree, ParentLinks;
    ok := true;
    var t := Rd(m.mem, TreeBinAt(i));
    var empty := !IsMarked(m.treemap, i);
    IsMarkedBit(m.treemap, i);
    ZeroBits(i);
    if m.top != 0 { WholeTree(m, i); }
    if t == 0 { ok := ok && empty; }
    if !empty {
      var below := CheckTree(m, t, m.bins.trees[i], i, TreeBinAt(i), Lo(i), Lo(i) + Pow2(Exp(i)));
      ok := ok && below;
    }
  }

  // ----- traverse_and_check and do_check_malloc_state -----

  /** What the walk over the segment asks of the chunk q, given what bin_find says of it. */
  predicate WalkedChunk(m: Heap, q: int, lastq: int, found: bool)
    reads m
  {
    if IsInuse(m.mem, q) then !found && InuseChunk(m.mem, q, m.leastAddr)
    else (q == m.dv || found) && (lastq == 0 || IsInuse(m.mem, lastq)) && FreeChunk(m.mem, q, m.dv, m.top, m.leastAddr)
  }

  lemma WalkedOk(m: Heap, q: int, lastq: int)
    requires m.Inv(0, 0) && q in m.chunks && (lastq != 0 ==> lastq in m.chunks && lastq + m.chunks[lastq].size == q)
    ensures WalkedChunk(m, q, lastq, q in m.binned)
  {
    hide Tiling.Aligned, Heads, Feet, IndexOk, TopOk, InuseChunk, FreeChunk;
    HeapInfo.WalkChunk(m, q);
    NoZero(m.chunks, m.segBase, m.top);
    if m.chunks[q].cin {
      assert q in m.live;
      LiveChecks(m, q);
    } else {
      if lastq != 0 {
        HeapInfo.WalkChunk(m, lastq);
        ChunkAt(m.chunks, m.segBase, m.top, lastq);
        ChunkAt(m.chunks, m.segBase, m.top, q);
      }
      if q in m.binned { BinnedChecks(m, q); } else { DvChecks(m); }
    }
  }

  lemma Findable(m: Heap, q: int)
    requires m.Inv(0, 0) && q in m.chunks
    ensures q >= HEAP_FLOOR && ChunkSize(m.mem, q) % 16 == 0 && 0 < ChunkSize(m.mem, q) < SIZE_RANGE
        && ChunkSize(m.mem, q) == m.chunks[q].size
  {
    hide Tiled, Heads, Feet, IndexOk, Partition, LiveOk;
    HeapInfo.WalkChunk(m, q);
    ChunkAt(m.chunks, m.segBase, m.top, q);
  }

  /** traverse_and_check. */
  method TraverseAndCheck(m: Heap) returns (sum: int, ok: bool)
    requires m.Valid()
    ensures ok && sum == m.footprint
  {
    hide Tiled, Tiling.Aligned, Heads, Feet, IndexOk, Partition, LiveOk, WalkedChunk, HeapSys.AlignOffset;
    sum := 0;
    ok := true;
    if m.top != 0 {
      HeapInfo.WalkStart(m);
      sum := sum + m.topsize + TOP_FOOT;
      var q := m.segBase + HeapSys.AlignOffset(m.segBase + 16);
      var lastq := 0;
      FirstPinned(m, q);
      ok := Pinuse(m.mem, q);
      while m.segBase <= q < m.segBase + m.segSize && q != m.top && Rd(m.mem, q + HEAD) != HeapInfo.FENCEPOST_HEAD
        invariant ok && m.segBase <= q <= m.top && (q == m.top || q in m.chunks)
        invariant sum == m.topsize + TOP_FOOT + (q - m.segBase)
        invariant lastq != 0 ==> lastq in m.chunks && lastq + m.chunks[lastq].size == q
        decreases m.top - q
      {
        Findable(m, q);
        HeapInfo.WalkStep(m, q);
        WalkedOk(m, q, lastq);
        sum := sum + ChunkSize(m.mem, q);
        var found := BinFind(m, q);
        ok := ok && WalkedChunk(m, q, lastq, found);
        lastq := q;
        q := NextChunkOf(m.mem, q);
      }
      if q in m.chunks { HeapInfo.WalkChunk(m, q); }
    }
  }

  lemma FirstPinned(m: Heap, q: int)
    requires m.Inv(0, 0) && q == m.segBase
    ensures Pinuse(m.mem, q)
  {
    hide IndexOk, Partition, LiveOk;
    if q in m.chunks {
      ChunkAt(m.chunks, m.segBase, m.top, q);
      ReadTags(m.mem, m.chunks, m.segBase, m.top, 0, q);
    } else {
      TopChecks(m);
    }
  }

  /** do_check_malloc_state: all of it passes. */
  method CheckMallocState(m: Heap) returns (ok: bool)
    requires m.Valid()
    ensures ok
  {
    hide Tiled, Tiling.Aligned, Heads, Feet, IndexOk, Partition, LiveOk, TopChunk, FreeChunk;
    ok := true;
    for i := 0 to NSMALLBINS
      invariant ok
    {
      var bin := CheckSmallBin(m, i);
      ok := ok && bin;
    }
    for i := 0 to NTREEBINS
      invariant ok
    {
      var bin := CheckTreeBin(m, i);
      ok := ok && bin;
    }
    if m.dvsize != 0 {
      DvAny(m);
      ok := ok && AnyChunk(m.dv, m.leastAddr) && m.dvsize == ChunkSize(m.mem, m.dv) && m.dvsize >= MIN_CHUNK_SIZE;
      var found := BinFind(m, m.dv);
      ok := ok && !found;
    }
    if m.top != 0 {
      TopChecks(m);
      ok := ok && TopChunk(m.mem, m.top, m.topsize, m.leastAddr, m.segBase, m.segSize) && m.topsize > 0;
      TopFindable(m);
      var found := BinFind(m, m.top);
      ok := ok && !found;
    }
    var total, walked := TraverseAndCheck(m);
    FootprintBound(m);
    ok := ok && walked && total <= m.footprint && m.footprint <= m.maxFootprint;
  }

  lemma DvAny(m: Heap)
    requires m.Valid() && m.dvsize != 0
    ensures m.Inv(0, 0) && m.dv !in m.binned && m.dv >= HEAP_FLOOR && AnyChunk(m.dv, m.leastAddr)
    ensures ChunkSize(m.mem, m.dv) == m.dvsize >= MIN_CHUNK_SIZE && m.dvsize % 16 == 0 && m.dvsize < SIZE_RANGE
  {
    hide Tiled, Tiling.Aligned, Heads, Feet, IndexOk, Partition, LiveOk;
    DvChecks(m);
    Findable(m, m.dv);
  }

  lemma TopFindable(m: Heap)
    requires m.Inv(0, 0)
    ensures m.top !in m.binned && m.top >= HEAP_FLOOR
    ensures ChunkSize(m.mem, m.top) == m.topsize && m.topsize % 16 == 0 && 0 < m.topsize < SIZE_RANGE
  {
    hide Tiling.Aligned, Heads, Feet, IndexOk, LiveOk;
    TopChecks(m);
    if m.top in m.binned { ChunkAt(m.chunks, m.segBase, m.top, m.top); }
  }

  lemma FootprintBound(m: Heap)
    requires m.Valid()
    ensures m.footprint <= m.maxFootprint
  {
  }
}
