/** ialloc: independent_calloc and independent_comalloc (src/mm/malloc.c:4979-5096). */
module HeapIalloc {
  import opened Bits
  import opened BinIndex
  import opened Memory
  import opened Bytes
  import opened Tiling
  import opened Macros
  import opened Index
  import opened HeapLemmas
  import opened HeapTags
  import opened HeapState
  import opened HeapSteps
  import opened HeapMoves
  import opened HeapChunks
  import opened HeapReturns
  import opened HeapRelays
  import opened HeapResizes
  import opened HeapSys
  import opened HeapViews
  import opened HeapMalloc
  import opened HeapCalloc
  import HeapRealloc
  import HeapChecks

  // ----- dividing the aggregate chunk: its part still undivided is the hole -----

  lemma LiveFront(c: Chunks, c': Chunks, base: int, top: int, live: Sizes, p: int, n: int)
    requires Tiled(c, base, top) && base > 0 && LiveOk(c, live, p) && p in c && c[p].cin && SplitAt(c, c', p, n)
    ensures LiveOk(c', live[p := n], p + n) && p !in live && p + n !in live
    ensures LiveOk(c', live[p + n := c[p].size - n], p)
  {
    SplitFresh(c, base, top, p, n);
    NoZero(c, base, top);
    ChunkAt(c, base, top, p);
  }

  /** set_size_and_pinuse_of_inuse_chunk(p, n); p = p + n: the front of the hole is a block of its own. */
  method SplitFront(m: Heap, p: int, n: int, ghost rest: int)
    requires m.Inv(p, 0) && m.HoleIs(p, n + rest) && m.chunks[p].pin && n >= 32 && rest >= 32 && n % 16 == 0
        && (m.dvsize != 0 ==> m.dv != p)
    modifies m`mem, m`chunks, m`live
    ensures m.Inv(p + n, 0) && m.HoleIs(p + n, rest) && m.chunks[p + n].pin && (m.dvsize != 0 ==> m.dv != p + n)
    ensures m.live == old(m.live)[p := n] && p !in old(m.live)
        && m.mem == SetSizeAndPinuseOfInuseChunk(old(m.mem), p, n)
    ensures BodiesSame(old(m.mem), m.mem, m.live)
  {
    hide Tiled, Tiling.Aligned, Heads, Feet, IndexOk, TopOk, Partition, LiveOk, BodiesSame;
    ghost var mem0, c, live0 := m.mem, m.chunks, m.live;
    HoleBase(m, p);
    m.mem := SetSizeAndPinuseOfInuseChunk(m.mem, p, n);
    m.chunks := Split(c, p, n);
    m.live := m.live[p := n];
    LiveFront(c, m.chunks, m.segBase, m.top, live0, p, n);
    SplitFresh(c, m.segBase, m.top, p, n);
    DvInside(c, m.binned, m.dv, m.dvsize, p, p + n);
    SplitAll(mem0, m.mem, c, m.chunks, m.segBase, m.top, m.topsize, m.segBase + m.segSize, p, n, p, p + n,
             m.smallmap, m.treemap, m.bins, m.binned, m.dv, m.dvsize, m.live);
  }

  lemma HoleBase(m: Heap, p: int)
    requires m.Inv(p, 0) && p in m.chunks
    ensures p >= m.segBase > 0
  {
    hide Tiling.Aligned, Heads, Feet, IndexOk, TopOk, Partition, LiveOk;
    ChunkAt(m.chunks, m.segBase, m.top, p);
  }

  lemma DvInside(c: Chunks, f: Sizes, dv: int, dvsize: int, hole: int, q: int)
    requires Partition(c, f, dv, dvsize, hole, 0) && q !in c && (dvsize != 0 ==> dv != hole)
    ensures dvsize != 0 ==> dv != q
  {
  }

  /** The pointer array becomes a block at the end of the hole. */
  method SplitBack(m: Heap, p: int, n: int, rest: int)
    requires m.Inv(p, 0) && m.HoleIs(p, n + rest) && n >= 32 && rest >= 32 && n % 16 == 0
        && (m.dvsize != 0 ==> m.dv != p)
    modifies m`mem, m`chunks, m`live
    ensures m.Inv(p, 0) && m.HoleIs(p, n) && m.chunks[p].pin == old(m.chunks)[p].pin
    ensures m.live == old(m.live)[p + n := rest] && p + n !in old(m.live)
        && m.mem == SetSizeAndPinuseOfInuseChunk(old(m.mem), p + n, rest)
    ensures BodiesSame(old(m.mem), m.mem, m.live)
  {
    hide Tiled, Tiling.Aligned, Heads, Feet, IndexOk, TopOk, Partition, LiveOk, BodiesSame;
    ghost var mem0, c, live0 := m.mem, m.chunks, m.live;
    HoleBase(m, p);
    m.mem := SetSizeAndPinuseOfInuseChunk(m.mem, p + n, rest);
    m.chunks := Split(c, p, n);
    m.live := m.live[p + n := rest];
    LiveFront(c, m.chunks, m.segBase, m.top, live0, p, n);
    SplitFresh(c, m.segBase, m.top, p, n);
    SplitAll(mem0, m.mem, c, m.chunks, m.segBase, m.top, m.topsize, m.segBase + m.segSize, p, n, p, p,
             m.smallmap, m.treemap, m.bins, m.binned, m.dv, m.dvsize, m.live);
  }

  lemma HoleFilled(c: Chunks, f: Sizes, dv: int, dvsize: int, live: Sizes, p: int, s: int)
    requires Partition(c, f, dv, dvsize, p, 0) && LiveOk(c, live, p) && p in c && c[p].cin && c[p].size == s
        && p != 0 && 0 !in c && (dvsize != 0 ==> dv != p)
    ensures Partition(c, f, dv, dvsize, 0, 0) && LiveOk(c, live[p := s], 0) && p !in live
  {
  }

  lemma FilledTags(mem: Mem, c: Chunks, base: int, top: int, topsize: int, end: int, p: int, s: int,
                   smallmap: nat, treemap: nat, bins: Bins, f: Sizes, dv: int, dvsize: int, live: Sizes)
    requires Tags(mem, c, base, top, p) && TopOk(mem, top, topsize, end) && end < SIZE_RANGE
        && IndexOk(mem, smallmap, treemap, bins, f)
    requires Partition(c, f, dv, dvsize, p, 0) && LiveOk(c, live, p) && p in c && c[p] == Chunk(s, true, true)
        && p != 0 && (dvsize != 0 ==> dv != p)
    ensures var mem' := SetSizeAndPinuseOfInuseChunk(mem, p, s);
            && Tags(mem', c, base, top, 0) && TopOk(mem', top, topsize, end)
                && IndexOk(mem', smallmap, treemap, bins, f)
            && Partition(c, f, dv, dvsize, 0, 0) && LiveOk(c, live[p := s], 0) && BodiesSame(mem, mem', live[p := s])
                && p !in live
  {
    hide Tiled, Tiling.Aligned, IndexOk, TopOk, Partition, LiveOk, BodiesSame;
    var mem' := SetSizeAndPinuseOfInuseChunk(mem, p, s);
    NoZero(c, base, top);
    NotFootHere(c, base, top, p);
    HoleFilled(c, f, dv, dvsize, live, p, s);
    TagsAfter(mem, mem', c, c, base, top, p, 0, p, p, p + HEAD);
    StepKeeps(mem, mem', c, c, base, top, topsize, end, 0, 0, 0, 0, p, p, 0, p + HEAD, smallmap, treemap, bins, f,
        dv, dvsize, live[p := s]);
  }

  /** The last element takes all that is left. */
  method FillHole(m: Heap, p: int, s: int)
    requires m.Inv(p, 0) && m.HoleIs(p, s) && m.chunks[p].pin && (m.dvsize != 0 ==> m.dv != p)
    modifies m`mem, m`live
    ensures m.Inv(0, 0) && m.live == old(m.live)[p := s] && p !in old(m.live)
        && m.mem == SetSizeAndPinuseOfInuseChunk(old(m.mem), p, s)
    ensures BodiesSame(old(m.mem), m.mem, m.live)
  {
    hide Tiled, Tiling.Aligned, Heads, Feet, IndexOk, TopOk, Partition, LiveOk, BodiesSame,
        SetSizeAndPinuseOfInuseChunk;
    FilledTags(m.mem, m.chunks, m.segBase, m.top, m.topsize, m.segBase + m.segSize, p, s,
               m.smallmap, m.treemap, m.bins, m.binned, m.dv, m.dvsize, m.live);
    m.mem := SetSizeAndPinuseOfInuseChunk(m.mem, p, s);
    m.live := m.live[p := s];
  }

  // ----- sizes and places of the elements -----

  function Sum(sizes: seq<int>, i: nat): int
    requires i <= |sizes|
  {
    if i == 0 then 0 else Sum(sizes, i - 1) + sizes[i - 1]
  }

  /** All sizes are legal chunk sizes. */
  ghost predicate Legal(sizes: seq<int>) {
    forall i :: 0 <= i < |sizes| ==> sizes[i] >= MIN_CHUNK_SIZE && sizes[i] % 16 == 0
  }

  lemma {:induction false} SumMono(sizes: seq<int>, i: nat, j: nat)
    requires Legal(sizes) && i <= j <= |sizes|
    ensures Sum(sizes, j) >= Sum(sizes, i) + 32 * (j - i) && Sum(sizes, i) >= 0
    ensures i < j ==> Sum(sizes, j) >= Sum(sizes, i) + sizes[i]
    ensures Sum(sizes, i) % 16 == 0
    decreases j
  {
    if j > 0 {
      if i < j { SumMono(sizes, i, j - 1); } else { SumMono(sizes, i - 1, j - 1); }
    }
  }

  /** The live blocks after the first i elements were split off from p on. */
  function WithBlocks(live: Sizes, p: int, sizes: seq<int>, i: nat): Sizes
    requires i <= |sizes|
  {
    if i == 0 then live else WithBlocks(live, p, sizes, i - 1)[p + Sum(sizes, i - 1) := sizes[i - 1]]
  }

  lemma {:induction false} WithBlocksOld(live: Sizes, p: int, sizes: seq<int>, i: nat, a: int)
    requires i <= |sizes| && Legal(sizes) && a in live && (a < p || a >= p + Sum(sizes, i))
    ensures a in WithBlocks(live, p, sizes, i) && WithBlocks(live, p, sizes, i)[a] == live[a]
  {
    if i > 0 {
      SumMono(sizes, i - 1, i);
      SumMono(sizes, 0, i - 1);
      WithBlocksOld(live, p, sizes, i - 1, a);
    }
  }

  lemma {:induction false} WithBlocksNew(live: Sizes, p: int, sizes: seq<int>, i: nat, j: nat)
    requires j < i <= |sizes| && Legal(sizes)
    ensures p + Sum(sizes, j) in WithBlocks(live, p, sizes, i)
        && WithBlocks(live, p, sizes, i)[p + Sum(sizes, j)] == sizes[j]
  {
    if j < i - 1 {
      SumMono(sizes, j, i - 1);
      WithBlocksNew(live, p, sizes, i - 1, j);
    }
  }

  /** marray[i] = q, the array being a live block of the heap while p is still to be divided. */
  method StorePointer(m: Heap, ghost p: int, marray: int, i: nat, q: int)
    requires m.Inv(p, 0) && marray - 16 in m.live && 8 * i + 16 <= m.live[marray - 16]
    modifies m`mem
    ensures m.Inv(p, 0) && m.mem == old(m.mem)[marray + 8 * i := q]
    ensures BodiesSame(old(m.mem), m.mem, m.live - {marray - 16})
  {
    hide Tiled, Tiling.Aligned, Heads, Feet, IndexOk, TopOk, Partition, LiveOk, BodiesSame;
    ghost var mem0 := m.mem;
    m.mem := m.mem[marray + 8 * i := q];
    PayloadWrite(mem0, m.mem, m.chunks, m.segBase, m.top, m.topsize, m.segBase + m.segSize, p, marray - 16,
                 m.smallmap, m.treemap, m.bins, m.binned, m.dv, m.dvsize, m.live);
  }

  /** Where the pointers go: an array the caller supplied, or a block of the heap. */
  datatype PointerArray = Supplied | InHeap(at: int)

  ghost predicate ArrayFits(live: Sizes, arr: PointerArray, n: nat) {
    arr.InHeap? ==> arr.at - 16 in live && 8 * n + 8 <= live[arr.at - 16]
  }

  /** The blocks other than the pointer array. */
  function Others(live: Sizes, arr: PointerArray): Sizes {
    if arr.InHeap? then live - {arr.at - 16} else live
  }

  /** The state of the loop of ialloc before element i: i elements are blocks of their own, and the
      rest of the aggregate, from p on, is the hole. */
  ghost predicate Splitting(m: Heap, live0: Sizes, p0: int, total: int, reqs: seq<int>, i: nat, p: int, rest: int)
    reads m
  {
    && i < |reqs| && m.Inv(p, 0) && m.HoleIs(p, rest) && m.chunks[p].pin && (m.dvsize != 0 ==> m.dv != p)
    && p == p0 + Sum(reqs, i) && rest == total - Sum(reqs, i) && m.live == WithBlocks(live0, p0, reqs, i)
  }

  /** One element that is not the last: set_size_and_pinuse_of_inuse_chunk(p, size); p += size. */
  method SplitElement(m: Heap, p: int, size: int, ghost live0: Sizes, ghost p0: int, ghost total: int,
      ghost reqs: seq<int>, ghost i: nat, ghost rest: int)
    requires Splitting(m, live0, p0, total, reqs, i, p, rest) && i + 1 < |reqs| && size == reqs[i]
    requires Legal(reqs) && Sum(reqs, |reqs|) <= total
    modifies m`mem, m`chunks, m`live
    ensures Splitting(m, live0, p0, total, reqs, i + 1, p + size, rest - size)
    ensures m.mem == SetSizeAndPinuseOfInuseChunk(old(m.mem), p, size) && BodiesSame(old(m.mem), m.mem, old(m.live))
  {
    hide Tiled, Tiling.Aligned, Heads, Feet, IndexOk, TopOk, Partition, LiveOk, BodiesSame,
        SetSizeAndPinuseOfInuseChunk;
    SumMono(reqs, i + 1, |reqs|);
    assert reqs[i] >= 32 && reqs[i] % 16 == 0;
    ghost var mem0, live1 := m.mem, m.live;
    SplitFront(m, p, size, rest - size);
    FewerBodies(mem0, m.mem, live1, m.live);
  }

  lemma ArrayKept(live0: Sizes, p0: int, reqs: seq<int>, i: nat, total: int, arr: PointerArray, n: nat)
    requires Legal(reqs) && i < |reqs| && Sum(reqs, |reqs|) <= total && ArrayFits(live0, arr, n)
    requires arr.InHeap? ==> arr.at - 16 < p0 || arr.at - 16 >= p0 + total
    ensures ArrayFits(WithBlocks(live0, p0, reqs, i), arr, n)
  {
    SumMono(reqs, i, |reqs|);
    if arr.InHeap? { WithBlocksOld(live0, p0, reqs, i, arr.at - 16); }
  }

  /** Of the words of the aggregate only the head words of elements 1 to i - 1 changed, and element 0's. */
  ghost predicate OnlyHeads(mem0: Mem, mem: Mem, p0: int, total: int, reqs: seq<int>, i: nat)
    requires i <= |reqs|
  {
    forall w {:trigger Rd(mem, w)} :: p0 + 16 <= w <= p0 + total && NoHead(w, p0, reqs, i) ==> Rd(mem, w) == Rd(mem0, w)
  }

  ghost predicate NoHead(w: int, p0: int, reqs: seq<int>, i: nat)
    requires i <= |reqs|
  {
    forall j: nat {:trigger Sum(reqs, j)} :: j < i ==> w != p0 + Sum(reqs, j) + 8
  }

  lemma HeadsStore(mem0: Mem, mem: Mem, p0: int, total: int, reqs: seq<int>, i: nat, x: int, v: int)
    requires i <= |reqs| && OnlyHeads(mem0, mem, p0, total, reqs, i) && x > p0 + total
    ensures OnlyHeads(mem0, mem[x := v], p0, total, reqs, i)
  {
    hide NoHead;
    var mem' := mem[x := v];
    forall w {:trigger Rd(mem', w)} | p0 + 16 <= w <= p0 + total
        && NoHead(w, p0, reqs, i) ensures Rd(mem', w) == Rd(mem0, w) { assert Rd(mem, w) == Rd(mem0, w); }
  }

  lemma HeadsStep(mem0: Mem, mem: Mem, p0: int, total: int, reqs: seq<int>, i: nat, p: int, s: int)
    requires i < |reqs| && OnlyHeads(mem0, mem, p0, total, reqs, i) && p == p0 + Sum(reqs, i)
    ensures OnlyHeads(mem0, SetSizeAndPinuseOfInuseChunk(mem, p, s), p0, total, reqs, i + 1)
  {
    hide Sum;
    var mem' := SetSizeAndPinuseOfInuseChunk(mem, p, s);
    forall w {:trigger Rd(mem', w)} | p0 + 16 <= w <= p0 + total
        && NoHead(w, p0, reqs, i + 1) ensures Rd(mem', w) == Rd(mem0, w) {
      assert w != p0 + Sum(reqs, i) + 8;
      assert NoHead(w, p0, reqs, i);
      assert Rd(mem, w) == Rd(mem0, w);
    }
  }

  /** The first i pointers are those of the first i elements. */
  ghost predicate Pointers(ptrs: seq<int>, p0: int, reqs: seq<int>, i: nat)
    requires i <= |reqs|
  {
    |ptrs| == i && forall j: nat {:trigger ptrs[j]} :: j < i ==> ptrs[j] == p0 + Sum(reqs, j) + 16
  }

  /** ... and are stored in the array. */
  ghost predicate Stored(mem: Mem, arr: PointerArray, ptrs: seq<int>) {
    arr.InHeap? ==> forall j: nat {:trigger ptrs[j]} :: j < |ptrs| ==> Rd(mem, arr.at + 8 * j) == ptrs[j]
  }

  lemma StoredMore(mem: Mem, arr: PointerArray, ptrs: seq<int>, q: int)
    requires Stored(mem, arr, ptrs)
    ensures arr.InHeap? ==> Stored(mem[arr.at + 8 * |ptrs| := q], arr, ptrs + [q])
    ensures arr.Supplied? ==> Stored(mem, arr, ptrs + [q])
  {
    if arr.InHeap? {
      var mem', ptrs' := mem[arr.at + 8 * |ptrs| := q], ptrs + [q];
      forall j: nat {:trigger ptrs'[j]} | j < |ptrs'| ensures Rd(mem', arr.at + 8 * j) == ptrs'[j] {
        if j < |ptrs| { assert ptrs'[j] == ptrs[j] && Rd(mem, arr.at + 8 * j) == ptrs[j]; }
      }
    }
  }

  lemma StoredKept(mem: Mem, arr: PointerArray, ptrs: seq<int>, p: int, s: int)
    requires Stored(mem, arr, ptrs) && (arr.InHeap? ==> arr.at > p + 8)
    ensures Stored(SetSizeAndPinuseOfInuseChunk(mem, p, s), arr, ptrs)
  {
    var mem' := SetSizeAndPinuseOfInuseChunk(mem, p, s);
    if arr.InHeap? {
      forall j: nat {:trigger ptrs[j]} | j < |ptrs| ensures Rd(mem', arr.at + 8 * j) ==
          ptrs[j] { assert Rd(mem, arr.at + 8 * j) == ptrs[j]; }
    }
  }

  lemma OthersKept(live0: Sizes, p0: int, reqs: seq<int>, i: nat, total: int, arr: PointerArray, mem: Mem, mem': Mem)
    requires Legal(reqs) && i <= |reqs| && Sum(reqs, i) <= total
    requires forall a :: a in live0 ==> a < p0 || a >= p0 + total
    requires BodiesSame(mem, mem', WithBlocks(live0, p0, reqs, i))
        || (arr.InHeap? && BodiesSame(mem, mem', WithBlocks(live0, p0, reqs, i) - {arr.at - 16}))
    ensures BodiesSame(mem, mem', Others(live0, arr))
  {
    hide BodiesSame;
    var k, w := Others(live0, arr), WithBlocks(live0, p0, reqs, i);
    forall a | a in k ensures a in w && w[a] == k[a] { WithBlocksOld(live0, p0, reqs, i, a); }
    if BodiesSame(mem, mem', w) { BodiesSameSub(mem, mem', w, k); }
        else { BodiesSameSub(mem, mem', w - {arr.at - 16}, k); }
  }

  /** marray[i] = chunk2mem(p). */
  method PutPointer(m: Heap, p: int, arr: PointerArray, i: nat, ghost ptrs: seq<int>, ghost live0: Sizes,
      ghost p0: int, ghost total: int, ghost reqs: seq<int>, ghost rest: int, ghost mem0: Mem)
    requires Splitting(m, live0, p0, total, reqs, i, p, rest) && Legal(reqs) && Sum(reqs, |reqs|) <= total
        && |ptrs| == i && Stored(m.mem, arr, ptrs)
    requires ArrayFits(live0, arr, |reqs|) && (arr.InHeap? ==> arr.at - 16 >= p0 + total)
        && OnlyHeads(mem0, m.mem, p0, total, reqs, i)
    requires forall a :: a in live0 ==> a < p0 || a >= p0 + total
    modifies m`mem
    ensures Splitting(m, live0, p0, total, reqs, i, p, rest) && Stored(m.mem, arr, ptrs + [p + 16])
    ensures OnlyHeads(mem0, m.mem, p0, total, reqs, i)
    ensures BodiesSame(old(m.mem), m.mem, Others(live0, arr))
  {
    hide Tiled, Tiling.Aligned, Heads, Feet, IndexOk, TopOk, Partition, LiveOk, BodiesSame, Stored, OnlyHeads,
        WithBlocks, Others, Legal;
    ghost var memA := m.mem;
    StoredMore(m.mem, arr, ptrs, p + 16);
    NothingWritten(m.mem, Others(live0, arr));
    if arr.InHeap? {
      ArrayKept(live0, p0, reqs, i, total, arr, |reqs|);
      HeadsStore(mem0, m.mem, p0, total, reqs, i, arr.at + 8 * i, p + 16);
      StorePointer(m, p, arr.at, i, p + 16);
      SumMono(reqs, i, |reqs|);
      OthersKept(live0, p0, reqs, i, total, arr, memA, m.mem);
    }
  }

  /** What ialloc leaves of the aggregate: adjacent live blocks of the sizes asked for, the last one
      with whatever is left over. */
  ghost predicate Divided(live0: Sizes, live: Sizes, p0: int, total: int, reqs: seq<int>, ptrs: seq<int>) {
    && |reqs| > 0 && Pointers(ptrs, p0, reqs, |reqs|)
    && live == WithBlocks(live0, p0, reqs, |reqs| - 1)[p0 + Sum(reqs, |reqs| - 1) := total - Sum(reqs, |reqs| - 1)]
  }

  lemma {:induction false} BlockKeys(live: Sizes, p: int, sizes: seq<int>, ptrs: seq<int>, i: nat, a: int)
    requires i <= |sizes| && Pointers(ptrs, p, sizes, |sizes|)
    ensures a in WithBlocks(live, p, sizes, i) && a !in live ==> a + 16 in ptrs
    ensures a in live ==> a in WithBlocks(live, p, sizes, i)
    ensures a in live && a + 16 !in ptrs ==> WithBlocks(live, p, sizes, i)[a] == live[a]
  {
    if i > 0 {
      BlockKeys(live, p, sizes, ptrs, i - 1, a);
      assert ptrs[i - 1] == p + Sum(sizes, i - 1) + 16;
    }
  }

  /** The blocks after the division of the aggregate are the old ones and the elements. */
  lemma DividedKeys(live0: Sizes, live: Sizes, p0: int, total: int, reqs: seq<int>, ptrs: seq<int>, a: int)
    requires Divided(live0, live, p0, total, reqs, ptrs)
    ensures a in live && a !in live0 ==> a + 16 in ptrs
    ensures a in live0 ==> a in live
    ensures a in live0 && a + 16 !in ptrs ==> live[a] == live0[a]
  {
    hide Sum;
    var n := |reqs|;
    BlockKeys(live0, p0, reqs, ptrs, n - 1, a);
    assert ptrs[n - 1] == p0 + Sum(reqs, n - 1) + 16;
  }

  /** Element k: where it is and how large. */
  lemma DividedAt(live0: Sizes, live: Sizes, p0: int, total: int, reqs: seq<int>, ptrs: seq<int>, k: nat)
    requires Divided(live0, live, p0, total, reqs, ptrs) && Legal(reqs) && k < |reqs| && Sum(reqs, |reqs|) <= total
    ensures |ptrs| == |reqs| && ptrs[k] == p0 + Sum(reqs, k) + 16 && p0 <= ptrs[k] - 16 < p0 + total
    ensures ptrs[k] - 16 in live && live[ptrs[k] - 16] >= reqs[k]
  {
    hide Sum;
    var n := |reqs|;
    assert ptrs[k] == p0 + Sum(reqs, k) + 16;
    SumMono(reqs, k, n);
    SumMono(reqs, n - 1, n);
    if k < n - 1 {
      SumMono(reqs, k, n - 1);
      WithBlocksNew(live0, p0, reqs, n - 1, k);
    }
  }

  /** The loop of ialloc. */
  method SplitElements(m: Heap, p0: int, total: int, elementSize: int, requests: seq<int>, n: nat, arr: PointerArray,
      ghost reqs: seq<int>)
    returns (ptrs: seq<int>)
    requires m.Inv(p0, 0) && m.HoleIs(p0, total) && m.chunks[p0].pin && (m.dvsize != 0 ==> m.dv != p0)
    requires 0 < n == |reqs| && Legal(reqs) && Sum(reqs, n) <= total && (elementSize == 0 ==> |requests| == n)
    requires forall i :: 0 <= i < n ==> reqs[i] == if elementSize != 0 then elementSize else Request2Size(requests[i])
    requires ArrayFits(m.live, arr, n) && (arr.InHeap? ==> arr.at - 16 >= p0 + total)
    requires forall a :: a in m.live ==> a < p0 || a >= p0 + total
    requires arr.InHeap? ==> total == Sum(reqs, n)
    modifies m`mem, m`chunks, m`live
    ensures m.Inv(0, 0) && Divided(old(m.live), m.live, p0, total, reqs, ptrs) && Stored(m.mem, arr, ptrs)
    ensures OnlyHeads(old(m.mem), m.mem, p0, total, reqs, n)
    ensures BodiesSame(old(m.mem), m.mem, Others(old(m.live), arr))
  {
    hide Tiled, Tiling.Aligned, Heads, Feet, IndexOk, TopOk, Partition, LiveOk, BodiesSame, Stored, OnlyHeads,
        WithBlocks, Others, ArrayFits, SetSizeAndPinuseOfInuseChunk;
    ghost var mem0, live0 := m.mem, m.live;
    ptrs := [];
    var i, p, rest := 0, p0, total;
    LoopStart(m, live0, p0, total, reqs, arr);
    while true
      invariant 0 <= i < n && Splitting(m, live0, p0, total, reqs, i, p, rest) && Pointers(ptrs, p0, reqs, i)
      invariant Stored(m.mem, arr, ptrs) && OnlyHeads(mem0, m.mem, p0, total, reqs, i)
      invariant BodiesSame(mem0, m.mem, Others(live0, arr))
      decreases n - i
    {
      ghost var memA := m.mem;
      PutPointer(m, p, arr, i, ptrs, live0, p0, total, reqs, rest, mem0);
      BodiesSameTrans(mem0, memA, m.mem, Others(live0, arr));
      ptrs := ptrs + [p + 16];
      ghost var memB := m.mem;
      SumMono(reqs, i, n);
      HeadBelow(m, live0, p0, total, reqs, i, p, rest, arr);
      if i != n - 1 {
        var size := if elementSize != 0 then elementSize else Request2Size(requests[i]);
        HeadsStep(mem0, m.mem, p0, total, reqs, i, p, size);
        StoredKept(m.mem, arr, ptrs, p, size);
        SplitElement(m, p, size, live0, p0, total, reqs, i, rest);
        rest := rest - size;
        p := p + size;
        OthersKept(live0, p0, reqs, i, total, arr, memB, m.mem);
        BodiesSameTrans(mem0, memB, m.mem, Others(live0, arr));
        i := i + 1;
      } else {
        HeadsStep(mem0, m.mem, p0, total, reqs, i, p, rest);
        StoredKept(m.mem, arr, ptrs, p, rest);
        ghost var live1 := m.live;
        FillHole(m, p, rest);
        FewerBodies(memB, m.mem, live1, m.live);
        OthersKept(live0, p0, reqs, i, total, arr, memB, m.mem);
        BodiesSameTrans(mem0, memB, m.mem, Others(live0, arr));
        if arr.InHeap? {
          // the last element has exhausted the chunk
          assert rest == if elementSize != 0 then elementSize else Request2Size(requests[i]);
        }
        break;
      }
    }
  }

  lemma HeadBelow(m: Heap, live0: Sizes, p0: int, total: int, reqs: seq<int>, i: nat, p: int, rest: int,
      arr: PointerArray)
    requires Splitting(m, live0, p0, total, reqs, i, p, rest) && Legal(reqs) && Sum(reqs, |reqs|) <= total
    requires arr.InHeap? ==> arr.at - 16 >= p0 + total
    ensures arr.InHeap? ==> arr.at > p + 8
  {
    SumMono(reqs, i, |reqs|);
  }

  lemma LoopStart(m: Heap, live0: Sizes, p0: int, total: int, reqs: seq<int>, arr: PointerArray)
    requires m.Inv(p0, 0) && m.HoleIs(p0, total) && m.chunks[p0].pin && (m.dvsize != 0 ==> m.dv != p0) && |reqs| > 0
        && live0 == m.live
    ensures Splitting(m, live0, p0, total, reqs, 0, p0, total) && Stored(m.mem, arr, [])
        && OnlyHeads(m.mem, m.mem, p0, total, reqs, 0)
    ensures BodiesSame(m.mem, m.mem, Others(live0, arr))
  {
    hide Tiled, Tiling.Aligned, Heads, Feet, IndexOk, TopOk, Partition, LiveOk;
  }

  // ----- the whole of ialloc -----

  /** The chunk sizes of the elements. */
  function ChunkSizes(n: nat, sizes: seq<int>, same: bool): (r: seq<int>)
    requires |sizes| == (if same then 1 else n)
    ensures |r| == n && forall i :: 0 <= i < n ==> r[i] == Request2Size(if same then sizes[0] else sizes[i])
  {
    seq(n, i requires 0 <= i < n => Request2Size(if same then sizes[0] else sizes[i]))
  }

  lemma {:induction false} SumSame(reqs: seq<int>, e: int, i: nat)
    requires i <= |reqs| && forall j :: 0 <= j < |reqs| ==> reqs[j] == e
    ensures Sum(reqs, i) == i * e
  {
    if i > 0 {
      SumSame(reqs, e, i - 1);
      assert i * e == (i - 1) * e + e;
    }
  }

  lemma SizesLegal(n: nat, sizes: seq<int>, same: bool)
    requires |sizes| == (if same then 1 else n) && forall i :: 0 <= i < |sizes| ==> Padded(sizes[i])
    ensures Legal(ChunkSizes(n, sizes, same))
  {
    var r := ChunkSizes(n, sizes, same);
    forall i | 0 <= i < n ensures r[i] >= MIN_CHUNK_SIZE
        && r[i] % 16 == 0 { LeastSize(if same then sizes[0] else sizes[i], MIN_CHUNK_SIZE); }
  }

  lemma NoWrapMod(x: int)
    requires 0 <= x < SIZE_RANGE
    ensures x % SIZE_RANGE == x
  {
  }

  // ----- the size of the aggregate, which the code computes on size_t -----

  /** Room for req bytes, as a legal chunk size, on unbounded integers. */
  function Room(req: int): int { if req < MIN_REQUEST then MIN_CHUNK_SIZE else req + 23 - (req + 23) % 16 }

  /** What the first i elements need. */
  function RoomSum(sizes: seq<int>, same: bool, i: nat): int
    requires i > 0 ==> |sizes| >= (if same then 1 else i)
  {
    if i == 0 then 0 else RoomSum(sizes, same, i - 1) + Room(if same then sizes[0] else sizes[i - 1])
  }

  /** What all elements and their pointer array need. */
  function Needed(n: nat, sizes: seq<int>, same: bool, supplied: bool): int
    requires |sizes| == (if same then 1 else n)
  {
    RoomSum(sizes, same, n) + if supplied then 0 else Room(8 * n)
  }

  /** Neither a padded size nor the sum of all wraps. */
  predicate NoOverflow(n: nat, sizes: seq<int>, same: bool, supplied: bool)
    requires |sizes| == (if same then 1 else n)
  {
    && (forall i :: 0 <= i < |sizes| ==> Padded(sizes[i])) && (supplied || Padded(8 * n))
    && Sum(ChunkSizes(n, sizes, same), n) + ArraySize(n, supplied) < SIZE_RANGE
  }

  lemma RoomIs(req: int)
    requires 0 <= req
    ensures Room(req) >= req + 8 && Room(req) >= 32 && (Padded(req) <==> Room(req) < SIZE_RANGE)
    ensures Padded(req) ==> Room(req) == Request2Size(req)
  {
  }

  lemma {:induction false} RoomSumIs(n: nat, sizes: seq<int>, same: bool, i: nat)
    requires |sizes| == (if same then 1 else n) && i <= n && forall j :: 0 <= j < |sizes| ==> Padded(sizes[j])
    ensures RoomSum(sizes, same, i) == Sum(ChunkSizes(n, sizes, same), i)
  {
    if i > 0 {
      RoomSumIs(n, sizes, same, i - 1);
      RoomIs(if same then sizes[0] else sizes[i - 1]);
    }
  }

  lemma {:induction false} RoomSumMono(sizes: seq<int>, same: bool, j: nat, i: nat)
    requires j < i && |sizes| >= (if same then 1 else i) && forall k :: 0 <= k < |sizes| ==> sizes[k] >= 0
    ensures RoomSum(sizes, same, i) >= RoomSum(sizes, same, j) + Room(if same then sizes[0] else sizes[j])
    ensures RoomSum(sizes, same, j) >= 0
    decreases i
  {
    hide Room;
    RoomIs(if same then sizes[0] else sizes[i - 1]);
    if j < i - 1 {
      RoomSumMono(sizes, same, j, i - 1);
    } else if j > 0 {
      RoomSumMono(sizes, same, j - 1, i - 1);
      RoomIs(if same then sizes[0] else sizes[j - 1]);
    }
  }

  /** Nothing wraps exactly when all that is needed fits size_t. */
  lemma OverflowCondition(n: nat, sizes: seq<int>, same: bool, supplied: bool)
    requires n > 0 && |sizes| == (if same then 1 else n) && forall i :: 0 <= i < |sizes| ==> 0 <= sizes[i] < SIZE_RANGE
    ensures NoOverflow(n, sizes, same, supplied) <==> Needed(n, sizes, same, supplied) < SIZE_RANGE
    ensures NoOverflow(n, sizes, same, supplied) ==>
        Needed(n, sizes, same, supplied) == Sum(ChunkSizes(n, sizes, same), n) + ArraySize(n, supplied)
  {
    hide Room, Sum, RoomSum;
    RoomIs(8 * n);
    RoomIs(sizes[0]);
    RoomSumMono(sizes, same, 0, n);
    if Needed(n, sizes, same, supplied) < SIZE_RANGE {
      forall i | 0 <= i < |sizes| ensures Padded(sizes[i]) {
        RoomSumMono(sizes, same, i, n);
        RoomIs(sizes[i]);
      }
    }
    if forall i :: 0 <= i < |sizes| ==> Padded(sizes[i]) { RoomSumIs(n, sizes, same, n); }
  }

  /** Two elements of 2^63 bytes: the aggregate the code asks for is a smallest chunk. */
  lemma OverflowOnce()
    ensures var sizes := [0x8000_0000_0000_0000];
            !NoOverflow(2, sizes, true, true) && 2 * Request2Size(sizes[0]) % SIZE_RANGE == MIN_CHUNK_SIZE
  {
    var e := Request2Size(0x8000_0000_0000_0000);
    assert e == 0x8000_0000_0000_0010;
    SumSame(ChunkSizes(2, [0x8000_0000_0000_0000], true), e, 2);
  }

  /** for (i = 0; i != n_elements; ++i) contents_size += request2size(sizes[i]). */
  method AddUp(n: nat, sizes: seq<int>, ghost reqs: seq<int>, ghost exact: bool) returns (contents: int)
    requires n == |sizes| == |reqs| && forall i :: 0 <= i < n ==> reqs[i] == Request2Size(sizes[i])
    requires exact ==> Legal(reqs) && Sum(reqs, n) < SIZE_RANGE
    ensures 0 <= contents < SIZE_RANGE && (exact ==> contents == Sum(reqs, n))
  {
    hide Legal, Request2Size;
    contents := 0;
    for i := 0 to n
      invariant 0 <= contents < SIZE_RANGE && (exact ==> contents == Sum(reqs, i))
    {
      if exact {
        SumMono(reqs, i + 1, n);
        SumMono(reqs, 0, i + 1);
        NoWrapMod(Sum(reqs, i + 1));
      }
      contents := (contents + Request2Size(sizes[i])) % SIZE_RANGE;
    }
  }

  /** array_size, element_size, contents_size and their sum: on size_t it is what is needed exactly when
      nothing wraps, which the code does not check. */
  method AggregateSize(n: nat, sizes: seq<int>, same: bool, supplied: bool)
      returns (elementSize: int, contents: int, arraySize: int, size: int)
    requires n > 0 && |sizes| == (if same then 1 else n) && forall i :: 0 <= i < |sizes| ==> 0 <= sizes[i] < SIZE_RANGE
    ensures elementSize == if same then Request2Size(sizes[0]) else 0
    ensures 0 <= size < SIZE_RANGE
        && (size == Needed(n, sizes, same, supplied) <==> NoOverflow(n, sizes, same, supplied))
    ensures NoOverflow(n, sizes, same, supplied) ==>
              contents == Sum(ChunkSizes(n, sizes, same), n) && arraySize == ArraySize(n, supplied)
                  && size == contents + arraySize
  {
    hide Sum, Legal, Request2Size, Needed, Room, RoomSum;
    ghost var reqs, exact := ChunkSizes(n, sizes, same), NoOverflow(n, sizes, same, supplied);
    OverflowCondition(n, sizes, same, supplied);
    arraySize := if supplied then 0 else Request2Size(8 * n % SIZE_RANGE);
    if exact { ExactSizes(n, sizes, same, supplied); }
    if same {
      elementSize := Request2Size(sizes[0]);
      contents := n * elementSize % SIZE_RANGE;
    } else {
      elementSize := 0;
      contents := AddUp(n, sizes, reqs, exact);
    }
    size := (contents + arraySize) % SIZE_RANGE;
  }

  lemma ExactSizes(n: nat, sizes: seq<int>, same: bool, supplied: bool)
    requires n > 0 && |sizes| == (if same then 1 else n) && NoOverflow(n, sizes, same, supplied)
    ensures var c, a := Sum(ChunkSizes(n, sizes, same), n), ArraySize(n, supplied);
            && Legal(ChunkSizes(n, sizes, same)) && c < SIZE_RANGE && (c + a) % SIZE_RANGE == c + a
            && (same ==> n * Request2Size(sizes[0]) % SIZE_RANGE == c)
    ensures !supplied ==> Request2Size(8 * n % SIZE_RANGE) == ArraySize(n, supplied)
  {
    hide Sum, Legal, Request2Size;
    var reqs := ChunkSizes(n, sizes, same);
    SizesLegal(n, sizes, same);
    SumMono(reqs, 0, n);
    if !supplied {
      LeastSize(8 * n, MIN_CHUNK_SIZE);
      NoWrapMod(8 * n);
    }
    NoWrapMod(Sum(reqs, n) + ArraySize(n, supplied));
    if same {
      SumSame(reqs, Request2Size(sizes[0]), n);
      NoWrapMod(n * Request2Size(sizes[0]));
    }
  }

  /** A legal chunk size, less the head word, is turned back into itself. */
  lemma SameRequest(size: int)
    requires 32 <= size && size - 8 < MAX_REQUEST && size % 16 == 0
    ensures RequestSize(size - 8) == size
  {
  }

  /** The first bytes of every element, all that its owner may use, are zero. */
  ghost predicate ElementsZero(mem: Mem, p0: int, reqs: seq<int>) {
    forall j: nat, i {:trigger BlockAt(mem, p0 + Sum(reqs, j) + 16, i)} :: j < |reqs| && 0 <= i < reqs[j] - 8 ==>
        BlockAt(mem, p0 + Sum(reqs, j) + 16, i) == 0
  }

  lemma InNoHead(p0: int, reqs: seq<int>, j: nat, w: int)
    requires Legal(reqs) && j < |reqs| && p0 + Sum(reqs, j) + 16 <= w <= p0 + Sum(reqs, j) + reqs[j]
    ensures NoHead(w, p0, reqs, |reqs|)
  {
    hide Sum;
    assert Sum(reqs, j + 1) >= Sum(reqs, j) + reqs[j] by { SumMono(reqs, j, j + 1); }
    forall k: nat {:trigger Sum(reqs, k)} | k < |reqs| ensures w != p0 + Sum(reqs, k) + 8 {
      if k <= j { SumMono(reqs, k, j); } else { SumMono(reqs, j + 1, k); }
    }
  }

  lemma ElementByte(mem1: Mem, mem2: Mem, p0: int, total: int, n: int, reqs: seq<int>, j: nat, i: int)
    requires Legal(reqs) && p0 % 8 == 0 && OnlyHeads(mem1, mem2, p0, total, reqs, |reqs|)
        && Sum(reqs, |reqs|) <= total && Sum(reqs, |reqs|) - 8 <= n
    requires j < |reqs| && 0 <= i < reqs[j] - 8 && Zeroed(mem1, p0 + 16, n)
    ensures BlockAt(mem2, p0 + Sum(reqs, j) + 16, i) == 0
  {
    hide Byte, ByteAt, OnlyHeads, NoHead, Sum, Legal, Word;
    var q := p0 + Sum(reqs, j);
    SumMono(reqs, j, |reqs|);
    SumMono(reqs, 0, j);
    ElementAligned(reqs, j, p0);
    HeapRealloc.WordInside(q, reqs[j], i);
    InNoHead(p0, reqs, j, Word(q + 16, i / 8));
    HeadsAt(mem1, mem2, p0, total, reqs, Word(q + 16, i / 8));
    SameByte(mem1, mem2, q + 16, i);
    assert BlockAt(mem1, q + 16, i) == BlockAt(mem1, p0 + 16, Sum(reqs, j) + i);
  }

  lemma ElementAligned(reqs: seq<int>, j: nat, p0: int)
    requires Legal(reqs) && j < |reqs| && p0 % 8 == 0
    ensures (p0 + Sum(reqs, j) + 16) % 8 == 0 && reqs[j] % 8 == 0
  {
    hide Sum;
    SumMono(reqs, 0, j);
    SumMono(reqs, j, j);
    assert reqs[j] % 16 == 0;
    Aligned8(p0, Sum(reqs, j));
  }

  lemma Aligned8(p0: int, s: int)
    requires p0 % 8 == 0 && s % 16 == 0
    ensures (p0 + s + 16) % 8 == 0
  {
  }

  lemma HeadsAt(mem1: Mem, mem2: Mem, p0: int, total: int, reqs: seq<int>, w: int)
    requires OnlyHeads(mem1, mem2, p0, total, reqs, |reqs|) && p0 + 16 <= w <= p0 + total && NoHead(w, p0, reqs, |reqs|)
    ensures Rd(mem2, w) == Rd(mem1, w)
  {
  }

  lemma AllZero(mem1: Mem, mem2: Mem, p0: int, total: int, n: int, reqs: seq<int>)
    requires Legal(reqs) && p0 % 8 == 0 && OnlyHeads(mem1, mem2, p0, total, reqs, |reqs|)
        && Sum(reqs, |reqs|) <= total && Sum(reqs, |reqs|) - 8 <= n
    requires Zeroed(mem1, p0 + 16, n)
    ensures ElementsZero(mem2, p0, reqs)
  {
    hide Zeroed, OnlyHeads, BlockAt;
    forall j: nat, i {:trigger BlockAt(mem2, p0 + Sum(reqs, j) + 16, i)} | j < |reqs|
        && 0 <= i < reqs[j] - 8 ensures BlockAt(mem2, p0 + Sum(reqs, j) + 16, i) == 0 {
      ElementByte(mem1, mem2, p0, total, n, reqs, j, i);
    }
  }

  /** What ialloc returns: null; the caller's array as it is; the block that stands for an empty
      array; or the array with one pointer to each element. */
  datatype Result = Null | Unchanged | Empty(mem: int) | Elements(arr: PointerArray, ptrs: seq<int>)

  /** The chunk size of the pointer array. */
  function ArraySize(n: nat, supplied: bool): int {
    if supplied then 0 else Request2Size(8 * n)
  }

  /** The blocks ialloc made, besides the others: the elements, and the array when it is its own. */
  ghost predicate Independent(live0: Sizes, live: Sizes, reqs: seq<int>, arr: PointerArray, ptrs: seq<int>) {
    exists p0: int, total: int, s: int {:trigger IndependentAt(live0, live, reqs, arr, ptrs, p0, total, s)} ::
      IndependentAt(live0, live, reqs, arr, ptrs, p0, total, s)
  }

  /** No block of live0 starts inside the n bytes from p0 on. */
  ghost predicate Apart(live0: Sizes, p0: int, n: int) {
    forall a :: a in live0 ==> a < p0 || a >= p0 + n
  }

  ghost predicate IndependentAt(live0: Sizes, live: Sizes, reqs: seq<int>, arr: PointerArray, ptrs: seq<int>,
      p0: int, total: int, s: int) {
    && Apart(live0, p0, total + (if arr.InHeap? then s else 0))
    && match arr
    case Supplied => Divided(live0, live, p0, total, reqs, ptrs)
        && Sum(reqs, |reqs|) <= total < Sum(reqs, |reqs|) + MIN_CHUNK_SIZE
    case InHeap(at) =>
      at - 16 == p0 + total && Divided(live0[at - 16 := s], live, p0, total, reqs, ptrs)
      && total == Sum(reqs, |reqs|)
      && s >= 8 * |reqs| + 8
  }

  lemma OutsideBlock(m: Heap, live0: Sizes, p: int)
    requires m.Inv(0, 0) && p in m.live && p !in live0 && m.live == live0[p := m.live[p]]
    ensures Apart(live0, p, m.live[p])
  {
    hide Tiling.Aligned, Heads, Feet, IndexOk, TopOk, Partition;
    forall a | a in live0 ensures a < p || a >= p + m.live[p] {
      assert Before(m.chunks, p, a);
    }
  }

  /** What the aggregate chunk is before it is split: a hole, with the pointer array set apart. */
  ghost predicate Ready(m: Heap, p: int, total: int, arr: PointerArray, live0: Sizes, n: nat, s: int)
    reads m
  {
    && m.Inv(p, 0) && m.HoleIs(p, total) && m.chunks[p].pin && (m.dvsize != 0 ==> m.dv != p)
    && m.live == (if arr.InHeap? then live0[arr.at - 16 := s] else live0)
    && (arr.InHeap? ==> arr.at - 16 == p + total && s >= 8 * n + 8 && arr.at - 16 !in live0)
  }

  /** Clear the elements, if asked to, and set the pointer array apart, if there is to be one. */
  method Prepare(m: Heap, mem: int, n: nat, contents: int, arraySize: int, clear: bool, supplied: bool,
      ghost live0: Sizes)
    returns (total: int, arr: PointerArray, ghost s: int, ghost mem1: Mem)
    requires m.Inv(0, 0) && m.top != 0 && mem - 16 in m.live && mem - 16 !in live0
        && m.live == live0[mem - 16 := m.live[mem - 16]] && m.Pinned(mem - 16)
    requires contents >= 32 && contents % 16 == 0
    requires if supplied then arraySize == 0 else arraySize >= 8 * n + 8 && arraySize >= 32
    requires contents + arraySize <= m.live[mem - 16] < contents + arraySize + MIN_CHUNK_SIZE
    modifies m`mem, m`chunks, m`live
    ensures arr.InHeap? == !supplied && Ready(m, mem - 16, total, arr, live0, n, s)
    ensures (supplied ==> s == 0) && (!supplied ==> total == contents) && total + s == old(m.live)[mem - 16]
    ensures clear ==> Zeroed(mem1, mem, contents - 8)
    ensures (forall w {:trigger Rd(m.mem, w)} :: w <= mem - 16 + total ==> Rd(m.mem, w) == Rd(mem1, w)) && mem % 8 == 0
    ensures BodiesSame(old(m.mem), m.mem, live0)
  {
    hide Tiled, Tiling.Aligned, Heads, Feet, IndexOk, TopOk, Partition, LiveOk, BodiesSame, Zeroed;
    ghost var mem0 := m.mem;
    HeapRealloc.LegalSize(m, mem - 16);
    HeapChecks.LiveChecks(m, mem - 16);
    var p := mem - 16;
    var remainder := ChunkSize(m.mem, p);
    assert !HeapChecks.IsMmapped(m.mem, p);
    NothingWritten(m.mem, live0);
    if clear { ClearAggregate(m, mem, remainder - 8 - arraySize, contents - 8, live0); }
    mem1 := m.mem;
    Release(m, p);
    assert m.live == live0;
    arr := Supplied;
    s := 0;
    if !supplied {
      arr := InHeap(p + contents + 16);
      s := remainder - contents;
      SplitBack(m, p, contents, remainder - contents);
      FewerBodies(mem1, m.mem, live0, m.live);
      BodiesSameTrans(mem0, mem1, m.mem, live0);
      remainder := contents;
    }
    total := remainder;
  }

  /** memset(mem, 0, remainder_size - SIZE_T_SIZE - array_size). */
  method ClearAggregate(m: Heap, mem: int, n: int, ghost k: int, ghost live0: Sizes)
    requires m.Inv(0, 0) && m.top != 0 && mem - 16 in m.live && mem - 16 !in live0
        && m.live == live0[mem - 16 := m.live[mem - 16]]
    requires 0 <= k <= n <= m.live[mem - 16] - 8
    modifies m`mem
    ensures m.Inv(0, 0) && Zeroed(m.mem, mem, k) && BodiesSame(old(m.mem), m.mem, live0)
  {
    hide Tiled, Tiling.Aligned, Heads, Feet, IndexOk, TopOk, Partition, LiveOk, BodiesSame, BlockAt;
    ClearBlock(m, mem, n);
    assert m.live - {mem - 16} == live0;
  }

  lemma HeadsFrom(mem1: Mem, mem2: Mem, mem3: Mem, p0: int, total: int, reqs: seq<int>)
    requires OnlyHeads(mem2, mem3, p0, total, reqs, |reqs|)
    requires forall w {:trigger Rd(mem2, w)} :: w <= p0 + total ==> Rd(mem2, w) == Rd(mem1, w)
    ensures OnlyHeads(mem1, mem3, p0, total, reqs, |reqs|)
  {
    hide NoHead;
    forall w {:trigger Rd(mem3, w)} | p0 + 16 <= w <= p0 + total
        && NoHead(w, p0, reqs, |reqs|) ensures Rd(mem3, w) == Rd(mem1, w) {
      assert Rd(mem3, w) == Rd(mem2, w);
    }
  }

  /** The part of ialloc after malloc: clear, set the array apart, split. */
  method Divide(m: Heap, mem: int, n: nat, sizes: seq<int>, elementSize: int, contents: int, arraySize: int,
      clear: bool, supplied: bool, ghost live0: Sizes, ghost reqs: seq<int>)
    returns (arr: PointerArray, ptrs: seq<int>, ghost total: int, ghost s: int)
    requires m.Inv(0, 0) && m.top != 0 && mem - 16 in m.live && mem - 16 !in live0
        && m.live == live0[mem - 16 := m.live[mem - 16]] && m.Pinned(mem - 16)
    requires 0 < n == |reqs| && Legal(reqs) && contents == Sum(reqs, n) && (elementSize == 0 ==> |sizes| == n)
    requires forall i :: 0 <= i < n ==> reqs[i] == if elementSize != 0 then elementSize else Request2Size(sizes[i])
    requires if supplied then arraySize == 0 else arraySize >= 8 * n + 8 && arraySize >= 32
    requires contents + arraySize <= m.live[mem - 16] < contents + arraySize + MIN_CHUNK_SIZE
    modifies m`mem, m`chunks, m`live
    ensures m.Inv(0, 0) && arr.InHeap? == !supplied && Stored(m.mem, arr, ptrs)
    ensures IndependentAt(live0, m.live, reqs, arr, ptrs, mem - 16, total, s) && total + s == old(m.live)[mem - 16]
    ensures clear ==> ElementsZero(m.mem, mem - 16, reqs) && Pointers(ptrs, mem - 16, reqs, n)
    ensures BodiesSame(old(m.mem), m.mem, live0)
  {
    hide Tiled, Tiling.Aligned, Heads, Feet, IndexOk, TopOk, Partition, LiveOk, BodiesSame, Stored, OnlyHeads,
        ElementsZero, Zeroed, Legal, Sum, Request2Size, Pointers;
    ghost var mem0, p := m.mem, mem - 16;
    OutsideBlock(m, live0, p);
    SumMono(reqs, 0, n);
    SumMono(reqs, n, n);
    var whole, arr', s', mem1 := Prepare(m, mem, n, contents, arraySize, clear, supplied, live0);
    arr, total, s := arr', whole, s';
    ghost var mem2, live2 := m.mem, m.live;
    OthersOf(live0, live2, arr, s);
    ptrs := SplitElements(m, mem - 16, whole, elementSize, sizes, n, arr, reqs);
    BodiesSameTrans(mem0, mem2, m.mem, live0);
    CheckElements(m, live2, p, total, reqs, arr, ptrs);
    assert IndependentAt(live0, m.live, reqs, arr, ptrs, p, total, s);
    if clear {
      HeadsFrom(mem1, mem2, m.mem, p, total, reqs);
      AllZero(mem1, m.mem, p, total, contents - 8, reqs);
    }
  }

  /** The DEBUG part of ialloc: check_inuse_chunk of the pointer array and of every element. */
  method CheckElements(m: Heap, ghost live0: Sizes, ghost p0: int, ghost total: int, ghost reqs: seq<int>,
      arr: PointerArray, ptrs: seq<int>)
    requires m.Inv(0, 0) && Divided(live0, m.live, p0, total, reqs, ptrs) && Legal(reqs) && Sum(reqs, |reqs|) <= total
    requires arr.InHeap? ==> arr.at - 16 in live0
  {
    hide Tiled, Tiling.Aligned, Heads, Feet, IndexOk, TopOk, Partition, LiveOk, Divided, Legal, Sum,
        HeapChecks.InuseChunk;
    if arr.InHeap? {
      DividedKeys(live0, m.live, p0, total, reqs, ptrs, arr.at - 16);
      HeapChecks.LiveChecks(m, arr.at - 16);
      assert HeapChecks.InuseChunk(m.mem, arr.at - 16, m.leastAddr);
    }
    PointersOf(live0, m.live, p0, total, reqs, ptrs);
    for i := 0 to |ptrs| {
      DividedAt(live0, m.live, p0, total, reqs, ptrs, i);
      HeapChecks.LiveChecks(m, ptrs[i] - 16);
      assert HeapChecks.InuseChunk(m.mem, ptrs[i] - 16, m.leastAddr);
    }
  }

  lemma PointersOf(live0: Sizes, live: Sizes, p0: int, total: int, reqs: seq<int>, ptrs: seq<int>)
    requires Divided(live0, live, p0, total, reqs, ptrs)
    ensures |ptrs| == |reqs|
  {
  }

  lemma OthersOf(live0: Sizes, live2: Sizes, arr: PointerArray, s: int)
    requires live2 == (if arr.InHeap? then live0[arr.at - 16 := s] else live0)
        && (arr.InHeap? ==> arr.at - 16 !in live0)
    ensures Others(live2, arr) == live0
  {
  }

  lemma SizeFits(n: nat, sizes: seq<int>, same: bool, supplied: bool)
    requires n > 0 && |sizes| == (if same then 1 else n) && NoOverflow(n, sizes, same, supplied)
    ensures var reqs := ChunkSizes(n, sizes, same);
            var size := Sum(reqs, n) + ArraySize(n, supplied);
            Legal(reqs) && 32 <= size < SIZE_RANGE && (size - 8 < MAX_REQUEST ==> RequestSize(size - 8) == size)
                && Sum(reqs, n) >= 32
    ensures if supplied then ArraySize(n, supplied) == 0 else
        ArraySize(n, supplied) >= 8 * n + 8
        && ArraySize(n, supplied) >= 32
  {
    hide Legal, Sum, Request2Size, RequestSize;
    var reqs := ChunkSizes(n, sizes, same);
    SizesLegal(n, sizes, same);
    SumMono(reqs, 0, n);
    SumMono(reqs, n, n);
    if !supplied { LeastSize(8 * n, MIN_CHUNK_SIZE); }
    var size := Sum(reqs, n) + ArraySize(n, supplied);
    DivUnique(size, 16, Sum(reqs, n) / 16 + ArraySize(n, supplied) / 16, 0);
    if size - 8 < MAX_REQUEST { SameRequest(size); }
  }

  /** From v0 by an allocation of `size` bytes to v1, and by the division of that block into the elements, and the
      array, to v. */
  ghost predicate DividedThrough(v0: View, v1: View, v: View, size: int, reqs: seq<int>, arr: PointerArray,
      ptrs: seq<int>, mem: int, total: int, s: int)
  {
    && mem != 0 && Allocated(v0, v1, size, mem) && mem - 16 in v1.live && v1.live[mem - 16] == total + s
    && IndependentAt(v0.live, v.live, reqs, arr, ptrs, mem - 16, total, s)
        && v == v1.(live := v.live, chunks := v.chunks)
  }

  ghost predicate Aggregated(v0: View, v: View, size: int, reqs: seq<int>, arr: PointerArray, ptrs: seq<int>) {
    exists v1: View, mem, total, s :: DividedThrough(v0, v1, v, size, reqs, arr, ptrs, mem, total, s)
  }

  /** The chunk size asked of malloc. */
  function WholeSize(n: nat, sizes: seq<int>, same: bool, supplied: bool): int
    requires |sizes| == if same then 1 else n
  {
    Sum(ChunkSizes(n, sizes, same), n) + ArraySize(n, supplied)
  }

  /** The chunk that stands for an empty array. */
  method NoElements(m: Heap) returns (r: Result)
    requires m.Valid()
    modifies m
    ensures m.Valid() && (r.Null? || (r.Empty? && NewBlock(old(m.live), m.live, MIN_CHUNK_SIZE, r.mem - 16)))
    ensures r.Null? ==> m.live == old(m.live) && m.mem == old(m.mem) && m.chunks == old(m.chunks)
    ensures r.Null? <==> old(NoSpace(m, 0))
    ensures Allocated(old(ViewOf(m)), ViewOf(m), MIN_CHUNK_SIZE, if r.Null? then 0 else r.mem)
    ensures BodiesSame(old(m.mem), m.mem, old(m.live))
  {
    hide BodiesSame, NoSpace, Allocated, Heap.Inv, Heap.Uninitialised, RequestSize;
    assert RequestSize(0) == MIN_CHUNK_SIZE by { SmallestRequest(); }
    var mem := Malloc(m, 0);
    r := if mem == 0 then Null else Empty(mem);
  }

  /** The part of ialloc from malloc on. */
  method AllocElements(m: Heap, n: nat, sizes: seq<int>, elementSize: int, contents: int, arraySize: int, size: int,
      clear: bool, supplied: bool, ghost reqs: seq<int>)
    returns (r: Result)
    requires m.Valid() && 0 < n == |reqs| && Legal(reqs) && contents == Sum(reqs, n)
        && (elementSize == 0 ==> |sizes| == n)
    requires forall i :: 0 <= i < n ==> reqs[i] == if elementSize != 0 then elementSize else Request2Size(sizes[i])
    requires if supplied then arraySize == 0 else arraySize >= 8 * n + 8 && arraySize >= 32
    requires size == contents + arraySize && 32 <= size < SIZE_RANGE
        && (size - 8 < MAX_REQUEST ==> RequestSize(size - 8) == size)
    modifies m
    ensures m.Valid() && (r.Null? || (r.Elements? && r.arr.InHeap? == !supplied))
    ensures r.Null? ==> m.live == old(m.live) && m.mem == old(m.mem) && m.chunks == old(m.chunks)
    ensures r.Null? <==> old(NoSpace(m, size - 8))
    ensures r.Null? ==> Allocated(old(ViewOf(m)), ViewOf(m), RequestSize(size - 8), 0)
    ensures r.Elements? ==>
        Aggregated(old(ViewOf(m)), ViewOf(m), size, reqs, r.arr, r.ptrs)
        && Independent(old(m.live), m.live, reqs, r.arr, r.ptrs) && Stored(m.mem, r.arr, r.ptrs)
    ensures r.Elements? && clear ==> |r.ptrs| == n > 0 && ElementsZero(m.mem, r.ptrs[0] - 16, reqs)
    ensures BodiesSame(old(m.mem), m.mem, old(m.live))
  {
    hide BodiesSame, Stored, Independent, ElementsZero, Legal, Sum, NoSpace, RequestSize, Request2Size, Allocated,
        Aggregated, Heap.Inv, IndependentAt, Heap.Uninitialised, NewBlock;
    ghost var mem0, live0, v0 := m.mem, m.live, ViewOf(m);
    var mem := Malloc(m, size - 8);
    if mem == 0 { return Null; }
    NewIsLive(m, live0, size, mem - 16);
    ghost var mem1, v1 := m.mem, ViewOf(m);
    var arr, ptrs, total, s := Divide(m, mem, n, sizes, elementSize, contents, arraySize, clear, supplied, live0, reqs);
    BodiesSameTrans(mem0, mem1, m.mem, live0);
    FirstPointer(ptrs, mem - 16, reqs, n, clear);
    StillTop(m);
    DivideDone(m, v0, v1, size, reqs, arr, ptrs, mem, total, s);
    r := Elements(arr, ptrs);
  }

  /** ialloc for sizes whose sum does not overflow: adjacent blocks of their own, one for each
      element, all zero when asked to clear; null, with nothing changed, when malloc fails. */
  method Ialloc(m: Heap, n: nat, sizes: seq<int>, same: bool, clear: bool, supplied: bool) returns (r: Result)
    requires m.Valid() && |sizes| == (if same then 1 else n) && NoOverflow(n, sizes, same, supplied)
    modifies m
    ensures m.Valid()
    ensures n == 0 && supplied ==> r == Unchanged
    ensures n == 0 && !supplied ==> r.Null? || (r.Empty? && NewBlock(old(m.live), m.live, MIN_CHUNK_SIZE, r.mem - 16))
    ensures n > 0 ==> r.Null? || (r.Elements? && r.arr.InHeap? == !supplied)
    ensures r.Null? || r.Unchanged? ==> m.live == old(m.live) && m.mem == old(m.mem) && m.chunks == old(m.chunks)
    ensures r.Null? <==>
        (n > 0 || !supplied)
        && old(NoSpace(m, if n == 0 then 0 else WholeSize(n, sizes, same, supplied) - 8))
    ensures r.Elements? ==>
        Independent(old(m.live), m.live, ChunkSizes(n, sizes, same), r.arr, r.ptrs) && Stored(m.mem, r.arr, r.ptrs)
    ensures r.Unchanged? ==> ViewOf(m) == old(ViewOf(m))
    ensures r.Null? ==>
        Allocated(old(ViewOf(m)), ViewOf(m),
            if n == 0 then MIN_CHUNK_SIZE else RequestSize(WholeSize(n, sizes, same, supplied) - 8), 0)
    ensures r.Empty? ==> Allocated(old(ViewOf(m)), ViewOf(m), MIN_CHUNK_SIZE, r.mem)
    ensures r.Elements? ==>
        Aggregated(old(ViewOf(m)), ViewOf(m), WholeSize(n, sizes, same, supplied), ChunkSizes(n, sizes, same),
            r.arr, r.ptrs)
    ensures r.Elements? && clear ==>
        |r.ptrs| == n > 0 && ElementsZero(m.mem, r.ptrs[0] - 16, ChunkSizes(n, sizes, same))
    ensures BodiesSame(old(m.mem), m.mem, old(m.live))
  {
    hide Tiled, Tiling.Aligned, Heads, Feet, IndexOk, TopOk, Partition, LiveOk, BodiesSame, Stored, Independent,
        ElementsZero, Legal, Sum, Exhausted, ServedFrom, NoSpace, BrkOk, RequestSize, Allocated, Aggregated,
        Heap.Inv, IndependentAt, Heap.Uninitialised;
    NothingWritten(m.mem, m.live);
    if n == 0 {
      if supplied { return Unchanged; }
      r := NoElements(m);
      return;
    }
    SizeFits(n, sizes, same, supplied);
    var elementSize, contents, arraySize, size := AggregateSize(n, sizes, same, supplied);
    r := AllocElements(m, n, sizes, elementSize, contents, arraySize, size, clear, supplied,
        ChunkSizes(n, sizes, same));
  }

  lemma DivideDone(m: Heap, v0: View, v1: View, size: int, reqs: seq<int>, arr: PointerArray, ptrs: seq<int>, mem: int,
      total: int, s: int)
    requires mem != 0 && Allocated(v0, v1, size, mem) && mem - 16 in v1.live && v1.live[mem - 16] == total + s
    requires IndependentAt(v0.live, m.live, reqs, arr, ptrs, mem - 16, total, s)
        && ViewOf(m) == v1.(live := m.live, chunks := m.chunks)
    ensures Aggregated(v0, ViewOf(m), size, reqs, arr, ptrs) && Independent(v0.live, m.live, reqs, arr, ptrs)
  {
    assert DividedThrough(v0, v1, ViewOf(m), size, reqs, arr, ptrs, mem, total, s);
  }

  lemma SmallestRequest()
    ensures RequestSize(0) == MIN_CHUNK_SIZE
  {
  }

  lemma StillTop(m: Heap)
    requires m.Inv(0, 0)
    ensures m.top != 0
  {
    hide Tiling.Aligned, Heads, Feet, IndexOk, TopOk, Partition, LiveOk;
  }

  lemma FirstPointer(ptrs: seq<int>, p0: int, reqs: seq<int>, n: nat, clear: bool)
    requires n == |reqs| && n > 0 && (clear ==> Pointers(ptrs, p0, reqs, n))
    ensures clear ==> |ptrs| == n && ptrs[0] == p0 + 16
  {
    if clear { assert ptrs[0] == p0 + Sum(reqs, 0) + 16; }
  }

  lemma NewIsLive(m: Heap, live0: Sizes, nb: int, p: int)
    requires m.Valid() && NewBlock(live0, m.live, nb, p)
    ensures m.top != 0 && m.Inv(0, 0) && p in m.live && p !in live0 && m.live == live0[p := m.live[p]]
        && nb <= m.live[p] < nb + MIN_CHUNK_SIZE
  {
    hide Tiled, Tiling.Aligned, Heads, Feet, IndexOk, TopOk, Partition, LiveOk;
  }
}
