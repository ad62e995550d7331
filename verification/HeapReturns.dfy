/** The steps by which a chunk goes back to the free ones: with the hole, a chunk still tagged in use
    but live no more, merged with its neighbours. */
module HeapReturns {
  import opened BinIndex
  import opened Memory
  import opened Tiling
  import opened Macros
  import opened Index
  import opened HeapTags
  import opened HeapState
  import opened HeapSteps
  import opened HeapMoves
  import opened HeapChunks

  /** A live chunk: in use, tagged so, and none of dv, top and the bins. */
  lemma LiveIsChunk(c: Chunks, base: int, top: int, f: Sizes, dv: int, dvsize: int, orphan: int, live: Sizes, p: int)
    requires Tiled(c, base, top) && Tiling.Aligned(c) && base > 0 && Partition(c, f, dv, dvsize, 0, orphan)
        && LiveOk(c, live, 0) && p in live
    ensures p in c && c[p].cin && c[p].size == live[p] && p != 0 && base <= p < p + live[p] <= top && live[p] >= 32
        && p % 16 == 0 && live[p] % 16 == 0
    ensures dvsize != 0 ==> p != dv
  {
    ChunkAt(c, base, top, p);
  }

  lemma LiveReleased(c: Chunks, f: Sizes, dv: int, dvsize: int, live: Sizes, mem: Mem, p: int)
    requires Partition(c, f, dv, dvsize, 0, 0) && LiveOk(c, live, 0) && Heads(mem, c, 0) && p in live && 0 !in c
    ensures Partition(c, f, dv, dvsize, p, 0) && LiveOk(c, live - {p}, p) && Heads(mem, c, p) && p in c
        && Rd(mem, p + HEAD) == HeadWord(c[p])
  {
  }

  /** From here on p is live no more. */
  ghost method Release(m: Heap, p: int)
    requires m.Inv(0, 0) && p in m.live
    modifies m`live
    ensures m.Inv(p, 0) && m.live == old(m.live) - {p} && p != 0 && p in m.chunks
        && m.chunks[p].size == old(m.live)[p] && m.chunks[p].cin
    ensures m.dvsize != 0 ==> m.dv != p
    ensures Rd(m.mem, p + HEAD) == HeadWord(m.chunks[p])
  {
    hide Tiled, Tiling.Aligned, Heads, Feet, IndexOk, TopOk, Partition, LiveOk;
    NoZero(m.chunks, m.segBase, m.top);
    LiveIsChunk(m.chunks, m.segBase, m.top, m.binned, m.dv, m.dvsize, 0, m.live, p);
    LiveReleased(m.chunks, m.binned, m.dv, m.dvsize, m.live, m.mem, p);
    m.live := m.live - {p};
  }

  lemma LiveMergedBack(c: Chunks, c': Chunks, live: Sizes, q: int, p: int)
    requires LiveOk(c, live, p) && q in c && !c[q].cin && p == q + c[q].size && p in c && c[p].cin
        && c' == MergeBack(c, q)
    ensures LiveOk(c', live, q)
  {
  }

  lemma PartMergedBack(c: Chunks, c': Chunks, f: Sizes, dv: int, dvsize: int, p: int)
    requires Partition(c, f, dv, dvsize, p, 0) && dvsize != 0 && dv != p && p == dv + dvsize && p in c
        && c' == MergeBack(c, dv) && 0 !in c
    ensures Partition(c', f, dv, dvsize, dv, 0)
  {
  }

  /** The free chunk q, just taken out of its bin, becomes part of the hole after it. */
  ghost method ConsolidateBack(m: Heap, q: int, p: int)
    requires m.Inv(p, q) && q in m.chunks && q != 0 && p == q + m.chunks[q].size && p in m.chunks && m.chunks[p].cin
    requires m.dvsize != 0 ==> m.dv != p
    modifies m`chunks
    ensures m.Inv(q, 0) && m.HoleIs(q, old(m.chunks)[q].size + old(m.chunks)[p].size) && m.chunks[q].pin
    ensures m.dvsize != 0 ==> m.dv != q
    ensures p + old(m.chunks)[p].size == m.top <==> q + m.chunks[q].size == m.top
  {
    hide Tiled, Tiling.Aligned, Heads, Feet, IndexOk, TopOk, Partition, LiveOk, FreeSame;
    ghost var c := m.chunks;
    ghost var c' := MergeBack(c, q);
    OrphanIs(c, m.segBase, m.top, m.binned, m.dv, m.dvsize, p, q);
    if m.dvsize != 0 { DvNotOrphan(c, m.binned, m.dv, m.dvsize, p, q); }
    MergePrev(m.mem, c, c', m.segBase, m.top, q, p);
    PartitionAfter(c, c', m.binned, m.dv, m.dvsize, p, q, q, 0);
    LiveMergedBack(c, c', m.live, q, p);
    m.chunks := c';
  }

  lemma DvNotOrphan(c: Chunks, f: Sizes, dv: int, dvsize: int, hole: int, q: int)
    requires Partition(c, f, dv, dvsize, hole, q) && dvsize != 0 && dv != hole
    ensures dv != q
  {
  }

  /** The same when the chunk before the hole is dv: it stays dv, for the time being with a stale size. */
  ghost method ConsolidateBackDv(m: Heap, p: int)
    requires m.Inv(p, 0) && m.dvsize != 0 && m.dv != p && p == m.dv + m.dvsize && p in m.chunks && m.chunks[p].cin
    modifies m`chunks
    ensures m.Inv(m.dv, 0) && m.HoleIs(m.dv, m.dvsize + old(m.chunks)[p].size) && m.chunks[m.dv].pin
  {
    hide Tiled, Tiling.Aligned, Heads, Feet, IndexOk, TopOk, Partition, LiveOk, FreeSame;
    ghost var c := m.chunks;
    NoZero(c, m.segBase, m.top);
    DvFacts(c, m.binned, m.dv, m.dvsize, p);
    ghost var c' := MergeBack(c, m.dv);
    MergePrev(m.mem, c, c', m.segBase, m.top, m.dv, p);
    PartMergedBack(c, c', m.binned, m.dv, m.dvsize, p);
    LiveMergedBack(c, c', m.live, m.dv, p);
    m.chunks := c';
  }

  lemma DvFacts(c: Chunks, f: Sizes, dv: int, dvsize: int, hole: int)
    requires Partition(c, f, dv, dvsize, hole, 0) && dvsize != 0 && dv != hole
    ensures dv in c && !c[dv].cin && c[dv].size == dvsize
  {
  }

  // ----- the hole becomes a free chunk -----

  lemma LiveFreed(c: Chunks, c': Chunks, live: Sizes, h: int)
    requires LiveOk(c, live, h) && CinSet(c, c', h, false) && 0 !in c
    ensures LiveOk(c', live, 0)
  {
  }

  lemma NextInUse(c: Chunks, base: int, top: int, h: int)
    requires Tiled(c, base, top) && h in c && h + c[h].size in c
    ensures c[h].size >= 32 && h + c[h].size < top
    ensures c[h].pin && c[h + c[h].size].cin ==> FreeAllowed(c, h)
  {
    ChunkAt(c, base, top, h);
    ChunkAt(c, base, top, h + c[h].size);
  }

  lemma FreeAll(mem: Mem, mem': Mem, c: Chunks, c': Chunks, base: int, top: int, topsize: int, end: int, h: int, s: int,
                smallmap: nat, treemap: nat, bins: Bins, f: Sizes, dv: int, dvsize: int, live: Sizes)
    requires Tags(mem, c, base, top, h) && TopOk(mem, top, topsize, end) && end < SIZE_RANGE
    requires IndexOk(mem, smallmap, treemap, bins, f) && Partition(c, f, dv, dvsize, h, 0) && LiveOk(c, live, h)
    requires h in c && c[h].cin && c[h].pin && c[h].size == s && h != 0 && h + s in c && c[h + s].cin && s > 0
    requires dvsize != 0 ==> dv != h
    requires CinSet(c, c', h, false) && mem' == SetFreeWithPinuse(mem, h, s, h + s)
    ensures Tags(mem', c', base, top, 0) && TopOk(mem', top, topsize, end)
    ensures IndexOk(mem', smallmap, treemap, bins, f) && Partition(c', f, dv, dvsize, 0, h) && LiveOk(c', live, 0)
    ensures BodiesSame(mem, mem', live) && 0 !in c' && h in c' && c'[h].size == s
  {
    hide Tiled, Tiling.Aligned, Heads, Feet, IndexOk, TopOk, Partition, LiveOk, BodiesSame, SetFreeWithPinuse,
        TagWrites, FreeSame, FreeAllowed;
    NextInUse(c, base, top, h);
    NoZero(c, base, top);
    SetFree(mem, mem', c, c', base, top, h, s);
    LiveFreed(c, c', live, h);
    HoleNotBinned(c, f, dv, dvsize, h);
    NoZero(c', base, top);
    StepKeeps(mem, mem', c, c', base, top, topsize, end, h, 0, 0, h, h, h + s, h, h + s,
              smallmap, treemap, bins, f, dv, dvsize, live);
  }

  lemma HoleNotBinned(c: Chunks, f: Sizes, dv: int, dvsize: int, h: int)
    requires Partition(c, f, dv, dvsize, h, 0) && h in c && c[h].cin
    ensures h !in f
  {
  }

  /** set_free_with_pinuse: the hole, between chunks in use, is free and in no bin yet. */
  method FreeHole(m: Heap, h: int, s: int)
    requires m.Inv(h, 0) && m.HoleIs(h, s) && m.chunks[h].pin && h + s in m.chunks && m.chunks[h + s].cin
    requires m.dvsize != 0 ==> m.dv != h
    modifies m`mem, m`chunks
    ensures m.Inv(0, h) && h in m.chunks && m.chunks[h].size == s
    ensures BodiesSame(old(m.mem), m.mem, m.live)
  {
    hide Tiled, Tiling.Aligned, Heads, Feet, IndexOk, TopOk, Partition, LiveOk, BodiesSame, SetFreeWithPinuse, CinSet;
    ghost var mem0, c := m.mem, m.chunks;
    NextInUse(c, m.segBase, m.top, h);
    m.mem := SetFreeWithPinuse(m.mem, h, s, h + s);
    m.chunks := SetCin(c, h, false);
    FreeAll(mem0, m.mem, c, m.chunks, m.segBase, m.top, m.topsize, m.segBase + m.segSize, h, s,
            m.smallmap, m.treemap, m.bins, m.binned, m.dv, m.dvsize, m.live);
  }

  /** dvsize = psize; set_free_with_pinuse: the hole took over dv in front of it and is dv now. */
  method FreeHoleAsDv(m: Heap, h: int, s: int)
    requires m.Inv(h, 0) && m.HoleIs(h, s) && m.chunks[h].pin && h + s in m.chunks && m.chunks[h + s].cin
    requires m.dvsize != 0 && m.dv == h
    modifies m`mem, m`chunks, m`dvsize
    ensures m.Inv(0, 0) && m.dvsize == s
    ensures BodiesSame(old(m.mem), m.mem, m.live)
  {
    hide Tiled, Tiling.Aligned, Heads, Feet, IndexOk, TopOk, Partition, LiveOk, BodiesSame, SetFreeWithPinuse, CinSet;
    ghost var mem0, c := m.mem, m.chunks;
    NextInUse(c, m.segBase, m.top, h);
    DvDropped(c, m.binned, h, m.dvsize, 0);
    m.dvsize := s;
    m.mem := SetFreeWithPinuse(m.mem, h, s, h + s);
    m.chunks := SetCin(c, h, false);
    FreeAll(mem0, m.mem, c, m.chunks, m.segBase, m.top, m.topsize, m.segBase + m.segSize, h, s,
            m.smallmap, m.treemap, m.bins, m.binned, 0, 0, m.live);
    DvAttached(m.chunks, m.binned, h);
  }

  // ----- the hole and the free chunk after it become one -----

  lemma LiveMerged(c: Chunks, c': Chunks, live: Sizes, h: int)
    requires LiveOk(c, live, h) && h in c && h + c[h].size in c && !c[h + c[h].size].cin && c[h].cin
        && c' == MergeFreed(c, h) && 0 !in c && h != 0
    ensures LiveOk(c', live, 0)
  {
  }

  lemma MergeAll(mem: Mem, mem': Mem, c: Chunks, c': Chunks, base: int, top: int, topsize: int, end: int, h: int,
      n: int, s: int,
                 smallmap: nat, treemap: nat, bins: Bins, f: Sizes, dv: int, dvsize: int, live: Sizes)
    requires Tags(mem, c, base, top, h) && TopOk(mem, top, topsize, end) && end < SIZE_RANGE
    requires IndexOk(mem, smallmap, treemap, bins, f) && Partition(c, f, dv, dvsize, h, n) && LiveOk(c, live, h)
    requires h in c && c[h].cin && c[h].pin && n == h + c[h].size && h != 0 && n in c && !c[n].cin
        && s == c[h].size + c[n].size
    requires dvsize != 0 ==> dv != h
    requires c' == MergeFreed(c, h) && mem' == SetSizeAndPinuseOfFreeChunk(mem, h, s)
    ensures Tags(mem', c', base, top, 0) && TopOk(mem', top, topsize, end)
    ensures IndexOk(mem', smallmap, treemap, bins, f) && Partition(c', f, dv, dvsize, 0, h) && LiveOk(c', live, 0)
    ensures BodiesSame(mem, mem', live) && 0 !in c' && h in c' && c'[h].size == s && s > 0
  {
    hide Tiled, Tiling.Aligned, Heads, Feet, IndexOk, TopOk, Partition, LiveOk, BodiesSame,
        SetSizeAndPinuseOfFreeChunk, TagWrites, FreeSame;
    NextInUse(c, base, top, h);
    NoZero(c, base, top);
    MergeNext(mem, mem', c, c', base, top, h, n, s);
    LiveMerged(c, c', live, h);
    HoleNeverBinned(c, f, dv, dvsize, h, n);
    NoZero(c', base, top);
    StepKeeps(mem, mem', c, c', base, top, topsize, end, h, 0, n, h, h, h, h, h + s,
              smallmap, treemap, bins, f, dv, dvsize, live);
    ChunkAt(c', base, top, h);
    MergedIsBig(c', base, top, h);
  }

  lemma MergedIsBig(c: Chunks, base: int, top: int, h: int)
    requires Tiled(c, base, top) && h in c
    ensures c[h].size >= 32
  {
    ChunkAt(c, base, top, h);
  }

  lemma HoleNeverBinned(c: Chunks, f: Sizes, dv: int, dvsize: int, h: int, n: int)
    requires Partition(c, f, dv, dvsize, h, n) && h in c && c[h].cin
    ensures h !in f
  {
  }

  /** set_size_and_pinuse_of_free_chunk(p, psize + nsize) after next left its bin. */
  method MergeHole(m: Heap, h: int, n: int, s: int)
    requires m.Inv(h, n) && n != 0 && h in m.chunks && m.chunks[h].cin && m.chunks[h].pin && h != 0
    requires n == h + m.chunks[h].size && n in m.chunks && s == m.chunks[h].size + m.chunks[n].size
    requires m.dvsize != 0 ==> m.dv != h
    modifies m`mem, m`chunks
    ensures m.Inv(0, h) && h in m.chunks && m.chunks[h].size == s
    ensures BodiesSame(old(m.mem), m.mem, m.live)
  {
    hide Tiled, Tiling.Aligned, Heads, Feet, IndexOk, TopOk, Partition, LiveOk, BodiesSame, SetSizeAndPinuseOfFreeChunk;
    ghost var mem0, c := m.mem, m.chunks;
    OrphanIs(c, m.segBase, m.top, m.binned, m.dv, m.dvsize, h, n);
    m.mem := SetSizeAndPinuseOfFreeChunk(m.mem, h, s);
    m.chunks := MergeFreed(c, h);
    MergeAll(mem0, m.mem, c, m.chunks, m.segBase, m.top, m.topsize, m.segBase + m.segSize, h, n, s,
             m.smallmap, m.treemap, m.bins, m.binned, m.dv, m.dvsize, m.live);
  }

  /** ... and dvsize = psize, when the hole had taken over dv in front of it. */
  method MergeHoleIntoDv(m: Heap, h: int, n: int, s: int)
    requires m.Inv(h, n) && n != 0 && h in m.chunks && m.chunks[h].cin && m.chunks[h].pin && h != 0
    requires n == h + m.chunks[h].size && n in m.chunks && s == m.chunks[h].size + m.chunks[n].size
    requires m.dvsize != 0 && m.dv == h
    modifies m`mem, m`chunks, m`dvsize
    ensures m.Inv(0, 0) && m.dvsize == s
    ensures BodiesSame(old(m.mem), m.mem, m.live)
  {
    hide Tiled, Tiling.Aligned, Heads, Feet, IndexOk, TopOk, Partition, LiveOk, BodiesSame, SetSizeAndPinuseOfFreeChunk;
    ghost var mem0, c := m.mem, m.chunks;
    OrphanIs(c, m.segBase, m.top, m.binned, m.dv, m.dvsize, h, n);
    DvDropped(c, m.binned, h, m.dvsize, n);
    m.mem := SetSizeAndPinuseOfFreeChunk(m.mem, h, s);
    m.dvsize := s;
    m.chunks := MergeFreed(c, h);
    MergeAll(mem0, m.mem, c, m.chunks, m.segBase, m.top, m.topsize, m.segBase + m.segSize, h, n, s,
             m.smallmap, m.treemap, m.bins, m.binned, 0, 0, m.live);
    DvAttached(m.chunks, m.binned, h);
  }

  lemma DvNext(c: Chunks, f: Sizes, dv: int, dvsize: int, h: int)
    requires Partition(c, f, dv, dvsize, h, 0) && dvsize != 0 && dv != h && 0 !in c
    ensures dv in c && !c[dv].cin && c[dv].size == dvsize && Partition(c, f, 0, 0, h, dv) && dv != 0
  {
  }

  /** dsize = dvsize += psize; dv = p; set_size_and_pinuse_of_free_chunk(p, dsize): the chunk after the hole is dv. */
  method HoleBeforeDv(m: Heap, h: int, s: int)
    requires m.Inv(h, 0) && m.HoleIs(h, s) && m.chunks[h].pin && m.dvsize != 0 && m.dv == h + s && s != 0
    modifies m`mem, m`chunks, m`dvsize, m`dv
    ensures m.Inv(0, 0) && m.dv == h && m.dvsize == old(m.dvsize) + s
    ensures BodiesSame(old(m.mem), m.mem, m.live)
  {
    hide Tiled, Tiling.Aligned, Heads, Feet, IndexOk, TopOk, Partition, LiveOk, BodiesSame, SetSizeAndPinuseOfFreeChunk;
    ghost var mem0, c := m.mem, m.chunks;
    NoZero(c, m.segBase, m.top);
    DvNext(c, m.binned, m.dv, m.dvsize, h);
    var dsize := m.dvsize + s;
    m.dvsize := dsize;
    m.dv := h;
    m.mem := SetSizeAndPinuseOfFreeChunk(m.mem, h, dsize);
    m.chunks := MergeFreed(c, h);
    MergeAll(mem0, m.mem, c, m.chunks, m.segBase, m.top, m.topsize, m.segBase + m.segSize, h, h + s, dsize,
             m.smallmap, m.treemap, m.bins, m.binned, 0, 0, m.live);
    DvAttached(m.chunks, m.binned, h);
  }

  // ----- the hole goes back to top -----

  lemma LiveGiven(c: Chunks, c': Chunks, live: Sizes, h: int)
    requires LiveOk(c, live, h) && c' == c - {h} && 0 !in c
    ensures LiveOk(c', live, 0)
  {
  }

  lemma PartGiven(c: Chunks, f: Sizes, dv: int, dvsize: int, h: int)
    requires Partition(c, f, dv, dvsize, h, 0) && h != 0
    ensures dvsize != 0 && dv == h ==> Partition(c, f, 0, 0, h, 0)
  {
  }

  lemma GiveTopAll(mem: Mem, mem': Mem, c: Chunks, c': Chunks, base: int, top: int, topsize: int, end: int, h: int,
      tsize: int,
                   smallmap: nat, treemap: nat, bins: Bins, f: Sizes, dv: int, dvsize: int, live: Sizes)
    requires Tags(mem, c, base, top, h) && TopOk(mem, top, topsize, end) && end < SIZE_RANGE
    requires IndexOk(mem, smallmap, treemap, bins, f) && Partition(c, f, dv, dvsize, h, 0) && LiveOk(c, live, h)
    requires h in c && c[h].cin && c[h].pin && h + c[h].size == top && (dvsize != 0 ==> dv != h) && 0 !in c
    requires c' == c - {h} && tsize == topsize + c[h].size && mem' == mem[h + HEAD := tsize + PINUSE_BIT]
    ensures Tags(mem', c', base, h, 0) && TopOk(mem', h, tsize, end)
    ensures IndexOk(mem', smallmap, treemap, bins, f) && Partition(c', f, dv, dvsize, 0, 0) && LiveOk(c', live, 0)
    ensures BodiesSame(mem, mem', live)
  {
    hide Tiled, Tiling.Aligned, Heads, Feet, IndexOk, Partition, LiveOk, BodiesSame, TagWrites, FreeSame, Rd;
    GiveTop(mem, mem', c, c', base, top, topsize, end, h, tsize);
    LiveGiven(c, c', live, h);
    StepParts(mem, mem', c, c', base, h, h, 0, 0, 0, h, h, 0, h + HEAD, smallmap, treemap, bins, f, dv, dvsize, live);
  }

  /** tsize = topsize += psize; top = p; p->head = tsize | PINUSE_BIT; and dv is gone when it was merged in. */
  method HoleToTop(m: Heap, h: int, s: int)
    requires m.Inv(h, 0) && m.HoleIs(h, s) && m.chunks[h].pin && h + s == m.top
    modifies m`mem, m`chunks, m`top, m`topsize, m`dv, m`dvsize
    ensures m.Inv(0, 0) && m.top == h && m.topsize == old(m.topsize) + s
    ensures VictimOf(m) == if old(m.dv) == h then Victim(0, 0) else old(VictimOf(m))
    ensures BodiesSame(old(m.mem), m.mem, m.live)
  {
    hide Tiled, Tiling.Aligned, Heads, Feet, IndexOk, TopOk, Partition, LiveOk, BodiesSame, TagWrites, FreeSame, Rd;
    ghost var mem0, c, top0, size0, end := m.mem, m.chunks, m.top, m.topsize, m.segBase + m.segSize;
    ghost var dv0, dvsize0 := m.dv, m.dvsize;
    NoZero(c, m.segBase, m.top);
    PartGiven(c, m.binned, m.dv, m.dvsize, h);
    TopBelowEnd(m.mem, m.top, m.topsize, end);
    var tsize := m.topsize + s;
    m.topsize := tsize;
    m.top := h;
    m.mem := m.mem[h + HEAD := tsize + PINUSE_BIT];
    if h == m.dv {
      m.dv := 0;
      m.dvsize := 0;
    }
    m.chunks := c - {h};
    DvZero(c, m.binned, dv0, dvsize0, h);
    GiveTopAll(mem0, m.mem, c, m.chunks, m.segBase, top0, size0, end, h, tsize,
               m.smallmap, m.treemap, m.bins, m.binned, m.dv, m.dvsize, m.live);
  }

  lemma DvZero(c: Chunks, f: Sizes, dv: int, dvsize: int, h: int)
    requires Partition(c, f, dv, dvsize, h, 0) && h != 0
    ensures dv == h ==> dvsize != 0
  {
  }
}
