/** The steps of HeapMoves performed on the heap: each method writes the tags of one group of macros
    and leads from one well-formed state to the next. */
module HeapChunks {
  import opened BinIndex
  import opened Memory
  import opened Tiling
  import opened Macros
  import opened Index
  import opened HeapLemmas
  import opened HeapTags
  import opened HeapState
  import opened HeapSteps
  import opened HeapMoves

  /** The chunk in transit is free and lies between chunks in use. */
  lemma OrphanIs(c: Chunks, base: int, top: int, f: Sizes, dv: int, dvsize: int, hole: int, p: int)
    requires Tiled(c, base, top) && Partition(c, f, dv, dvsize, hole, p) && p != 0
    ensures p in c && !c[p].cin && c[p].pin && c[p].size >= 32 && base <= p < p + c[p].size < top
    ensures p + c[p].size in c && c[p + c[p].size].cin && !c[p + c[p].size].pin
  {
    ChunkAt(c, base, top, p);
  }

  /** A live chunk leaves its payload words, and those of the others, where they are. */
  lemma FewerBodies(mem: Mem, mem': Mem, live: Sizes, live': Sizes)
    requires BodiesSame(mem, mem', live')
    requires forall a :: a in live ==> a in live' && live'[a] == live[a]
    ensures BodiesSame(mem, mem', live)
  {
    BodiesSameSub(mem, mem', live', live);
  }

  lemma LiveTaken(c: Chunks, c': Chunks, live: Sizes, p: int)
    requires LiveOk(c, live, 0) && CinSet(c, c', p, true) && !c[p].cin && p != 0
    ensures LiveOk(c', live[p := c[p].size], 0) && p !in live
  {
  }

  /** set_inuse_and_pinuse: the free chunk p, in no bin, is handed out whole. */
  method TakeWhole(m: Heap, p: int, s: int)
    requires m.Inv(0, p) && p != 0 && p in m.chunks && m.chunks[p].size == s
    modifies m`mem, m`chunks, m`live
    ensures m.Inv(0, 0) && m.live == old(m.live)[p := s] && p !in old(m.live)
    ensures m.Pinned(p)
    ensures BodiesSame(old(m.mem), m.mem, old(m.live))
  {
    hide Tiled, Tiling.Aligned, Heads, Feet, IndexOk, TopOk, Partition, LiveOk, BodiesSame, SetInuseAndPinuse,
        CinSet, FreeSame, TagWrites;
    ghost var mem0, c, live0 := m.mem, m.chunks, m.live;
    OrphanIs(c, m.segBase, m.top, m.binned, m.dv, m.dvsize, 0, p);
    ghost var c' := SetCin(c, p, true);
    m.mem := SetInuseAndPinuse(m.mem, p, s);
    UseWhole(mem0, m.mem, c, c', m.segBase, m.top, p, s);
    m.chunks := c';
    m.live := m.live[p := s];
    LiveTaken(c, c', live0, p);
    StepKeeps(mem0, m.mem, c, c', m.segBase, m.top, m.topsize, m.segBase + m.segSize, 0, 0, p, 0, p, p + s, p, p + HEAD,
              m.smallmap, m.treemap, m.bins, m.binned, m.dv, m.dvsize, m.live);
    FewerBodies(mem0, m.mem, live0, m.live);
  }

  lemma LiveCarved(c: Chunks, c': Chunks, live: Sizes, p: int, n: int)
    requires LiveOk(c, live, 0) && p in c && !c[p].cin && c' == CarveFree(c, p, n) && p + n !in c && p != 0 && n != 0
    ensures LiveOk(c', live[p := n], 0) && p !in live
  {
  }

  /** Everything the division of the free chunk p keeps. */
  lemma CarveAll(mem: Mem, mem': Mem, c: Chunks, c': Chunks, base: int, top: int, topsize: int, end: int, p: int,
      n: int, rest: int,
                 smallmap: nat, treemap: nat, bins: Bins, f: Sizes, dv: int, dvsize: int, live: Sizes)
    requires Tags(mem, c, base, top, 0) && TopOk(mem, top, topsize, end) && end < SIZE_RANGE
    requires IndexOk(mem, smallmap, treemap, bins, f) && Partition(c, f, dv, dvsize, 0, p) && LiveOk(c, live, 0)
    requires p in c && p != 0 && 32 <= n && rest >= 32 && n % 16 == 0 && c[p].size == n + rest
    requires c' == CarveFree(c, p, n) && CarvedWords(mem, mem', p, n, rest)
    ensures Tags(mem', c', base, top, 0) && TopOk(mem', top, topsize, end)
    ensures IndexOk(mem', smallmap, treemap, bins, f) && Partition(c', f, dv, dvsize, 0, p + n)
        && LiveOk(c', live[p := n], 0)
    ensures BodiesSame(mem, mem', live) && p !in live && 0 !in c'
  {
    hide Tiled, Tiling.Aligned, Heads, Feet, IndexOk, TopOk, Partition, LiveOk, BodiesSame, CarvedWords, TagWrites,
        FreeSame;
    OrphanIs(c, base, top, f, dv, dvsize, 0, p);
    SplitFresh(c, base, top, p, n);
    Carve(mem, mem', c, c', base, top, p, n, rest);
    LiveCarved(c, c', live, p, n);
    PartitionOrphan(c, f, dv, dvsize, 0, p);
    StepKeeps(mem, mem', c, c', base, top, topsize, end, 0, 0, p, p + n, p, p + n, p + n, p + n + rest,
              smallmap, treemap, bins, f, dv, dvsize, live[p := n]);
    FewerBodies(mem, mem', live, live[p := n]);
    NoZero(c', base, top);
  }

  lemma PartitionOrphan(c: Chunks, f: Sizes, dv: int, dvsize: int, hole: int, p: int)
    requires Partition(c, f, dv, dvsize, hole, p)
    ensures p !in f && forall a :: a in f ==> a in c
  {
  }

  /** set_size_and_pinuse_of_inuse_chunk(p, n) and set_size_and_pinuse_of_free_chunk(p + n, rest):
      the front of the free chunk p, in no bin, is handed out, and the rest is in no bin yet. */
  method TakeFront(m: Heap, p: int, n: int, rest: int)
    requires m.Inv(0, p) && p != 0 && p in m.chunks && m.chunks[p].size == n + rest && n >= 32 && rest >= 32
        && n % 16 == 0
    modifies m`mem, m`chunks, m`live
    ensures m.Inv(0, p + n) && m.live == old(m.live)[p := n] && p !in old(m.live)
    ensures p + n in m.chunks && m.chunks[p + n].size == rest && p + n != 0
    ensures m.Pinned(p)
    ensures BodiesSame(old(m.mem), m.mem, old(m.live))
  {
    hide Tiled, Tiling.Aligned, Heads, Feet, IndexOk, TopOk, Partition, LiveOk, BodiesSame, CarvedWords;
    ghost var mem0, c, live0 := m.mem, m.chunks, m.live;
    m.mem := SetSizeAndPinuseOfInuseChunk(m.mem, p, n);
    m.mem := SetSizeAndPinuseOfFreeChunk(m.mem, p + n, rest);
    CarveWords(mem0, p, n, rest);
    m.chunks := CarveFree(c, p, n);
    m.live := m.live[p := n];
    CarveAll(mem0, m.mem, c, m.chunks, m.segBase, m.top, m.topsize, m.segBase + m.segSize, p, n, rest,
             m.smallmap, m.treemap, m.bins, m.binned, m.dv, m.dvsize, live0);
  }

  lemma DvIs(c: Chunks, base: int, top: int, f: Sizes, dv: int, dvsize: int)
    requires Tiled(c, base, top) && base > 0 && Partition(c, f, dv, dvsize, 0, 0) && dvsize != 0
    ensures Partition(c, f, 0, 0, 0, dv) && dv in c && !c[dv].cin && c[dv].size == dvsize && dv != 0 && dvsize >= 32
  {
    NoZero(c, base, top);
    DvDetached(c, f, dv, dvsize);
    ChunkAt(c, base, top, dv);
  }

  /** Split dv: the front is handed out, the rest is dv from now on. */
  method SplitDv(m: Heap, n: int) returns (p: int)
    requires m.Inv(0, 0) && n >= 32 && n % 16 == 0 && m.dvsize - n >= 32
    modifies m`mem, m`chunks, m`live, m`dv, m`dvsize
    ensures m.Inv(0, 0) && m.live == old(m.live)[p := n] && p !in old(m.live) && p == old(m.dv)
    ensures m.dv == p + n && m.dvsize == old(m.dvsize) - n
    ensures m.Pinned(p)
    ensures BodiesSame(old(m.mem), m.mem, old(m.live))
  {
    hide Tiled, Tiling.Aligned, Heads, Feet, IndexOk, TopOk, Partition, LiveOk, BodiesSame, CarvedWords;
    ghost var mem0, c, live0 := m.mem, m.chunks, m.live;
    DvIs(c, m.segBase, m.top, m.binned, m.dv, m.dvsize);
    var rsize := m.dvsize - n;
    p := m.dv;
    var r := p + n;
    m.dv := r;
    m.dvsize := rsize;
    m.mem := SetSizeAndPinuseOfFreeChunk(m.mem, r, rsize);
    m.mem := SetSizeAndPinuseOfInuseChunk(m.mem, p, n);
    CarveWords(mem0, p, n, rsize);
    m.chunks := CarveFree(c, p, n);
    m.live := m.live[p := n];
    CarveAll(mem0, m.mem, c, m.chunks, m.segBase, m.top, m.topsize, m.segBase + m.segSize, p, n, rsize,
             m.smallmap, m.treemap, m.bins, m.binned, 0, 0, live0);
    DvAttached(m.chunks, m.binned, r);
  }

  /** Exhaust dv: hand it out whole. */
  method TakeDv(m: Heap) returns (p: int)
    requires m.Inv(0, 0) && m.dvsize != 0
    modifies m`mem, m`chunks, m`live, m`dv, m`dvsize
    ensures m.Inv(0, 0) && m.live == old(m.live)[p := old(m.dvsize)] && p !in old(m.live) && p == old(m.dv)
        && m.dv == 0 && m.dvsize == 0
    ensures m.Pinned(p)
    ensures BodiesSame(old(m.mem), m.mem, old(m.live))
  {
    hide Tiled, Tiling.Aligned, Heads, Feet, IndexOk, TopOk, Partition, LiveOk, BodiesSame;
    DvIs(m.chunks, m.segBase, m.top, m.binned, m.dv, m.dvsize);
    p := m.dv;
    var dvs := m.dvsize;
    m.dvsize := 0;
    m.dv := 0;
    TakeWhole(m, p, dvs);
  }

  lemma LiveTop(c: Chunks, base: int, top: int, c': Chunks, live: Sizes, n: int)
    requires Tiled(c, base, top) && base > 0 && LiveOk(c, live, 0) && c' == c[top := Chunk(n, true, true)]
    ensures LiveOk(c', live[top := n], 0) && top !in live
  {
    TopNotIn(c, base, top);
  }

  lemma TopBelowEnd(mem: Mem, top: int, topsize: int, end: int)
    requires TopOk(mem, top, topsize, end)
    ensures top < end && topsize > 0 && topsize % 16 == 0 && top % 16 == 0 && topsize == end - top - TOP_FOOT
  {
  }

  /** Split top: the front is handed out. */
  method SplitTop(m: Heap, n: int) returns (p: int)
    requires m.Inv(0, 0) && 32 <= n < m.topsize && n % 16 == 0
    modifies m`mem, m`chunks, m`live, m`top, m`topsize
    ensures m.Inv(0, 0) && m.live == old(m.live)[p := n] && p !in old(m.live) && p == old(m.top)
    ensures m.top == old(m.top) + n && m.topsize == old(m.topsize) - n
    ensures m.Pinned(p)
    ensures BodiesSame(old(m.mem), m.mem, old(m.live))
  {
    hide Tiled, Tiling.Aligned, Heads, Feet, IndexOk, TopOk, Partition, LiveOk, BodiesSame, TagWrites, FreeSame,
        SetSizeAndPinuseOfInuseChunk;
    ghost var mem0, c, live0 := m.mem, m.chunks, m.live;
    ghost var top0, size0, end := m.top, m.topsize, m.segBase + m.segSize;
    TopBelowEnd(m.mem, m.top, m.topsize, end);
    var rsize := m.topsize - n;
    m.topsize := rsize;
    p := m.top;
    var r := p + n;
    m.top := r;
    m.mem := m.mem[r + HEAD := rsize + PINUSE_BIT];
    m.mem := SetSizeAndPinuseOfInuseChunk(m.mem, p, n);
    m.chunks := c[p := Chunk(n, true, true)];
    m.live := m.live[p := n];
    LiveTop(c, m.segBase, top0, m.chunks, live0, n);
    TakeTop(mem0, m.mem, c, m.chunks, m.segBase, top0, size0, end, n);
    StepParts(mem0, m.mem, c, m.chunks, m.segBase, m.top, 0, 0, 0, 0, top0, m.top, 0, top0 + HEAD,
              m.smallmap, m.treemap, m.bins, m.binned, m.dv, m.dvsize, m.live);
    FewerBodies(mem0, m.mem, live0, m.live);
  }
}
