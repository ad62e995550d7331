/** The check routines compiled into this kernel (src/mm/malloc.c:3227-3323): on a well-formed heap none of
    their assertions fails. */
module HeapChecks {
  import opened BinIndex
  import opened Memory
  import opened Rings
  import opened TrieLinks
  import opened Tiling
  import opened Macros
  import opened Index
  import opened HeapLemmas
  import opened HeapState
  import opened HeapBins
  import opened HeapUnlink
  import opened HeapRelink
  import opened HeapSteps
  import opened HeapReturns
  import opened HeapRelays
  import HeapTrees

  /** do_check_any_chunk. */
  predicate AnyChunk(p: int, least: int) { (p + 16) % 16 == 0 && p >= least }

  predicate IsInuse(mem: Mem, p: int) { Cinuse(mem, p) || !Pinuse(mem, p) }

  predicate IsMmapped(mem: Mem, p: int) { !Cinuse(mem, p) && !Pinuse(mem, p) }

  function NextChunkOf(mem: Mem, p: int): int { p + ChunkSize(mem, p) }

  /** do_check_inuse_chunk. */
  predicate InuseChunk(mem: Mem, p: int, least: int) {
    && AnyChunk(p, least) && IsInuse(mem, p) && !IsMmapped(mem, p)
    && Pinuse(mem, NextChunkOf(mem, p))
    && (Pinuse(mem, p) || NextChunkOf(mem, p - Rd(mem, p + PREV_FOOT)) == p)
  }

  /** do_check_malloced_chunk. */
  predicate MallocedChunk(mem: Mem, p: int, nb: int, least: int) {
    && InuseChunk(mem, p, least)
    && ChunkSize(mem, p) % 16 == 0 && ChunkSize(mem, p) >= MIN_CHUNK_SIZE
    && nb <= ChunkSize(mem, p) < nb + MIN_CHUNK_SIZE
  }

  /** do_check_top_chunk. */
  predicate TopChunk(mem: Mem, top: int, topsize: int, least: int, base: int, size: int) {
    && AnyChunk(top, least) && base <= top < base + size
    && ChunkSize(mem, top) == topsize && topsize > 0
    && topsize == base + size - top - TOP_FOOT
    && Pinuse(mem, top) && !Pinuse(mem, top + topsize)
  }

  /** do_check_free_chunk. */
  predicate FreeChunk(mem: Mem, p: int, dv: int, top: int, least: int) {
    var sz, n := ChunkSize(mem, p), NextChunkOf(mem, p);
    && AnyChunk(p, least) && !IsInuse(mem, p) && !Pinuse(mem, n) && !IsMmapped(mem, p)
    && (p != dv && p != top ==> if sz >= MIN_CHUNK_SIZE then BinnedChunk(mem, p, sz, n, top) else sz == 8)
  }

  predicate BinnedChunk(mem: Mem, p: int, sz: int, n: int, top: int) {
    && sz % 16 == 0 && Rd(mem, n + PREV_FOOT) == sz && Pinuse(mem, p) && (n == top || IsInuse(mem, n))
    && Rd(mem, Rd(mem, p + FD) + BK) == p && Rd(mem, Rd(mem, p + BK) + FD) == p
  }

  /** What the chunk after a chunk in use shows. */
  lemma NextTags(mem: Mem, c: Chunks, base: int, top: int, topsize: int, end: int, hole: int, h: int)
    requires Tags(mem, c, base, top, hole) && TopOk(mem, top, topsize, end) && h in c && c[h].cin
        && (hole == 0 || hole == h)
    ensures var n := h + c[h].size;
            && PinOf(Rd(mem, n + HEAD))
            && (n == top ==> !CinOf(Rd(mem, n + HEAD)) && n !in c)
            && (n != top ==> n in c && CinOf(Rd(mem, n + HEAD)) == c[n].cin && SizeOf(Rd(mem, n + HEAD)) == c[n].size)
            && h < n
  {
    hide Tiled, Tiling.Aligned, Heads, Feet, SizeOf, CinOf, PinOf;
    var n := h + c[h].size;
    ChunkAt(c, base, top, h);
    NoZero(c, base, top);
    if n == top {
      TopNotIn(c, base, top);
      HeadBits(Chunk(topsize, false, true), topsize / 16);
    } else {
      ReadTags(mem, c, base, top, hole, n);
    }
  }

  lemma PrevEnds(mem: Mem, c: Chunks, base: int, top: int, p: int)
    requires Tags(mem, c, base, top, 0) && p in c
    ensures Pinuse(mem, p) || NextChunkOf(mem, p - Rd(mem, p + PREV_FOOT)) == p
  {
    hide Tiled, Tiling.Aligned, Heads, Feet;
    NoZero(c, base, top);
    ReadTags(mem, c, base, top, 0, p);
    if !c[p].pin {
      var q := ReadPrev(mem, c, base, top, 0, p);
      ReadTags(mem, c, base, top, 0, q);
    }
  }

  /** Every live block passes check_inuse_chunk. */
  lemma LiveChecks(m: Heap, p: int)
    requires m.Inv(0, 0) && p in m.live
    ensures InuseChunk(m.mem, p, m.leastAddr) && ChunkSize(m.mem, p) == m.live[p] && Cinuse(m.mem, p)
  {
    hide Tiled, Tiling.Aligned, Heads, Feet, IndexOk, TopOk, Partition, LiveOk;
    LiveIsChunk(m.chunks, m.segBase, m.top, m.binned, m.dv, m.dvsize, 0, m.live, p);
    NoZero(m.chunks, m.segBase, m.top);
    ReadTags(m.mem, m.chunks, m.segBase, m.top, 0, p);
    NextTags(m.mem, m.chunks, m.segBase, m.top, m.topsize, m.segBase + m.segSize, 0, p);
    PrevEnds(m.mem, m.chunks, m.segBase, m.top, p);
  }

  /** A block just handed out for a request of nb passes check_malloced_chunk. */
  lemma MallocedChecks(m: Heap, p: int, nb: int)
    requires m.Inv(0, 0) && p in m.live && nb <= m.live[p] < nb + MIN_CHUNK_SIZE
    ensures MallocedChunk(m.mem, p, nb, m.leastAddr)
  {
    hide Tiled, Tiling.Aligned, Heads, Feet, IndexOk, TopOk, Partition, LiveOk;
    LiveIsChunk(m.chunks, m.segBase, m.top, m.binned, m.dv, m.dvsize, 0, m.live, p);
    LiveChecks(m, p);
  }

  /** top passes check_top_chunk. */
  lemma TopChecks(m: Heap)
    requires m.Inv(0, 0)
    ensures TopChunk(m.mem, m.top, m.topsize, m.leastAddr, m.segBase, m.segSize)
  {
    hide Tiling.Aligned, Heads, Feet, IndexOk, Partition, LiveOk;
    HeadBits(Chunk(m.topsize, false, true), m.topsize / 16);
  }

  lemma FreeTags(mem: Mem, c: Chunks, base: int, top: int, f: Sizes, dv: int, dvsize: int, p: int)
    requires Tags(mem, c, base, top, 0) && Partition(c, f, dv, dvsize, 0, 0) && p in f
    ensures var n := p + f[p];
            && ChunkSize(mem, p) == f[p] && !Cinuse(mem, p) && Pinuse(mem, p) && f[p] >= 32 && f[p] % 16 == 0
                && p % 16 == 0 && p >= base
            && Cinuse(mem, n) && !Pinuse(mem, n) && Rd(mem, n) == f[p]
  {
    hide Heads;
    NoZero(c, base, top);
    ChunkAt(c, base, top, p);
    ReadTags(mem, c, base, top, 0, p);
    ReadTags(mem, c, base, top, 0, p + f[p]);
  }

  /** fd and bk of a small chunk lead back to it. */
  lemma SmallBack(mem: Mem, smallmap: nat, small: seq<seq<int>>, f: Sizes, p: int)
    requires SmallBins(mem, smallmap, small, f) && Spaced(f) && p in f && f[p] % 16 == 0 && 32 <= f[p] < 256
    ensures Rd(mem, Rd(mem, p + FD) + BK) == p && Rd(mem, Rd(mem, p + BK) + FD) == p
  {
    var k := InItsSmallBin(mem, smallmap, small, f, p);
    var i := SmallIndex(f[p]);
    assert |small| == NSMALLBINS && i < NSMALLBINS;
    var r := SmallRing(i, small[i]);
    assert r[k + 1] == p;
    Neighbours(mem, r, k + 1);
  }

  lemma TreeBack(mem: Mem, smallmap: nat, treemap: nat, bins: Bins, f: Sizes, least: int, p: int)
    requires BinsOk(mem, smallmap, treemap, bins, f, least) && p in f && f[p] >= MIN_LARGE_SIZE
    ensures Rd(mem, Rd(mem, p + FD) + BK) == p && Rd(mem, Rd(mem, p + BK) + FD) == p
  {
    hide SmallBins, Spaced, Located, UnlinkState, InTreeBin;
    var i := InItsTree(mem, smallmap, treemap, bins, f, least, p);
    LocatedNode(mem, bins.trees[i], p, i, f, least);
    RingAround(mem, ParFor(bins.trees[i], p, TreeBinAt(i)), Find(bins.trees[i], p), p, i, f, least);
  }

  /** Every binned chunk passes check_free_chunk. */
  lemma BinnedChecks(m: Heap, p: int)
    requires m.Inv(0, 0) && p in m.binned
    ensures FreeChunk(m.mem, p, m.dv, m.top, m.leastAddr) && ChunkSize(m.mem, p) == m.binned[p]
    ensures Rd(m.mem, Rd(m.mem, p + FD) + BK) == p && Rd(m.mem, Rd(m.mem, p + BK) + FD) == p
  {
    hide Tiled, Tiling.Aligned, Heads, Feet, TopOk, Partition, LiveOk, SmallBins, TreeBins, Spaced,
        HeapTrees.HeadSizes, AlignedSizes, SomeOf;
    FreeTags(m.mem, m.chunks, m.segBase, m.top, m.binned, m.dv, m.dvsize, p);
    IndexReady(m);
    if m.binned[p] < MIN_LARGE_SIZE {
      SmallBack(m.mem, m.smallmap, m.bins.small, m.binned, p);
    } else {
      TreeBack(m.mem, m.smallmap, m.treemap, m.bins, m.binned, m.leastAddr, p);
    }
  }

  /** So does the designated victim, which is in no bin. */
  lemma DvChecks(m: Heap)
    requires m.Inv(0, 0) && m.dvsize != 0
    ensures m.dv in m.chunks && m.dv !in m.binned && m.dv >= HEAP_FLOOR
    ensures FreeChunk(m.mem, m.dv, m.dv, m.top, m.leastAddr) && ChunkSize(m.mem, m.dv) == m.dvsize >= MIN_CHUNK_SIZE
        && m.dvsize % 16 == 0
  {
    hide Heads, IndexOk, LiveOk;
    NoZero(m.chunks, m.segBase, m.top);
    ChunkAt(m.chunks, m.segBase, m.top, m.dv);
    ReadTags(m.mem, m.chunks, m.segBase, m.top, 0, m.dv);
    ReadTags(m.mem, m.chunks, m.segBase, m.top, 0, m.dv + m.dvsize);
  }
}
