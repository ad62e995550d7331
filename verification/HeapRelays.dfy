/** insert_chunk, unlink_chunk and replace_dv on a well-formed heap (src/mm/malloc.c:3638-3650, 3777-3793). */
module HeapRelays {
  import opened Bits
  import opened BinIndex
  import opened Memory
  import opened Tiling
  import opened Macros
  import opened Index
  import opened HeapLemmas
  import opened HeapState
  import opened HeapBins
  import opened HeapTrees
  import opened HeapRelink
  import opened HeapSteps
  import opened HeapQueues

  /** The binned chunks together with p, seen as sizes only. */
  lemma BinsFrom(c: Chunks, base: int, top: int, end: int, f: Sizes, p: int)
    requires Tiled(c, base, top) && Tiling.Aligned(c) && SomeOf(f, c) && base >= HEAP_FLOOR && top < SIZE_RANGE
    requires p in c
    ensures Spaced(f) && AlignedSizes(f) && forall a :: a in f ==> a >= base
    ensures Spaced(f[p := c[p].size]) && c[p].size % 16 == 0 && 32 <= c[p].size < SIZE_RANGE && p >= base
    ensures SomeOf(f[p := c[p].size], c)
  {
    BinnedSpaced(c, base, top, f);
    BinnedSpaced(c, base, top, f[p := c[p].size]);
    ChunkAt(c, base, top, p);
  }

  lemma HeadSizesOf(mem: Mem, c: Chunks, base: int, top: int, hole: int, f: Sizes)
    requires Tags(mem, c, base, top, hole) && SomeOf(f, c) && hole !in f
    ensures HeadSizes(mem, f)
  {
    forall a | a in f ensures SizeOf(Rd(mem, a + HEAD)) == f[a] { ReadTags(mem, c, base, top, hole, a); }
  }

  /** Link writes keep the tags, top's words and the live payloads. */
  lemma RelinkKeeps(mem: Mem, mem': Mem, c: Chunks, base: int, top: int, topsize: int, end: int, hole: int, g: Sizes,
      live: Sizes)
    requires Tags(mem, c, base, top, hole) && SomeOf(g, c) && SomeOf(live, c) && LinksOnly(mem, mem', g)
    requires forall a :: a in live ==> a !in g
    requires TopOk(mem, top, topsize, end)
    ensures Tags(mem', c, base, top, hole) && TopOk(mem', top, topsize, end) && BodiesSame(mem, mem', live)
  {
    LinksKeepTags(mem, mem', c, base, top, g, hole);
    LinksKeepBodies(mem, mem', c, base, top, g, live);
  }

  lemma BinnedNotLive(c: Chunks, f: Sizes, dv: int, dvsize: int, hole: int, orphan: int, live: Sizes, p: int)
    requires Partition(c, f, dv, dvsize, hole, orphan) && LiveOk(c, live, hole)
    requires (p in f || p == orphan) && 0 !in c
    ensures SomeOf(f, c) && SomeOf(live, c) && hole !in f && (p != 0 ==> p in c && !c[p].cin)
    ensures p in f ==> c[p].size == f[p]
    ensures forall a :: a in live ==> a !in f && (p != 0 ==> a != p)
  {
  }

  lemma PartUnlinked(c: Chunks, f: Sizes, dv: int, dvsize: int, hole: int, p: int)
    requires Partition(c, f, dv, dvsize, hole, 0) && p in f && 0 !in c
    ensures Partition(c, f - {p}, dv, dvsize, hole, p)
  {
  }

  lemma PartInserted(c: Chunks, f: Sizes, dv: int, dvsize: int, hole: int, p: int)
    requires Partition(c, f, dv, dvsize, hole, p) && p != 0 && 0 !in c
    ensures Partition(c, f[p := c[p].size], dv, dvsize, hole, 0) && p !in f
  {
  }

  lemma TopBelow(mem: Mem, top: int, topsize: int, end: int)
    requires TopOk(mem, top, topsize, end) && end < SIZE_RANGE
    ensures top < SIZE_RANGE
  {
  }

  /** What unlinking the binned chunk p may assume. */
  lemma BeforeUnlink(mem: Mem, c: Chunks, base: int, top: int, topsize: int, end: int, hole: int, dv: int, dvsize: int,
                     smallmap: nat, treemap: nat, bins: Bins, f: Sizes, live: Sizes, p: int)
    requires Tags(mem, c, base, top, hole) && TopOk(mem, top, topsize, end) && end < SIZE_RANGE
    requires IndexOk(mem, smallmap, treemap, bins, f) && Partition(c, f, dv, dvsize, hole, 0)
        && LiveOk(c, live, hole) && p in f
    ensures BinsOk(mem, smallmap, treemap, bins, f, base) && AlignedSizes(f) && f[p] >= 32 && f[p] % 16 == 0 && 0 !in c
    ensures SizeOf(Rd(mem, p + HEAD)) == f[p]
    ensures SomeOf(f, c) && SomeOf(live, c) && forall a :: a in live ==> a !in f
  {
    if 0 in c { ChunkAt(c, base, top, 0); }
    BinnedNotLive(c, f, dv, dvsize, hole, 0, live, p);
    ReadTags(mem, c, base, top, hole, p);
    BinsFrom(c, base, top, end, f, p);
  }

  /** unlink_chunk: p leaves its bin. */
  method UnlinkChunk(m: Heap, p: int, s: int, ghost hole: int)
    requires m.Inv(hole, 0) && p in m.binned && m.binned[p] == s
    modifies m`mem, m`smallmap, m`treemap, m`bins, m`binned
    ensures m.Inv(hole, p) && m.binned == old(m.binned) - {p}
    ensures Shrunk(old(m.bins), m.bins, m.binned)
    ensures BodiesSame(old(m.mem), m.mem, m.live)
  {
    hide Tiled, Tiling.Aligned, Heads, Feet, IndexOk, TopOk, Partition, LiveOk, BodiesSame, LinksOnly, Shrunk,
        Queued, QueueLeft;
    ghost var mem0, map0, b0, f := m.mem, m.treemap, m.bins, m.binned;
    BeforeUnlink(m.mem, m.chunks, m.segBase, m.top, m.topsize, m.segBase + m.segSize, hole, m.dv, m.dvsize,
        m.smallmap, m.treemap, m.bins, f, m.live, p);
    BinCounts(m.mem, m.smallmap, m.treemap, m.bins, m.binned);
    if IsSmall(s) {
      ghost var k := UnlinkSmallChunk(m, p, s);
      SmallLeft(b0, m.bins, SmallIndex(s), k);
    } else {
      ghost var i := UnlinkLargeChunk(m, p);
      LargeLeft(mem0, m.smallmap, map0, b0, m.bins, f, i, p);
    }
    RelinkKeeps(mem0, m.mem, m.chunks, m.segBase, m.top, m.topsize, m.segBase + m.segSize, hole, f, m.live);
    PartUnlinked(m.chunks, f, m.dv, m.dvsize, hole, p);
    LeftQueue(m.mem, m.smallmap, m.treemap, b0, m.bins, m.binned, p);
  }

  lemma BeforeInsert(mem: Mem, c: Chunks, base: int, top: int, topsize: int, end: int, hole: int, dv: int, dvsize: int,
                     smallmap: nat, treemap: nat, bins: Bins, f: Sizes, live: Sizes, p: int)
    requires Tags(mem, c, base, top, hole) && TopOk(mem, top, topsize, end) && end < SIZE_RANGE
    requires IndexOk(mem, smallmap, treemap, bins, f) && Partition(c, f, dv, dvsize, hole, p) && p != 0
        && LiveOk(c, live, hole)
    ensures BinsOk(mem, smallmap, treemap, bins, f, base) && HeadSizes(mem, f) && p in c && p !in f && p >= base
    ensures Spaced(f[p := c[p].size]) && 32 <= c[p].size < SIZE_RANGE && c[p].size % 16 == 0
    ensures SomeOf(f[p := c[p].size], c) && SomeOf(live, c) && forall a :: a in live ==> a !in f[p := c[p].size]
    ensures Partition(c, f[p := c[p].size], dv, dvsize, hole, 0)
  {
    if 0 in c { ChunkAt(c, base, top, 0); }
    BinnedNotLive(c, f, dv, dvsize, hole, p, live, p);
    HeadSizesOf(mem, c, base, top, hole, f);
    BinsFrom(c, base, top, end, f, p);
    PartInserted(c, f, dv, dvsize, hole, p);
  }

  /** insert_chunk: p, so far in no bin, joins the bin of its size. */
  method InsertChunk(m: Heap, p: int, s: int, ghost hole: int)
    requires m.Inv(hole, p) && p != 0 && p in m.chunks && m.chunks[p].size == s
    modifies m`mem, m`smallmap, m`treemap, m`bins, m`binned
    ensures m.Inv(hole, 0) && m.binned == old(m.binned)[p := s]
    ensures Queued(old(m.bins), m.bins, p, s)
    ensures BodiesSame(old(m.mem), m.mem, m.live)
  {
    hide Tiled, Tiling.Aligned, Heads, Feet, IndexOk, TopOk, Partition, LiveOk, BodiesSame, LinksOnly, Shrunk,
        Queued, QueueLeft;
    ghost var mem0, map0, b0, f := m.mem, m.treemap, m.bins, m.binned;
    BeforeInsert(m.mem, m.chunks, m.segBase, m.top, m.topsize, m.segBase + m.segSize, hole, m.dv, m.dvsize,
        m.smallmap, m.treemap, m.bins, f, m.live, p);
    BinCounts(m.mem, m.smallmap, m.treemap, m.bins, m.binned);
    if IsSmall(s) {
      InsertSmallChunk(m, p, s);
      SmallQueued(b0, m.bins, p, s);
    } else {
      ghost var i := InsertLargeChunk(m, p, s);
      LargeQueued(mem0, m.smallmap, map0, b0, m.bins, f, i, p, s);
    }
    RelinkKeeps(mem0, m.mem, m.chunks, m.segBase, m.top, m.topsize, m.segBase + m.segSize, hole, m.binned, m.live);
  }

  /** unlink_large_chunk of a large binned chunk. */
  method UnlinkLarge(m: Heap, p: int)
    requires m.Inv(0, 0) && p in m.binned && m.binned[p] >= MIN_LARGE_SIZE
    modifies m`mem, m`treemap, m`bins, m`binned
    ensures m.Inv(0, p) && m.binned == old(m.binned) - {p} && p != 0 && p in m.chunks
        && m.chunks[p].size == old(m.binned)[p]
    ensures Shrunk(old(m.bins), m.bins, m.binned)
    ensures BodiesSame(old(m.mem), m.mem, m.live)
  {
    hide Tiled, Tiling.Aligned, Heads, Feet, IndexOk, TopOk, Partition, LiveOk, BodiesSame, LinksOnly, Shrunk,
        Queued, QueueLeft;
    ghost var mem0, map0, b0, f := m.mem, m.treemap, m.bins, m.binned;
    BeforeUnlink(m.mem, m.chunks, m.segBase, m.top, m.topsize, m.segBase + m.segSize, 0, m.dv, m.dvsize, m.smallmap,
        m.treemap, m.bins, f, m.live, p);
    BinCounts(m.mem, m.smallmap, m.treemap, m.bins, m.binned);
    ghost var i := UnlinkLargeChunk(m, p);
    LargeLeft(mem0, m.smallmap, map0, b0, m.bins, f, i, p);
    RelinkKeeps(mem0, m.mem, m.chunks, m.segBase, m.top, m.topsize, m.segBase + m.segSize, 0, f, m.live);
    PartUnlinked(m.chunks, f, m.dv, m.dvsize, 0, p);
    LeftQueue(m.mem, m.smallmap, m.treemap, b0, m.bins, m.binned, p);
  }

  lemma IndexReady(m: Heap)
    requires m.Inv(0, 0)
    ensures BinsOk(m.mem, m.smallmap, m.treemap, m.bins, m.binned, m.leastAddr) && HeadSizes(m.mem, m.binned)
        && AlignedSizes(m.binned)
    ensures SomeOf(m.binned, m.chunks) && SomeOf(m.live, m.chunks) && (forall a :: a in m.live ==> a !in m.binned)
        && 0 !in m.chunks
    ensures m.smallmap < WORD_RANGE && m.treemap < WORD_RANGE && |m.bins.small| == NSMALLBINS
  {
    hide Tiled, Tiling.Aligned, Heads, Feet, TopOk, Partition, LiveOk;
    NoZero(m.chunks, m.segBase, m.top);
    BinnedNotLive(m.chunks, m.binned, m.dv, m.dvsize, 0, 0, m.live, 0);
    HeadSizesOf(m.mem, m.chunks, m.segBase, m.top, 0, m.binned);
    TopBelow(m.mem, m.top, m.topsize, m.segBase + m.segSize);
    BinnedSpaced(m.chunks, m.segBase, m.top, m.binned);
  }

  lemma BinnedChunk(c: Chunks, f: Sizes, p: int)
    requires SomeOf(f, c) && p in f && 0 !in c
    ensures p in c && c[p].size == f[p] && p != 0
  {
  }

  /** The first chunk of a marked small bin has the size of the bin. */
  lemma FirstSize(m: Heap, i: nat)
    requires BinsOk(m.mem, m.smallmap, m.treemap, m.bins, m.binned, m.leastAddr) && HeadSizes(m.mem, m.binned)
    requires i < NSMALLBINS && Bit(m.smallmap, i)
    ensures ChunkSize(m.mem, Rd(m.mem, SmallBinAt(i) + FD)) == SmallIndex2Size(i)
  {
    hide TreeBins;
    SmallBinOf(m.mem, m.smallmap, m.bins.small, m.binned, i);
    SmallBinFirst(m.mem, i, m.bins.small[i], m.binned);
    MembersSmall(m.bins.small[i], m.binned, i, true, m.mem, 0);
  }

  /** p = b->fd; unlink_first_small_chunk(b, p, i): the newest chunk of a marked small bin. */
  method UnlinkFirst(m: Heap, i: nat) returns (p: int)
    requires m.Inv(0, 0) && i < NSMALLBINS && Bit(m.smallmap, i)
    modifies m`mem, m`smallmap, m`bins, m`binned
    ensures m.Inv(0, p) && p in old(m.binned) && old(m.binned)[p] == SmallIndex2Size(i)
        && m.binned == old(m.binned) - {p}
    ensures p != 0 && p in m.chunks && m.chunks[p].size == SmallIndex2Size(i)
    ensures |old(m.bins.small)| == NSMALLBINS && old(m.bins.small)[i] != [] && old(m.bins.small)[i][0] == p
    ensures Shrunk(old(m.bins), m.bins, m.binned)
    ensures BodiesSame(old(m.mem), m.mem, m.live)
  {
    hide Tiled, Tiling.Aligned, Heads, Feet, IndexOk, TopOk, Partition, LiveOk, BodiesSame, LinksOnly, Spaced,
        HeadSizes, SomeOf, Bit, Shrunk, Queued, QueueLeft;
    ghost var mem0, b0, f := m.mem, m.bins, m.binned;
    IndexReady(m);
    var b := SmallBinAt(i);
    p := Rd(m.mem, b + FD);
    FirstSize(m, i);
    assert ChunkSize(m.mem, p) == SmallIndex2Size(i);
    UnlinkFirstSmallChunk(m, b, p, i);
    BinnedChunk(m.chunks, f, p);
    RelinkKeeps(mem0, m.mem, m.chunks, m.segBase, m.top, m.topsize, m.segBase + m.segSize, 0, f, m.live);
    PartUnlinked(m.chunks, f, m.dv, m.dvsize, 0, p);
    assert RemoveAt(b0.small[i], 0) == b0.small[i][1..];
    SmallLeft(b0, m.bins, i, 0);
    LeftQueue(m.mem, m.smallmap, m.treemap, b0, m.bins, m.binned, p);
  }

  // ----- replace_dv -----

  lemma SwapRoles(c: Chunks, f: Sizes, dv: int, dvsize: int, p: int)
    requires Partition(c, f, dv, dvsize, 0, p) && p != 0 && dvsize != 0 && 0 !in c && c[p].size > 0
    ensures Partition(c, f, p, c[p].size, 0, dv) && dv != 0 && dv in c && c[dv].size == dvsize
  {
  }

  lemma NoDv(c: Chunks, f: Sizes, dv: int, p: int)
    requires Partition(c, f, dv, 0, 0, p) && p != 0 && 0 !in c && c[p].size > 0
    ensures Partition(c, f, p, c[p].size, 0, 0)
  {
  }

  lemma OrphanSize(c: Chunks, base: int, top: int, f: Sizes, dv: int, dvsize: int, p: int)
    requires Tiled(c, base, top) && base > 0 && Partition(c, f, dv, dvsize, 0, p) && p != 0
    ensures p in c && c[p].size >= 32 && 0 !in c
  {
    NoZero(c, base, top);
    ChunkAt(c, base, top, p);
  }

  /** replace_dv: p is the designated victim from now on; the old one is binned. */
  method ReplaceDv(m: Heap, p: int, s: int)
    requires m.Inv(0, p) && p != 0 && p in m.chunks && m.chunks[p].size == s && 0 <= m.dvsize < MIN_LARGE_SIZE
    modifies m`mem, m`smallmap, m`bins, m`binned, m`dv, m`dvsize
    ensures m.Inv(0, 0) && m.dv == p && m.dvsize == s
    ensures m.binned == if old(m.dvsize) == 0 then old(m.binned) else old(m.binned)[old(m.dv) := old(m.dvsize)]
    ensures if old(m.dvsize) == 0 then m.bins == old(m.bins)
            else Queued(old(m.bins), m.bins, old(m.dv), old(m.dvsize))
    ensures BodiesSame(old(m.mem), m.mem, m.live)
  {
    hide Tiled, Tiling.Aligned, Heads, Feet, IndexOk, TopOk, Partition, LiveOk, BodiesSame, LinksOnly, Spaced,
        HeadSizes, SomeOf, Shrunk, Queued, QueueLeft;
    ghost var mem0, b0, f := m.mem, m.bins, m.binned;
    OrphanSize(m.chunks, m.segBase, m.top, m.binned, m.dv, m.dvsize, p);
    BinCounts(m.mem, m.smallmap, m.treemap, m.bins, m.binned);
    var dvs := m.dvsize;
    assert IsSmall(dvs);
    if dvs != 0 {
      var dv := m.dv;
      SwapRoles(m.chunks, m.binned, dv, dvs, p);
      BeforeInsert(m.mem, m.chunks, m.segBase, m.top, m.topsize, m.segBase + m.segSize, 0, p, s, m.smallmap,
          m.treemap, m.bins, f, m.live, dv);
      InsertSmallChunk(m, dv, dvs);
      SmallQueued(b0, m.bins, dv, dvs);
      RelinkKeeps(mem0, m.mem, m.chunks, m.segBase, m.top, m.topsize, m.segBase + m.segSize, 0, m.binned, m.live);
    } else {
      NoDv(m.chunks, m.binned, m.dv, p);
      NothingWritten(m.mem, m.live);
    }
    m.dvsize := s;
    m.dv := p;
  }

  lemma NothingWritten(mem: Mem, live: Sizes)
    ensures BodiesSame(mem, mem, live)
  {
  }
}
