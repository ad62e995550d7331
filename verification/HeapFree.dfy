/** dlfree and dispose_chunk (src/mm/malloc.c:4371-4437, 4690-4797). */
module HeapFree {
  import opened Memory
  import opened Tiling
  import opened Macros
  import opened Index
  import opened HeapLemmas
  import opened HeapState
  import opened HeapSteps
  import opened HeapQueues
  import opened HeapReturns
  import opened HeapRelays
  import opened HeapChecks

  lemma NextAbove(c: Chunks, base: int, top: int, h: int)
    requires Tiled(c, base, top) && h in c
    ensures h + c[h].size >= base
  {
    ChunkAt(c, base, top, h);
  }

  lemma HoleHead(mem: Mem, c: Chunks, base: int, top: int, hole: int, h: int)
    requires Tags(mem, c, base, top, hole) && h in c && Rd(mem, h + HEAD) == HeadWord(c[h])
    ensures SizeOf(Rd(mem, h + HEAD)) == c[h].size && CinOf(Rd(mem, h + HEAD)) == c[h].cin
        && PinOf(Rd(mem, h + HEAD)) == c[h].pin
  {
    HeadBits(c[h], c[h].size / 16);
  }

  /** The free chunk before the hole is dv or in a bin. */
  lemma FreeIsKept(c: Chunks, f: Sizes, dv: int, dvsize: int, hole: int, q: int)
    requires Partition(c, f, dv, dvsize, hole, 0) && q in c && !c[q].cin && 0 !in c && (dvsize != 0 ==> dv != hole)
    ensures q != dv ==> q in f && f[q] == c[q].size
    ensures q == dv ==> dvsize != 0 && dvsize == c[q].size && q !in f
  {
  }

  /** What frees leave of the designated victim v0, given where top now starts: v contains it, unless there was none
      or top took it over. */
  ghost predicate VictimKept(v0: Victim, top: int, v: Victim) {
    if v0.size == 0 || v0.at >= top then v == Victim(0, 0)
    else v.at <= v0.at && v0.at + v0.size <= v.at + v.size
  }

  /** dv is a chunk before top, and if it is not the hole, it is before or after that. */
  lemma VictimBelow(c: Chunks, base: int, top: int, f: Sizes, dv: int, dvsize: int, hole: int, orphan: int)
    requires Tiled(c, base, top) && Partition(c, f, dv, dvsize, hole, orphan) && 0 !in c
    ensures dvsize == 0 ==> dv == 0
    ensures dvsize != 0 ==> dv < top
    ensures dvsize != 0 && dv != hole ==>
        dv + dvsize <= top && (hole != 0 && hole + c[hole].size == top ==> dv < hole)
  {
    if dvsize != 0 && dv != hole {
      ChunkAt(c, base, top, dv);
      if hole != 0 { assert Before(c, hole, dv); }
    } else if dvsize != 0 { ChunkAt(c, base, top, dv); }
  }

  lemma KeptTrans(v0: Victim, top1: int, v1: Victim, top2: int, v2: Victim)
    requires VictimKept(v0, top1, v1) && VictimKept(v1, top2, v2) && top2 <= top1
    requires v0.size >= 0 && (v2.size != 0 ==> v2.at + v2.size <= top2)
    ensures VictimKept(v0, top2, v2)
  {
  }

  /** As long as no bin is touched the queues are what they were. */
  lemma QueuesStay(m: Heap, hole: int, orphan: int)
    requires m.Inv(hole, orphan)
    ensures Shrunk(m.bins, m.bins, m.binned) && QueuesKept(m.bins, m.bins, m.binned) && WaitsAre(m.bins, m.binned)
  {
    hide Tiled, Tiling.Aligned, Heads, Feet, IndexOk, TopOk, Partition, LiveOk, Shrunk, QueuesKept, WaitsAre;
    Unmoved(m.mem, m.smallmap, m.treemap, m.bins, m.binned);
  }

  /** Consolidate backward.  done: the chunk before is dv and the one after is in use, so that all is finished. */
  method Backward(m: Heap, p: int, psize: int) returns (q: int, qsize: int, done: bool)
    requires m.Inv(p, 0) && m.HoleIs(p, psize) && Rd(m.mem, p + HEAD) == HeadWord(m.chunks[p])
        && (m.dvsize != 0 ==> m.dv != p)
    modifies m`mem, m`smallmap, m`treemap, m`bins, m`binned, m`chunks, m`dvsize
    ensures done ==> m.Inv(0, 0)
    ensures !done ==> m.Inv(q, 0) && m.HoleIs(q, qsize) && m.chunks[q].pin && q + qsize == p + psize
    ensures !done && m.dvsize != 0 && m.dv == q ==> !Cinuse(m.mem, q + qsize) && m.dvsize <= qsize
    ensures if done then VictimKept(old(VictimOf(m)), m.top, VictimOf(m)) else m.dvsize == old(m.dvsize)
    ensures Shrunk(old(m.bins), m.bins, m.binned) && Within(old(m.binned), m.binned)
    ensures !done ==> !(q in old(m.binned) && old(m.binned)[q] >= qsize)
    ensures BodiesSame(old(m.mem), m.mem, m.live)
  {
    hide Tiled, Tiling.Aligned, Heads, Feet, IndexOk, TopOk, Partition, LiveOk, BodiesSame, Shrunk, QueuesKept,
        WaitsAre;
    q, qsize, done := p, psize, false;
    HoleHead(m.mem, m.chunks, m.segBase, m.top, p, p);
    NothingWritten(m.mem, m.live);
    QueuesStay(m, p, 0);
    HoleUnbinned(m, p, psize);
    var next := p + psize;
    if !Pinuse(m.mem, p) {
      var prevsize := Rd(m.mem, p + PREV_FOOT);
      assert Cinuse(m.mem, p);  // so p is not an mmapped chunk
      ghost var prev := ReadPrev(m.mem, m.chunks, m.segBase, m.top, p, p);
      NoZero(m.chunks, m.segBase, m.top);
      VictimBelow(m.chunks, m.segBase, m.top, m.binned, m.dv, m.dvsize, p, 0);
      HoleNext(m.chunks, m.segBase, m.top, p);
      FreeIsKept(m.chunks, m.binned, m.dv, m.dvsize, p, prev);
      q := p - prevsize;
      qsize := psize + prevsize;
      assert q >= m.leastAddr;  // RTCHECK(ok_address(m, prev))
      if q != m.dv {
        UnlinkChunk(m, q, prevsize, p);
        ConsolidateBack(m, q, p);
      } else {
        NextTags(m.mem, m.chunks, m.segBase, m.top, m.topsize, m.segBase + m.segSize, p, p);
        ConsolidateBackDv(m, p);
        HoleNext(m.chunks, m.segBase, m.top, q);
        if Cinuse(m.mem, next) && Pinuse(m.mem, next) {
          NextTags(m.mem, m.chunks, m.segBase, m.top, m.topsize, m.segBase + m.segSize, q, q);
          FreeHoleAsDv(m, q, qsize);
          done := true;
        }
      }
    }
  }

  lemma HoleUnbinned(m: Heap, p: int, s: int)
    requires m.Inv(p, 0) && m.HoleIs(p, s)
    ensures p !in m.binned
  {
    hide Tiled, Tiling.Aligned, Heads, Feet, IndexOk, TopOk, LiveOk;
  }

  lemma HoleNext(c: Chunks, base: int, top: int, h: int)
    requires Tiled(c, base, top) && h in c
    ensures c[h].size >= 32 && h >= base
  {
    ChunkAt(c, base, top, h);
  }

  /** Where a freed chunk ended up: merged into dv, merged into top, or free and still to be binned. */
  datatype Merged = IntoDv | IntoTop | ToBin(size: int)

  /** Consolidate forward. */
  method Forward(m: Heap, p: int, psize: int) returns (r: Merged)
    requires m.Inv(p, 0) && m.HoleIs(p, psize) && m.chunks[p].pin
    requires m.dvsize != 0 && m.dv == p ==> !Cinuse(m.mem, p + psize) && m.dvsize <= psize
    modifies m`mem, m`smallmap, m`treemap, m`bins, m`binned, m`chunks, m`dvsize, m`dv, m`top, m`topsize
    ensures r.ToBin? ==> m.Inv(0, p) && p in m.chunks && m.chunks[p].size == r.size && p != 0
    ensures !r.ToBin? ==> m.Inv(0, 0)
    ensures !r.IntoTop? ==> m.top == old(m.top) && m.topsize == old(m.topsize)
    ensures r.IntoTop? ==>
        m.top == p && m.topsize == old(m.topsize) + psize && p + psize == old(m.top) && p < old(m.top)
    ensures VictimKept(old(VictimOf(m)), m.top, VictimOf(m))
    ensures Shrunk(old(m.bins), m.bins, m.binned) && Within(old(m.binned), m.binned)
    ensures r.ToBin? ==> r.size >= psize && p !in m.binned
    ensures BodiesSame(old(m.mem), m.mem, m.live)
  {
    hide Tiled, Tiling.Aligned, Heads, Feet, IndexOk, TopOk, Partition, LiveOk, BodiesSame, Shrunk, QueuesKept,
        WaitsAre;
    ghost var mem0 := m.mem;
    QueuesStay(m, p, 0);
    HoleUnbinned(m, p, psize);
    NextTags(m.mem, m.chunks, m.segBase, m.top, m.topsize, m.segBase + m.segSize, p, p);
    HoleNext(m.chunks, m.segBase, m.top, p);
    NoZero(m.chunks, m.segBase, m.top);
    VictimBelow(m.chunks, m.segBase, m.top, m.binned, m.dv, m.dvsize, p, 0);
    var next := p + psize;
    assert p < next && Pinuse(m.mem, next);  // RTCHECK(ok_next(p, next) && ok_pinuse(next))
    if !Cinuse(m.mem, next) {
      if next == m.top {
        HoleToTop(m, p, psize);
        r := IntoTop;
      } else if next == m.dv {
        NextIsDv(m.chunks, m.binned, m.dv, m.dvsize, p, next);
        HoleBeforeDv(m, p, psize);
        r := IntoDv;
      } else {
        var nsize := ChunkSize(m.mem, next);
        NextIsBinned(m.chunks, m.binned, m.dv, m.dvsize, p, next);
        HoleNext(m.chunks, m.segBase, m.top, next);
        UnlinkChunk(m, next, nsize, p);
        ghost var mem1 := m.mem;
        var size := psize + nsize;
        if p == m.dv {
          HoleIsDv(m.chunks, m.binned, m.dv, m.dvsize, p, next);
          MergeHoleIntoDv(m, p, next, size);
          r := IntoDv;
        } else {
          MergeHole(m, p, next, size);
          r := ToBin(size);
        }
        BodiesSameTrans(mem0, mem1, m.mem, m.live);
      }
    } else {
      FreeHole(m, p, psize);
      r := ToBin(psize);
    }
  }

  lemma NextIsDv(c: Chunks, f: Sizes, dv: int, dvsize: int, hole: int, n: int)
    requires Partition(c, f, dv, dvsize, hole, 0) && n in c && !c[n].cin && n == dv && 0 !in c
    ensures dvsize != 0
  {
  }

  lemma NextIsBinned(c: Chunks, f: Sizes, dv: int, dvsize: int, hole: int, n: int)
    requires Partition(c, f, dv, dvsize, hole, 0) && n in c && !c[n].cin && n != dv && 0 !in c
    ensures n in f && f[n] == c[n].size
  {
  }

  lemma HoleIsDv(c: Chunks, f: Sizes, dv: int, dvsize: int, p: int, n: int)
    requires Partition(c, f, dv, dvsize, p, n) && p == dv && p != 0
    ensures dvsize != 0
  {
  }

  lemma HoleAbove(m: Heap, h: int, s: int)
    requires m.Inv(h, 0) && m.HoleIs(h, s)
    ensures h + s >= m.leastAddr
  {
    hide Tiled, Tiling.Aligned, Heads, Feet, IndexOk, TopOk, Partition, LiveOk;
    NextAbove(m.chunks, m.segBase, m.top, h);
  }

  lemma TopThere(m: Heap)
    requires m.Inv(0, 0)
    ensures m.top != 0
  {
    hide Tiling.Aligned, Heads, Feet, IndexOk, TopOk, Partition, LiveOk;
  }

  /** As long as nothing is freed dv is what it was. */
  lemma VictimStays(m: Heap)
    requires m.Inv(0, 0)
    ensures VictimKept(VictimOf(m), m.top, VictimOf(m)) && m.dvsize >= 0 && (m.dvsize != 0 ==> m.dv < m.top)
  {
    hide Tiling.Aligned, Heads, Feet, IndexOk, TopOk, LiveOk;
    NoZero(m.chunks, m.segBase, m.top);
    VictimBelow(m.chunks, m.segBase, m.top, m.binned, m.dv, m.dvsize, 0, 0);
  }

  /** One more step that kept dv. */
  lemma KeptOn(m: Heap, v0: Victim, top1: int, v1: Victim)
    requires m.Inv(0, 0) && VictimKept(v0, top1, v1) && VictimKept(v1, m.top, VictimOf(m)) && m.top <= top1
        && v0.size >= 0
    ensures VictimKept(v0, m.top, VictimOf(m))
  {
    hide Tiling.Aligned, Heads, Feet, IndexOk, TopOk, LiveOk, VictimKept;
    NoZero(m.chunks, m.segBase, m.top);
    VictimBelow(m.chunks, m.segBase, m.top, m.binned, m.dv, m.dvsize, 0, 0);
    KeptTrans(v0, top1, v1, m.top, VictimOf(m));
  }

  /** dispose_chunk: p, tagged in use but live no more, goes back to the free chunks. */
  method DisposeChunk(m: Heap, p: int, psize: int)
    requires m.Inv(p, 0) && m.HoleIs(p, psize) && Rd(m.mem, p + HEAD) == HeadWord(m.chunks[p])
        && (m.dvsize != 0 ==> m.dv != p)
    modifies m`mem, m`smallmap, m`treemap, m`bins, m`binned, m`chunks, m`dvsize, m`dv, m`top, m`topsize
    ensures m.Inv(0, 0) && m.top != 0 && m.top <= old(m.top)
    ensures VictimKept(old(VictimOf(m)), m.top, VictimOf(m))
    ensures QueuesKept(old(m.bins), m.bins, m.binned)
    ensures BodiesSame(old(m.mem), m.mem, m.live)
  {
    hide Tiled, Tiling.Aligned, Heads, Feet, IndexOk, TopOk, Partition, LiveOk, BodiesSame, VictimKept, Heap.Inv,
        Shrunk, QueuesKept, WaitsAre;
    ghost var mem0, b0, f0 := m.mem, m.bins, m.binned;
    QueuesStay(m, p, 0);
    var q, qsize, done := Backward(m, p, psize);
    if !done {
      ghost var mem1, b1, f1 := m.mem, m.bins, m.binned;
      HoleAbove(m, q, qsize);
      assert p + psize >= m.leastAddr;  // RTCHECK(ok_address(m, next))
      var r := Forward(m, q, qsize);
      ghost var mem2, b2, f2 := m.mem, m.bins, m.binned;
      ShrunkTwice(b0, b1, f1, b2, f2);
      BodiesSameTrans(mem0, mem1, mem2, m.live);
      if r.ToBin? {
        InsertChunk(m, q, r.size, 0);
        ShrunkQueued(b0, f0, b2, f2, m.bins, q, r.size);
        BodiesSameTrans(mem0, mem2, m.mem, m.live);
      } else {
        ShrunkKept(b0, b2, f2);
      }
    } else {
      ShrunkKept(b0, m.bins, m.binned);
    }
    TopThere(m);
  }
}
