/** internal_mallinfo (src/mm/malloc.c:3495-3532): the accounts of the heap balance. */
module HeapInfo {
  import opened Memory
  import opened Tiling
  import opened Macros
  import opened Index
  import opened HeapState
  import opened HeapSteps
  import opened HeapSys
  import opened HeapChecks
  import Bits

  /** The sum of all values. */
  ghost function Total(m: Sizes): int
    decreases |m|
  {
    if m == map[] then 0 else
      NotEmpty(m);
      var a :| a in m;
      assert |m - {a}| < |m| by { Fewer(m, a); }
      m[a] + Total(m - {a})
  }

  lemma NotEmpty(m: Sizes)
    ensures m == map[] || exists a :: a in m
  {
    if forall a :: a !in m { assert m == map[]; }
  }

  lemma Fewer(m: Sizes, a: int)
    requires a in m
    ensures |m - {a}| < |m|
  {
    assert (m - {a}).Keys == m.Keys - {a};
    assert m.Keys == (m - {a}).Keys + {a};
    assert |m.Keys| == |(m - {a}).Keys| + 1;
  }

  lemma {:induction false} TotalMinus(m: Sizes, a: int)
    requires a in m
    ensures Total(m) == m[a] + Total(m - {a})
    decreases |m|
  {
    var b :| b in m && Total(m) == m[b] + Total(m - {b});
    if a != b {
      Fewer(m, b);
      Fewer(m, a);
      TotalMinus(m - {b}, a);
      TotalMinus(m - {a}, b);
      assert m - {b} - {a} == m - {a} - {b};
    }
  }

  /** The live blocks from q on. */
  ghost function From(live: Sizes, q: int): Sizes { map a | a in live && a >= q :: live[a] }

  lemma FromStep(c: Chunks, base: int, top: int, live: Sizes, q: int)
    requires Tiled(c, base, top) && base > 0 && LiveOk(c, live, 0) && q in c
    ensures q + c[q].size <= top && q + c[q].size > q && (q + c[q].size == top || q + c[q].size in c)
    ensures Total(From(live, q)) == (if c[q].cin then c[q].size else 0) + Total(From(live, q + c[q].size))
  {
    ChunkAt(c, base, top, q);
    NoZero(c, base, top);
    var n := q + c[q].size;
    forall a | a in live ensures a <= q || a >= n { assert Before(c, q, a); }
    if c[q].cin {
      TotalMinus(From(live, q), q);
      assert From(live, q) - {q} == From(live, n);
    } else {
      assert From(live, q) == From(live, n);
    }
  }

  lemma FromEnds(c: Chunks, base: int, top: int, live: Sizes)
    requires Tiled(c, base, top) && LiveOk(c, live, 0)
    ensures From(live, base) == live && From(live, top) == map[]
  {
    forall a | a in live ensures base <= a < top { ChunkAt(c, base, top, a); }
  }

  /** The free chunks from q on. */
  ghost function FreeFrom(c: Chunks, q: int): set<int> { set a | a in c && !c[a].cin && a >= q }

  lemma FreeStep(c: Chunks, base: int, top: int, q: int)
    requires Tiled(c, base, top) && q in c
    ensures |FreeFrom(c, q)| == (if c[q].cin then 0 else 1) + |FreeFrom(c, q + c[q].size)|
  {
    ChunkAt(c, base, top, q);
    var n := q + c[q].size;
    forall a | a in c && q < a ensures a >= n { assert Before(c, q, a); }
    if c[q].cin {
      assert FreeFrom(c, q) == FreeFrom(c, n);
    } else {
      assert FreeFrom(c, q) == FreeFrom(c, n) + {q};
    }
  }

  lemma FreeEnds(c: Chunks, base: int, top: int)
    requires Tiled(c, base, top)
    ensures FreeFrom(c, base) == (set a | a in c && !c[a].cin) && FreeFrom(c, top) == {}
  {
    forall a | a in c ensures base <= a < top { ChunkAt(c, base, top, a); }
  }

  datatype Mallinfo = Mallinfo(arena: int, ordblks: int, hblkhd: int, usmblks: int, uordblks: int, fordblks: int,
      keepcost: int)

  const FENCEPOST_HEAD := 11

  /** One chunk of the walk: its size, and whether it is free. */
  lemma WalkChunk(m: Heap, q: int)
    requires m.Inv(0, 0) && q in m.chunks
    ensures ChunkSize(m.mem, q) == m.chunks[q].size && (IsInuse(m.mem, q) <==> m.chunks[q].cin)
        && Rd(m.mem, q + HEAD) != FENCEPOST_HEAD
    ensures m.segBase <= q < m.segBase + m.segSize && q != m.top
  {
    hide Tiled, Tiling.Aligned, Heads, Feet, IndexOk, Partition, LiveOk;
    NoZero(m.chunks, m.segBase, m.top);
    ChunkAt(m.chunks, m.segBase, m.top, q);
    ReadTags(m.mem, m.chunks, m.segBase, m.top, 0, q);
    FreePinned(m.chunks, m.segBase, m.top, q);
  }

  lemma FreePinned(c: Chunks, base: int, top: int, q: int)
    requires Tiled(c, base, top) && q in c
    ensures c[q].size >= 32 && (!c[q].cin ==> c[q].pin)
  {
    ChunkAt(c, base, top, q);
  }

  lemma WalkStart(m: Heap)
    requires m.Inv(0, 0)
    ensures m.segBase == m.top || m.segBase in m.chunks
    ensures FreeFrom(m.chunks, m.segBase) == (set a | a in m.chunks && !m.chunks[a].cin)
        && FreeFrom(m.chunks, m.top) == {}
    ensures From(m.live, m.segBase) == m.live && From(m.live, m.top) == map[] && m.segBase <= m.top
        && AlignOffset(m.segBase + 16) == 0
  {
    hide Tiling.Aligned, Heads, Feet, IndexOk, Partition, AlignOffset;
    FromEnds(m.chunks, m.segBase, m.top, m.live);
    FreeEnds(m.chunks, m.segBase, m.top);
    StartsAligned(m.segBase);
  }

  /** align_as_chunk leaves the start of a page-aligned segment where it is. */
  lemma StartsAligned(base: int)
    requires base % PAGE == 0
    ensures AlignOffset(base + 16) == 0
  {
    Bits.DivUnique(base + 16, 16, 256 * (base / PAGE) + 1, 0);
  }

  lemma WalkStep(m: Heap, q: int)
    requires m.Inv(0, 0) && q in m.chunks
    ensures var n := q + m.chunks[q].size; n <= m.top && n > q && (n == m.top || n in m.chunks)
    ensures Total(From(m.live, q)) == (if m.chunks[q].cin then m.chunks[q].size
        else 0) + Total(From(m.live, q + m.chunks[q].size))
    ensures |FreeFrom(m.chunks, q)| == (if m.chunks[q].cin then 0 else 1) + |FreeFrom(m.chunks, q + m.chunks[q].size)|
  {
    hide Tiled, Tiling.Aligned, Heads, Feet, IndexOk, Partition, LiveOk, TopOk;
    FreeStep(m.chunks, m.segBase, m.top, q);
    FromStep(m.chunks, m.segBase, m.top, m.live, q);
  }

  /** mallinfo: the chunks, top and its foot make up the footprint, which is what sbrk granted; the
      bytes in use are exactly those of the live blocks, and the rest is free. */
  method InternalMallinfo(m: Heap) returns (nm: Mallinfo)
    requires m.Valid()
    ensures m.top == 0 ==> nm == Mallinfo(0, 0, 0, 0, 0, 0, 0)
    ensures m.top != 0 ==>
        nm.arena == m.footprint == m.curBrk - m.segBase && nm.hblkhd == 0 && nm.usmblks == m.maxFootprint >= nm.arena
    ensures m.top != 0 ==>
        nm.uordblks + nm.fordblks == nm.arena && nm.uordblks == Total(m.live) && nm.keepcost == m.topsize
    ensures m.top != 0 ==> nm.ordblks == 1 + |set a | a in m.chunks && !m.chunks[a].cin|
  {
    hide Tiled, Tiling.Aligned, Heads, Feet, IndexOk, Partition, LiveOk, From, FreeFrom, AlignOffset;
    nm := Mallinfo(0, 0, 0, 0, 0, 0, 0);
    if m.top != 0 {
      WalkStart(m);
      var nfree := 1;
      var mfree := m.topsize + TOP_FOOT;
      var sum := mfree;
      var q := m.segBase + AlignOffset(m.segBase + 16);
      while m.segBase <= q < m.segBase + m.segSize && q != m.top && Rd(m.mem, q + HEAD) != FENCEPOST_HEAD
        invariant m.segBase <= q <= m.top && (q == m.top || q in m.chunks)
        invariant sum == m.topsize + TOP_FOOT + (q - m.segBase)
        invariant nfree == 1 + |FreeFrom(m.chunks, m.segBase)| - |FreeFrom(m.chunks, q)|
        invariant sum - mfree == Total(m.live) - Total(From(m.live, q))
        decreases m.top - q
      {
        WalkChunk(m, q);
        WalkStep(m, q);
        var sz := ChunkSize(m.mem, q);
        sum := sum + sz;
        if !IsInuse(m.mem, q) {
          mfree := mfree + sz;
          nfree := nfree + 1;
        }
        q := q + sz;
      }
      if q in m.chunks { WalkChunk(m, q); }
      nm := Mallinfo(sum, nfree, m.footprint - sum, m.maxFootprint, m.footprint - mfree, mfree, m.topsize);
    }
  }
}
