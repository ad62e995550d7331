/** malloc_state, the one mstate of this kernel, with the memory it manages (src/mm/malloc.c:2586-2612). */
module HeapState {
  import opened BinIndex
  import opened Memory
  import opened Tiling
  import opened Index
  import opened HeapLemmas

  const TOP_FOOT := 80
  const PAGE := 4096

  /** A value of size_t. */
  type SizeT = x: int | 0 <= x < SIZE_RANGE

  /** Each binned chunk is a free chunk of its size; every free chunk is binned, or is the
      designated victim, or is `orphan`, the one chunk in transit between bins. */
  ghost predicate Partition(c: Chunks, f: Sizes, dv: int, dvsize: int, hole: int, orphan: int) {
    && (forall a :: a in f ==> a in c && !c[a].cin && f[a] == c[a].size && a != orphan && (dvsize != 0 ==> a != dv))
    && (forall a :: a in c && !c[a].cin ==> a in f || a == orphan || (dvsize != 0 && a == dv))
    && dvsize >= 0
    && (dvsize == 0 ==> dv == 0)
    && (dvsize != 0 ==> (hole != 0 && dv == hole) || (dv in c && !c[dv].cin && c[dv].size == dvsize && dv != orphan))
    && (orphan != 0 ==> orphan in c && !c[orphan].cin)
    && (hole != 0 ==> hole in c && c[hole].cin)
  }

  /** The live blocks are the chunks in use, with their sizes; the chunk `hole` is being released. */
  ghost predicate LiveOk(c: Chunks, live: map<int, int>, hole: int) {
    LiveIs(c, live, hole) && SomeOf(live, c)
  }

  /** What do_check_top_chunk asks (src/mm/malloc.c:3233-3244). */
  ghost predicate TopOk(mem: Mem, top: int, topsize: int, end: int) {
    && top % 16 == 0 && topsize % 16 == 0 && topsize > 0
    && top + topsize + TOP_FOOT == end
    && Rd(mem, top + HEAD) == topsize + 1
    && Rd(mem, top + topsize + HEAD) == TOP_FOOT
  }

  /** What sbrk's break is between calls, no one else moving it. */
  ghost predicate BrkOk(curBrk: int, endSymbol: int, maxBrk: int) {
    && HEAP_FLOOR < endSymbol && endSymbol + PAGE < maxBrk <= SIZE_RANGE / 2
    && 0 <= curBrk < maxBrk && curBrk % PAGE == 0 && (curBrk != 0 ==> endSymbol <= curBrk)
  }

  /** The designated victim: where it is and how large, both zero when there is none. */
  datatype Victim = Victim(at: int, size: int)

  /** What is kept of the space got from the system. */
  datatype Accounts = Accounts(segSize: int, footprint: int, maxFootprint: int, trimCheck: int)

  class Heap {
    var mem: Mem
    var smallmap: nat
    var treemap: nat
    var dvsize: int
    var topsize: int
    var leastAddr: int
    var dv: int
    var top: int
    var trimCheck: int
    var releaseChecks: int
    var footprint: int
    var maxFootprint: int
    var footprintLimit: SizeT
    var noncontiguous: bool
    var segBase: int
    var segSize: int

    /** sbrk's break, and the parameters the linker and mallopt fix. */
    var curBrk: int
    const endSymbol: int
    const maxBrk: int
    var trimThreshold: int

    ghost var chunks: Chunks
    ghost var bins: Bins
    ghost var binned: Sizes
    ghost var live: map<int, int>

    /** The static state of the kernel before the first call: all zero. */
    constructor (endSymbol: int, maxBrk: int, trimThreshold: int)
      ensures top == 0 && Uninitialised() && curBrk == 0 && this.endSymbol == endSymbol && this.maxBrk == maxBrk
      ensures this.trimThreshold == trimThreshold && footprintLimit == 0 && !noncontiguous
    {
      mem := map[];
      smallmap, treemap, dvsize, topsize, leastAddr, dv, top := 0, 0, 0, 0, 0, 0, 0;
      trimCheck, releaseChecks, footprint, maxFootprint, footprintLimit := 0, 0, 0, 0, 0;
      noncontiguous := false;
      segBase, segSize, curBrk := 0, 0, 0;
      this.endSymbol, this.maxBrk, this.trimThreshold := endSymbol, maxBrk, trimThreshold;
      chunks, binned, live := map[], map[], map[];
      bins := Bins(seq(NSMALLBINS, i => []), seq(NTREEBINS, i => Tries.Nil));
    }

    /** The segment lies below MAX_BRK and is the whole footprint. */
    ghost predicate SegOk()
      reads this
    {
      && HEAP_FLOOR < endSymbol <= segBase && endSymbol + PAGE < maxBrk
      && segBase % PAGE == 0 && segSize % PAGE == 0 && segSize > 0
      && leastAddr == segBase
      && footprint == segSize && footprint <= maxFootprint
      && segBase + segSize < maxBrk <= SIZE_RANGE / 2
    }

    /** The invariant but for the break. */
    ghost predicate Core(hole: int, orphan: int)
      reads this
    {
      && Tiled(chunks, segBase, top) && Tiling.Aligned(chunks)
      && Heads(mem, chunks, hole) && Feet(mem, chunks)
      && TopOk(mem, top, topsize, segBase + segSize)
      && IndexOk(mem, smallmap, treemap, bins, binned)
      && Partition(chunks, binned, dv, dvsize, hole, orphan)
      && LiveOk(chunks, live, hole)
      && SegOk()
    }

    /** The segment is exactly what sbrk granted, and the chunks and bins in it are well formed. */
    ghost predicate Inv(hole: int, orphan: int)
      reads this
    {
      Core(hole, orphan) && curBrk == segBase + segSize
    }

    /** h is tagged in use and has size s. */
    ghost predicate HoleIs(h: int, s: int)
      reads this
    {
      h in chunks && chunks[h].cin && chunks[h].size == s && h != 0
    }

    /** The chunk before p is in use, and p knows. */
    ghost predicate Pinned(p: int)
      reads this
    {
      p in chunks && chunks[p].pin
    }

    /** Before the first allocation everything is zero. */
    ghost predicate Uninitialised()
      reads this
    {
      && top == 0 && topsize == 0 && dv == 0 && dvsize == 0 && smallmap == 0 && treemap == 0
      && segBase == 0 && segSize == 0 && leastAddr == 0 && footprint == 0 && maxFootprint >= 0
      && chunks == map[] && binned == map[] && live == map[]
      && bins == Bins(seq(NSMALLBINS, i => []), seq(NTREEBINS, i => Tries.Nil))
      && (forall i :: 0 <= i < NTREEBINS ==> Rd(mem, TreeBinAt(i)) == 0)
    }

    ghost predicate Valid()
      reads this
    {
      if top == 0 then Uninitialised() && BrkOk(curBrk, endSymbol, maxBrk) else Inv(0, 0)
    }
  }

  function VictimOf(m: Heap): Victim
    reads m`dv, m`dvsize
  {
    Victim(m.dv, m.dvsize)
  }

  function AccountsOf(m: Heap): Accounts
    reads m`segSize, m`footprint, m`maxFootprint, m`trimCheck
  {
    Accounts(m.segSize, m.footprint, m.maxFootprint, m.trimCheck)
  }

  // ----- consequences of the invariant -----

  lemma BinnedSpaced(c: Chunks, base: int, top: int, f: Sizes)
    requires Tiled(c, base, top) && Tiling.Aligned(c) && SomeOf(f, c) && base >= HEAP_FLOOR && top < SIZE_RANGE
    ensures Spaced(f) && AlignedSizes(f)
    ensures forall a :: a in f ==> a >= base
  {
    forall a | a in f ensures a >= base && 32 <= f[a] < SIZE_RANGE { ChunkAt(c, base, top, a); }
    forall a, b {:trigger a in f, b in f} | a in f && b in f && a < b ensures a + f[a] <= b { assert Before(c, a, b); }
  }
}
