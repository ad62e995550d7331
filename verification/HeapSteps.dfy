/** One step of the tiling, on values: what every group of tag writes has to show, and what it then
    keeps: the tags, the index, the words of live payloads and the division of the free chunks into
    binned ones, dv and the one in transit. */
module HeapSteps {
  import opened BinIndex
  import opened Memory
  import opened Tiling
  import opened Index
  import opened HeapLemmas
  import opened HeapTags
  import opened HeapState

  /** Memory shows the tiling c of [base, top). */
  ghost predicate Tags(mem: Mem, c: Chunks, base: int, top: int, hole: int) {
    && base >= HEAP_FLOOR
    && Tiled(c, base, top) && Tiling.Aligned(c)
    && Heads(mem, c, hole) && Feet(mem, c)
  }

  /** The index and the live blocks as parts of the tiling c. */
  ghost predicate Parts(c: Chunks, f: Sizes, live: map<int, int>) {
    && SomeOf(f, c) && SomeOf(live, c)
    && (forall a :: a in f ==> !c[a].cin)
    && (forall a :: a in live ==> c[a].cin)
  }

  /** y is the trailing word of the free chunk x, which is in no bin; or no foot was written. */
  ghost predicate FootWritten(c': Chunks, f: Sizes, u: int, x: int, y: int) {
    y == u + HEAD || (x in c' && !c'[x].cin && x !in f && y == x + c'[x].size)
  }

  lemma WrittenOutside(c': Chunks, base: int, top': int, f: Sizes, live: map<int, int>, m: Sizes, u: int, x: int,
      y: int)
    requires Tiled(c', base, top') && Parts(c', f, live) && (m == f || m == live)
    requires (u in c' || u >= top') && FootWritten(c', f, u, x, y)
    ensures OutsideBodies(m, u + HEAD) && OutsideBodies(m, y)
  {
    HeadOutside(c', base, top', m, u);
    if y != u + HEAD { FootOutside(c', base, top', m, x); }
  }

  lemma WrittenHigh(c': Chunks, base: int, top': int, u: int)
    requires Tiled(c', base, top') && (u in c' || u >= top') && base >= HEAP_FLOOR
    ensures u >= HEAP_FLOOR
  {
    if u in c' { ChunkAt(c', base, top', u); }
  }

  lemma FootHigh(c': Chunks, base: int, top': int, f: Sizes, u: int, x: int, y: int)
    requires Tiled(c', base, top') && (u in c' || u >= top') && base >= HEAP_FLOOR && FootWritten(c', f, u, x, y)
    ensures y >= HEAP_FLOOR && (y == u + HEAD || (y in c' && y < top'))
  {
    WrittenHigh(c', base, top', u);
    if y != u + HEAD { ChunkAt(c', base, top', x); }
  }

  /** Tag writes reach no link of a binned chunk and no payload of a live one. */
  lemma WritesKeep(mem: Mem, mem': Mem, c': Chunks, base: int, top': int, u: int, v: int, x: int, y: int,
                   smallmap: nat, treemap: nat, bins: Bins, f: Sizes, live: map<int, int>)
    requires Tiled(c', base, top') && base >= HEAP_FLOOR && TagWrites(mem, mem', c', top', u, v, y)
        && FootWritten(c', f, u, x, y)
    requires Parts(c', f, live) && Spaced(f) && IndexOk(mem, smallmap, treemap, bins, f)
    ensures IndexOk(mem', smallmap, treemap, bins, f) && BodiesSame(mem, mem', live)
  {
    WrittenOutside(c', base, top', f, live, f, u, x, y);
    WrittenOutside(c', base, top', f, live, live, u, x, y);
    HeadOutside(c', base, top', f, v);
    HeadOutside(c', base, top', live, v);
    WritesOutside(mem, mem', f, u + HEAD, v + HEAD, y, y);
    WritesOutside(mem, mem', live, u + HEAD, v + HEAD, y, y);
    WrittenHigh(c', base, top', u);
    WrittenHigh(c', base, top', v);
    FootHigh(c', base, top', f, u, x, y);
    IndexFrame(mem, mem', smallmap, treemap, bins, f);
  }

  /** The words of top are not among those written. */
  lemma TopKept(mem: Mem, mem': Mem, c': Chunks, base: int, top: int, topsize: int, end: int, f: Sizes, u: int,
      v: int, x: int, y: int)
    requires Tiled(c', base, top) && base >= HEAP_FLOOR && TagWrites(mem, mem', c', top, u, v, y)
        && FootWritten(c', f, u, x, y)
    requires u in c' && v in c' && TopOk(mem, top, topsize, end)
    ensures TopOk(mem', top, topsize, end)
  {
    ChunkAt(c', base, top, u);
    ChunkAt(c', base, top, v);
    FootHigh(c', base, top, f, u, x, y);
  }

  /** The free chunks of both tilings are the same, but for the ones in transit. */
  ghost predicate FreeSame(c: Chunks, c': Chunks, orphan: int, orphan': int) {
    && (forall a :: a in c && !c[a].cin && a != orphan ==>
        a in c' && !c'[a].cin && c'[a].size == c[a].size && a != orphan')
    && (forall a :: a in c' && !c'[a].cin && a != orphan' ==> a in c && !c[a].cin && a != orphan)
  }

  lemma PartitionAfter(c: Chunks, c': Chunks, f: Sizes, dv: int, dvsize: int, hole: int, hole': int, orphan: int,
      orphan': int)
    requires Partition(c, f, dv, dvsize, hole, orphan) && FreeSame(c, c', orphan, orphan')
    requires orphan' != 0 ==> orphan' in c' && !c'[orphan'].cin
    requires hole' != 0 ==> hole' in c' && c'[hole'].cin
    requires hole != 0 && dvsize != 0 && dv == hole ==> dv == hole' && dv != orphan'
    ensures Partition(c', f, dv, dvsize, hole', orphan')
  {
  }

  lemma BinnedFree(c: Chunks, f: Sizes, dv: int, dvsize: int, hole: int, orphan: int)
    requires Partition(c, f, dv, dvsize, hole, orphan)
    ensures SomeOf(f, c) && forall a :: a in f ==> !c[a].cin
  {
  }

  /** The tags of a chunk as the macros read them. */
  lemma ReadTags(mem: Mem, c: Chunks, base: int, top: int, hole: int, a: int)
    requires Tags(mem, c, base, top, hole) && a in c && a != hole
    ensures SizeOf(Rd(mem, a + HEAD)) == c[a].size && CinOf(Rd(mem, a + HEAD)) == c[a].cin
        && PinOf(Rd(mem, a + HEAD)) == c[a].pin
    ensures OrPin(Rd(mem, a + HEAD)) == HeadWord(c[a].(pin := true))
    ensures ClearPin(Rd(mem, a + HEAD)) == HeadWord(c[a].(pin := false))
  {
    HeadBits(c[a], c[a].size / 16);
  }

  /** Reading the free chunk before a: prev_foot leads to it. */
  lemma ReadPrev(mem: Mem, c: Chunks, base: int, top: int, hole: int, a: int) returns (q: int)
    requires Tags(mem, c, base, top, hole) && a in c && !c[a].pin
    ensures q in c && q + c[q].size == a && !c[q].cin && c[q].pin && q == a - Rd(mem, a + PREV_FOOT)
        && c[q].size == Rd(mem, a + PREV_FOOT) && q >= base && q < a
  {
    ChunkAt(c, base, top, a);
    q := Prev(c, base, top, a);
    ChunkAt(c, base, top, q);
  }

  /** What every step keeps, once the new tiling is shown. */
  lemma StepParts(mem: Mem, mem': Mem, c: Chunks, c': Chunks, base: int, top': int,
                  hole: int, hole': int, orphan: int, orphan': int, u: int, v: int, x: int, y: int,
                  smallmap: nat, treemap: nat, bins: Bins, f: Sizes, dv: int, dvsize: int, live: map<int, int>)
    requires Tags(mem', c', base, top', hole') && top' < SIZE_RANGE
    requires TagWrites(mem, mem', c', top', u, v, y) && FootWritten(c', f, u, x, y)
    requires FreeSame(c, c', orphan, orphan') && Partition(c, f, dv, dvsize, hole, orphan)
    requires orphan' != 0 ==> orphan' in c' && !c'[orphan'].cin
    requires hole' != 0 ==> hole' in c' && c'[hole'].cin
    requires hole != 0 && dvsize != 0 && dv == hole ==> dv == hole' && dv != orphan'
    requires IndexOk(mem, smallmap, treemap, bins, f) && LiveOk(c', live, hole')
    ensures IndexOk(mem', smallmap, treemap, bins, f)
    ensures Partition(c', f, dv, dvsize, hole', orphan') && BodiesSame(mem, mem', live)
  {
    PartitionAfter(c, c', f, dv, dvsize, hole, hole', orphan, orphan');
    BinnedFree(c', f, dv, dvsize, hole', orphan');
    BinnedSpaced(c', base, top', f);
    WritesKeep(mem, mem', c', base, top', u, v, x, y, smallmap, treemap, bins, f, live);
  }

  /** ... and a step that leaves top in place keeps top's words. */
  lemma StepKeeps(mem: Mem, mem': Mem, c: Chunks, c': Chunks, base: int, top: int, topsize: int, end: int,
                  hole: int, hole': int, orphan: int, orphan': int, u: int, v: int, x: int, y: int,
                  smallmap: nat, treemap: nat, bins: Bins, f: Sizes, dv: int, dvsize: int, live: map<int, int>)
    requires Tags(mem', c', base, top, hole') && end < SIZE_RANGE
    requires TagWrites(mem, mem', c', top, u, v, y) && u in c' && v in c' && FootWritten(c', f, u, x, y)
    requires FreeSame(c, c', orphan, orphan') && Partition(c, f, dv, dvsize, hole, orphan)
    requires orphan' != 0 ==> orphan' in c' && !c'[orphan'].cin
    requires hole' != 0 ==> hole' in c' && c'[hole'].cin
    requires hole != 0 && dvsize != 0 && dv == hole ==> dv == hole' && dv != orphan'
    requires IndexOk(mem, smallmap, treemap, bins, f) && TopOk(mem, top, topsize, end) && LiveOk(c', live, hole')
    ensures IndexOk(mem', smallmap, treemap, bins, f) && TopOk(mem', top, topsize, end)
    ensures Partition(c', f, dv, dvsize, hole', orphan') && BodiesSame(mem, mem', live)
  {
    StepParts(mem, mem', c, c', base, top, hole, hole', orphan, orphan', u, v, x, y, smallmap, treemap, bins, f, dv,
        dvsize, live);
    TopKept(mem, mem', c', base, top, topsize, end, f, u, v, x, y);
  }

  // ----- the designated victim and the chunk in transit -----

  /** dv, taken out of its role, is the chunk in transit. */
  lemma DvDetached(c: Chunks, f: Sizes, dv: int, dvsize: int)
    requires Partition(c, f, dv, dvsize, 0, 0) && dvsize != 0 && 0 !in c
    ensures Partition(c, f, 0, 0, 0, dv) && dv in c && !c[dv].cin && c[dv].size == dvsize && dv != 0
  {
  }

  lemma DvAttached(c: Chunks, f: Sizes, p: int)
    requires Partition(c, f, 0, 0, 0, p) && p != 0 && 0 !in c && c[p].size > 0
    ensures Partition(c, f, p, c[p].size, 0, 0)
  {
  }

  /** dv, merged into the hole, has left its role already. */
  lemma DvDropped(c: Chunks, f: Sizes, hole: int, dvsize: int, orphan: int)
    requires Partition(c, f, hole, dvsize, hole, orphan) && hole != 0 && dvsize != 0
    ensures Partition(c, f, 0, 0, hole, orphan)
  {
  }

  lemma NoZero(c: Chunks, base: int, top: int)
    requires Tiled(c, base, top) && base > 0
    ensures 0 !in c
  {
    if 0 in c { ChunkAt(c, base, top, 0); }
  }
}
