/** The steps that change live chunks where they lie: division, growth into free space and merging of
    neighbours, for realloc, memalign, ialloc and bulk_free. */
module HeapResizes {
  import opened BinIndex
  import opened Memory
  import opened Tiling
  import opened Macros
  import opened Index
  import opened HeapLemmas
  import opened HeapTags
  import opened HeapState
  import opened HeapSteps
  import opened HeapMoves
  import opened HeapChunks
  import opened HeapReturns
  import Bits

  // ----- division -----

  /** The chunk after one in use, or top, knows so already. */
  lemma NextPinned(mem: Mem, c: Chunks, base: int, top: int, topsize: int, end: int, p: int)
    requires Tags(mem, c, base, top, 0) && TopOk(mem, top, topsize, end) && p in c && c[p].cin
    ensures var n := p + c[p].size; OrPin(Rd(mem, n + HEAD)) == Rd(mem, n + HEAD)
  {
    var n := p + c[p].size;
    ChunkAt(c, base, top, p);
    NoZero(c, base, top);
    if n in c { ReadTags(mem, c, base, top, 0, n); }
  }

  lemma SplitWords(mem: Mem, p: int, n: int, rest: int)
    requires n > 8 && rest > 8 && OrPin(Rd(mem, p + n + rest + HEAD)) == Rd(mem, p + n + rest + HEAD)
    ensures var mem' := SetInuse(SetInuse(mem, p, n), p + n, rest);
            && OnlyWords(mem, mem', p + HEAD, p + n + HEAD, p + HEAD, p + HEAD)
            && Rd(mem', p + HEAD) == n + 2 + (if PinOf(Rd(mem, p + HEAD)) then 1 else 0)
            && Rd(mem', p + n + HEAD) == rest + 3
    ensures rest % 2 == 0 ==>
            var mem' := SetInuse(SetInuse(mem, p + n, rest), p, n);
            && OnlyWords(mem, mem', p + HEAD, p + n + HEAD, p + HEAD, p + HEAD)
            && Rd(mem', p + HEAD) == n + 2 + (if PinOf(Rd(mem, p + HEAD)) then 1 else 0)
            && Rd(mem', p + n + HEAD) == rest + 3
  {
  }

  /** Whatever live becomes, as long as the tags are those of the divided chunk. */
  lemma SplitAll(mem: Mem, mem': Mem, c: Chunks, c': Chunks, base: int, top: int, topsize: int, end: int, p: int,
      n: int, hole: int, hole': int,
                 smallmap: nat, treemap: nat, bins: Bins, f: Sizes, dv: int, dvsize: int, live: Sizes)
    requires Tags(mem, c, base, top, hole) && TopOk(mem, top, topsize, end) && end < SIZE_RANGE
    requires IndexOk(mem, smallmap, treemap, bins, f) && Partition(c, f, dv, dvsize, hole, 0) && LiveOk(c', live, hole')
    requires p in c && c[p].cin && SplitAt(c, c', p, n) && 32 <= n && c[p].size - n >= 32 && n % 16 == 0
    requires hole == 0 || hole == p
    requires hole' == 0 || hole' == p || hole' == p + n
    requires dvsize != 0 ==> dv != p
    requires OnlyWords(mem, mem', p + HEAD, p + n + HEAD, p + HEAD, p + HEAD)
    requires hole' != p ==> Rd(mem', p + HEAD) == HeadWord(c'[p])
    requires hole' != p + n ==> Rd(mem', p + n + HEAD) == HeadWord(c'[p + n])
    ensures Tags(mem', c', base, top, hole') && TopOk(mem', top, topsize, end)
    ensures IndexOk(mem', smallmap, treemap, bins, f) && Partition(c', f, dv, dvsize, hole', 0)
        && BodiesSame(mem, mem', live)
  {
    hide Tiled, Tiling.Aligned, Heads, Feet, IndexOk, TopOk, Partition, LiveOk, BodiesSame, TagWrites, FreeSame,
        OnlyWords;
    SplitUsed(mem, mem', c, c', base, top, p, n, hole, hole');
    StepKeeps(mem, mem', c, c', base, top, topsize, end, hole, hole', 0, 0, p, p + n, 0, p + HEAD,
              smallmap, treemap, bins, f, dv, dvsize, live);
  }

  lemma LiveSplit(c: Chunks, c': Chunks, base: int, top: int, live: Sizes, p: int, n: int)
    requires Tiled(c, base, top) && base > 0 && LiveOk(c, live, 0) && p in live && SplitAt(c, c', p, n)
    ensures LiveOk(c', live[p := n], p + n)
    ensures LiveOk(c', (live - {p})[p + n := c[p].size - n], p)
    ensures LiveOk(c', live[p := n][p + n := c[p].size - n], 0)
    ensures p + n !in live
  {
    SplitFresh(c, base, top, p, n);
    NoZero(c, base, top);
    ChunkAt(c, base, top, p);
  }

  lemma ReadLive(mem: Mem, c: Chunks, base: int, top: int, p: int, n: int)
    requires Tags(mem, c, base, top, 0) && p in c && c[p].cin
    ensures n + 2 + (if PinOf(Rd(mem, p + HEAD)) then 1 else 0) == HeadWord(c[p].(size := n))
  {
    NoZero(c, base, top);
    ReadTags(mem, c, base, top, 0, p);
  }

  /** set_inuse(p, n); set_inuse(p + n, rest): p keeps its first n bytes; the rest is a hole. */
  method SplitTail(m: Heap, p: int, n: int, rest: int)
    requires m.Inv(0, 0) && p in m.live && m.live[p] == n + rest && n >= 32 && rest >= 32 && n % 16 == 0
    modifies m`mem, m`chunks, m`live
    ensures m.Inv(p + n, 0) && m.live == old(m.live)[p := n] && m.HoleIs(p + n, rest) && p + n !in m.live
    ensures m.chunks[p + n].pin && (m.dvsize != 0 ==> m.dv != p + n)
    ensures Rd(m.mem, p + n + HEAD) == HeadWord(m.chunks[p + n])
    ensures BodiesSame(old(m.mem), m.mem, m.live)
  {
    hide Tiled, Tiling.Aligned, Heads, Feet, IndexOk, TopOk, Partition, LiveOk, BodiesSame, SetInuse, OnlyWords;
    ghost var mem0, c, live0 := m.mem, m.chunks, m.live;
    LiveIsChunk(c, m.segBase, m.top, m.binned, m.dv, m.dvsize, 0, live0, p);
    NextPinned(m.mem, c, m.segBase, m.top, m.topsize, m.segBase + m.segSize, p);
    ReadLive(m.mem, c, m.segBase, m.top, p, n);
    SplitWords(m.mem, p, n, rest);
    m.mem := SetInuse(m.mem, p, n);
    m.mem := SetInuse(m.mem, p + n, rest);
    m.chunks := Split(c, p, n);
    m.live := m.live[p := n];
    LiveSplit(c, m.chunks, m.segBase, m.top, live0, p, n);
    SplitFresh(c, m.segBase, m.top, p, n);
    DvIn(c, m.binned, m.dv, m.dvsize, p + n);
    SplitAll(mem0, m.mem, c, m.chunks, m.segBase, m.top, m.topsize, m.segBase + m.segSize, p, n, 0, p + n,
             m.smallmap, m.treemap, m.bins, m.binned, m.dv, m.dvsize, m.live);
  }

  lemma DvIn(c: Chunks, f: Sizes, dv: int, dvsize: int, q: int)
    requires Partition(c, f, dv, dvsize, 0, 0) && q !in c
    ensures dvsize != 0 ==> dv != q
  {
  }

  lemma RestEven(n: int, rest: int)
    requires n % 16 == 0 && (n + rest) % 16 == 0
    ensures rest % 2 == 0
  {
    Bits.DivUnique(rest, 2, 8 * ((n + rest) / 16 - n / 16), 0);
  }

  /** set_inuse(p + n, rest); set_inuse(p, n): the block moves to p + n; its first n bytes are a hole. */
  method SplitHead(m: Heap, p: int, n: int, rest: int)
    requires m.Inv(0, 0) && p in m.live && m.live[p] == n + rest && n >= 32 && rest >= 32 && n % 16 == 0
    modifies m`mem, m`chunks, m`live
    ensures m.Inv(p, 0) && m.live == (old(m.live) - {p})[p + n := rest] && m.HoleIs(p, n) && p + n !in old(m.live)
    ensures m.dvsize != 0 ==> m.dv != p
    ensures Rd(m.mem, p + HEAD) == HeadWord(m.chunks[p])
    ensures BodiesSame(old(m.mem), m.mem, m.live)
  {
    hide Tiled, Tiling.Aligned, Heads, Feet, IndexOk, TopOk, Partition, LiveOk, BodiesSame, SetInuse, OnlyWords,
        OrPin, PinOf, Rd;
    ghost var mem0, c, live0 := m.mem, m.chunks, m.live;
    LiveIsChunk(c, m.segBase, m.top, m.binned, m.dv, m.dvsize, 0, live0, p);
    NextPinned(m.mem, c, m.segBase, m.top, m.topsize, m.segBase + m.segSize, p);
    ReadLive(m.mem, c, m.segBase, m.top, p, n);
    RestEven(n, rest);
    SplitWords(m.mem, p, n, rest);
    m.mem := SetInuse(m.mem, p + n, rest);
    m.mem := SetInuse(m.mem, p, n);
    m.chunks := Split(c, p, n);
    m.live := (m.live - {p})[p + n := rest];
    LiveSplit(c, m.chunks, m.segBase, m.top, live0, p, n);
    SplitAll(mem0, m.mem, c, m.chunks, m.segBase, m.top, m.topsize, m.segBase + m.segSize, p, n, 0, p,
             m.smallmap, m.treemap, m.bins, m.binned, m.dv, m.dvsize, m.live);
  }

  // ----- growth -----

  lemma LiveGrown(c: Chunks, c': Chunks, base: int, top: int, live: Sizes, p: int, n: int)
    requires Tiled(c, base, top) && base > 0 && LiveOk(c, live, 0) && p in live && n == p + c[p].size && n in c
        && !c[n].cin && c' == Grown(c, p)
    ensures LiveOk(c', live[p := c[p].size + c[n].size], 0)
  {
    NoZero(c, base, top);
    ChunkAt(c, base, top, p);
    ChunkAt(c, base, top, n);
  }

  /** A chunk that was live with fewer bytes keeps those. */
  lemma GrownBodies(mem: Mem, mem': Mem, live: Sizes, p: int, s: int)
    requires p in live && live[p] <= s && BodiesSame(mem, mem', live[p := s])
    ensures BodiesSame(mem, mem', live)
  {
    BodiesSameSub(mem, mem', live[p := s], live);
  }

  lemma GrowAll(mem: Mem, mem': Mem, c: Chunks, c': Chunks, base: int, top: int, topsize: int, end: int, p: int,
      n: int, s: int,
                smallmap: nat, treemap: nat, bins: Bins, f: Sizes, dv: int, dvsize: int, live: Sizes)
    requires Tags(mem, c, base, top, 0) && TopOk(mem, top, topsize, end) && end < SIZE_RANGE
    requires IndexOk(mem, smallmap, treemap, bins, f) && Partition(c, f, dv, dvsize, 0, n) && LiveOk(c, live, 0)
        && n != 0
    requires p in live && n == p + live[p] && n in c && s == live[p] + c[n].size && c' == Grown(c, p)
        && mem' == SetInuse(mem, p, s)
    ensures Tags(mem', c', base, top, 0) && TopOk(mem', top, topsize, end)
    ensures IndexOk(mem', smallmap, treemap, bins, f) && Partition(c', f, dv, dvsize, 0, 0)
        && LiveOk(c', live[p := s], 0)
    ensures BodiesSame(mem, mem', live)
  {
    hide Tiled, Tiling.Aligned, Heads, Feet, IndexOk, TopOk, Partition, BodiesSame, TagWrites, FreeSame, OnlyWords,
        SetInuse;
    OrphanIs(c, base, top, f, dv, dvsize, 0, n);
    GrowNext(mem, mem', c, c', base, top, p, n, s);
    LiveGrown(c, c', base, top, live, p, n);
    StepKeeps(mem, mem', c, c', base, top, topsize, end, 0, 0, n, 0, p, p + s, 0, p + HEAD,
              smallmap, treemap, bins, f, dv, dvsize, live[p := s]);
    GrownBodies(mem, mem', live, p, s);
  }

  lemma NextChunk(c: Chunks, base: int, top: int, f: Sizes, dv: int, dvsize: int, hole: int, live: Sizes, p: int,
      n: int)
    requires Tiled(c, base, top) && Partition(c, f, dv, dvsize, hole, n) && LiveOk(c, live, hole) && p in live && n != 0
    ensures p in c && c[p].cin && c[p].size == live[p] && n in c && !c[n].cin
  {
  }

  /** set_inuse(p, oldsize + nextsize): p takes over the whole free chunk after it. */
  method GrowWhole(m: Heap, p: int, n: int, s: int)
    requires m.Inv(0, n) && n != 0 && p in m.live && n == p + m.live[p] && n in m.chunks
        && s == m.live[p] + m.chunks[n].size
    modifies m`mem, m`chunks, m`live
    ensures m.Inv(0, 0) && m.live == old(m.live)[p := s]
    ensures BodiesSame(old(m.mem), m.mem, old(m.live))
  {
    hide Tiled, Tiling.Aligned, Heads, Feet, IndexOk, TopOk, Partition, LiveOk, BodiesSame, SetInuse;
    ghost var mem0, c, live0 := m.mem, m.chunks, m.live;
    NextChunk(c, m.segBase, m.top, m.binned, m.dv, m.dvsize, 0, live0, p, n);
    m.mem := SetInuse(m.mem, p, s);
    m.chunks := Grown(c, p);
    m.live := m.live[p := s];
    GrowAll(mem0, m.mem, c, m.chunks, m.segBase, m.top, m.topsize, m.segBase + m.segSize, p, n, s,
            m.smallmap, m.treemap, m.bins, m.binned, m.dv, m.dvsize, live0);
  }

  /** exhaust dv: p takes over all of it. */
  method GrowOverDv(m: Heap, p: int, s: int)
    requires m.Inv(0, 0) && p in m.live && m.dvsize != 0 && m.dv == p + m.live[p] && s == m.live[p] + m.dvsize
    modifies m`mem, m`chunks, m`live, m`dv, m`dvsize
    ensures m.Inv(0, 0) && m.live == old(m.live)[p := s] && VictimOf(m) == Victim(0, 0)
    ensures BodiesSame(old(m.mem), m.mem, old(m.live))
  {
    hide Tiled, Tiling.Aligned, Heads, Feet, IndexOk, TopOk, Partition, LiveOk, BodiesSame, SetInuse;
    ghost var mem0, c, live0, n := m.mem, m.chunks, m.live, m.dv;
    DvIs(c, m.segBase, m.top, m.binned, m.dv, m.dvsize);
    NextChunk(c, m.segBase, m.top, m.binned, 0, 0, 0, live0, p, n);
    m.mem := SetInuse(m.mem, p, s);
    m.dvsize := 0;
    m.dv := 0;
    m.chunks := Grown(c, p);
    m.live := m.live[p := s];
    GrowAll(mem0, m.mem, c, m.chunks, m.segBase, m.top, m.topsize, m.segBase + m.segSize, p, n, s,
            m.smallmap, m.treemap, m.bins, m.binned, 0, 0, live0);
  }

  lemma LiveGrownPart(c: Chunks, c': Chunks, base: int, top: int, live: Sizes, p: int, q: int, n: int)
    requires Tiled(c, base, top) && Tiled(c', base, top) && base > 0 && LiveOk(c, live, 0) && p in live
        && q == p + c[p].size && q in c && !c[q].cin
    requires c' == GrownPart(c, p, n) && n > 0 && p + n !in c
    ensures LiveOk(c', live[p := n], 0)
  {
    NoZero(c, base, top);
    ChunkAt(c, base, top, p);
    ChunkAt(c, base, top, q);
  }

  lemma GrowPartAll(mem: Mem, mem': Mem, c: Chunks, c': Chunks, base: int, top: int, topsize: int, end: int, p: int,
      q: int, n: int, rest: int,
                    smallmap: nat, treemap: nat, bins: Bins, f: Sizes, dv: int, dvsize: int, live: Sizes)
    requires Tags(mem, c, base, top, 0) && TopOk(mem, top, topsize, end) && end < SIZE_RANGE
    requires IndexOk(mem, smallmap, treemap, bins, f) && Partition(c, f, dv, dvsize, 0, q) && LiveOk(c, live, 0)
        && q != 0
    requires p in live && q == p + live[p] && q in c && n % 16 == 0 && live[p] < n && rest >= 32
        && n + rest == live[p] + c[q].size
    requires c' == GrownPart(c, p, n)
    requires mem' == ClearPinuse(SetSizeAndPinuseOfFreeChunk(SetInuse(mem, p, n), p + n, rest), p + n + rest)
    ensures Tags(mem', c', base, top, 0) && TopOk(mem', top, topsize, end)
    ensures IndexOk(mem', smallmap, treemap, bins, f) && Partition(c', f, dv, dvsize, 0, p + n)
        && LiveOk(c', live[p := n], 0)
    ensures BodiesSame(mem, mem', live) && 0 !in c' && p + n in c' && c'[p + n].size == rest && p + n != 0
  {
    hide Tiled, Tiling.Aligned, Heads, Feet, IndexOk, TopOk, Partition, BodiesSame, TagWrites, FreeSame, OnlyWords,
        SetInuse, SetSizeAndPinuseOfFreeChunk, ClearPinuse, GrownPart;
    OrphanIs(c, base, top, f, dv, dvsize, 0, q);
    MergedIsBig(c, base, top, p);
    GrownPartTiled(c, base, top, p, n);
    GrowPart(mem, mem', c, c', base, top, p, q, n, rest);
    LiveGrownPart(c, c', base, top, live, p, q, n);
    PartKeys(c, c', p, n);
    ChunkAt(c', base, top, p + n);
    NoZero(c', base, top);
    NewOrphan(c, f, dv, dvsize, q, p + n);
    StepKeeps(mem, mem', c, c', base, top, topsize, end, 0, 0, q, p + n, p, p + n, p + n, p + n + rest,
              smallmap, treemap, bins, f, dv, dvsize, live[p := n]);
    GrownBodies(mem, mem', live, p, n);
  }

  lemma PartKeys(c: Chunks, c': Chunks, p: int, n: int)
    requires p in c && p + c[p].size in c && c' == GrownPart(c, p, n) && c[p].size > 0
    ensures p in c' && p + n in c' && !c'[p + n].cin
  {
  }

  lemma NewOrphan(c: Chunks, f: Sizes, dv: int, dvsize: int, q: int, r: int)
    requires Partition(c, f, dv, dvsize, 0, q) && r !in c
    ensures r !in f
  {
  }

  /** Extend into dv and give the rest back: r = p + n is dv from now on. */
  method GrowIntoDv(m: Heap, p: int, n: int, rest: int)
    requires m.Inv(0, 0) && p in m.live && m.dvsize != 0 && m.dv == p + m.live[p] && n + rest == m.live[p] + m.dvsize
    requires n % 16 == 0 && m.live[p] < n && rest >= 32
    modifies m`mem, m`chunks, m`live, m`dv, m`dvsize
    ensures m.Inv(0, 0) && m.live == old(m.live)[p := n] && m.dvsize == rest && m.dv == p + n
    ensures BodiesSame(old(m.mem), m.mem, old(m.live))
  {
    hide Tiled, Tiling.Aligned, Heads, Feet, IndexOk, TopOk, Partition, LiveOk, BodiesSame, SetInuse,
        SetSizeAndPinuseOfFreeChunk, ClearPinuse, GrownPart;
    ghost var mem0, c, live0, q := m.mem, m.chunks, m.live, m.dv;
    DvIs(c, m.segBase, m.top, m.binned, m.dv, m.dvsize);
    NextChunk(c, m.segBase, m.top, m.binned, 0, 0, 0, live0, p, q);
    var r := p + n;
    m.mem := SetInuse(m.mem, p, n);
    m.mem := SetSizeAndPinuseOfFreeChunk(m.mem, r, rest);
    m.mem := ClearPinuse(m.mem, r + rest);
    m.dvsize := rest;
    m.dv := r;
    m.chunks := GrownPart(c, p, n);
    m.live := m.live[p := n];
    GrowPartAll(mem0, m.mem, c, m.chunks, m.segBase, m.top, m.topsize, m.segBase + m.segSize, p, q, n, rest,
                m.smallmap, m.treemap, m.bins, m.binned, 0, 0, live0);
    DvAttached(m.chunks, m.binned, r);
  }

  // ----- growth into the next free chunk with a tail to give back -----

  lemma GrowSplitWords(mem: Mem, p: int, n: int, rest: int)
    requires n > 8 && rest > 8 && n % 16 == 0 && rest % 16 == 0
    ensures var mem1 := SetInuse(mem, p, n + rest);
            var mem' := SetInuse(SetInuse(mem, p, n), p + n, rest);
            && OnlyWords(mem1, mem', p + HEAD, p + n + HEAD, p + HEAD, p + HEAD)
            && Rd(mem', p + HEAD) == n + 2 + (if PinOf(Rd(mem1, p + HEAD)) then 1 else 0)
            && Rd(mem', p + n + HEAD) == rest + 3
  {
  }

  lemma GrowSplitAll(mem: Mem, mem': Mem, c: Chunks, c1: Chunks, c': Chunks, base: int, top: int, topsize: int,
      end: int, p: int, q: int, n: int, rest: int,
                     smallmap: nat, treemap: nat, bins: Bins, f: Sizes, dv: int, dvsize: int, live: Sizes)
    requires Tags(mem, c, base, top, 0) && TopOk(mem, top, topsize, end) && end < SIZE_RANGE
    requires IndexOk(mem, smallmap, treemap, bins, f) && Partition(c, f, dv, dvsize, 0, q) && LiveOk(c, live, 0)
        && q != 0
    requires p in live && q == p + live[p] && q in c && n % 16 == 0 && rest % 16 == 0 && n >= 32 && live[p] <= n
        && rest >= 32 && n + rest == live[p] + c[q].size
    requires c1 == Grown(c, p) && p in c1 && c1[p].size == n + rest && c' == Split(c1, p, n)
    requires mem' == SetInuse(SetInuse(mem, p, n), p + n, rest)
    ensures Tags(mem', c', base, top, p + n) && TopOk(mem', top, topsize, end)
    ensures IndexOk(mem', smallmap, treemap, bins, f) && Partition(c', f, dv, dvsize, p + n, 0)
        && LiveOk(c', live[p := n], p + n)
    ensures BodiesSame(mem, mem', live) && p + n !in live && (dvsize != 0 ==> dv != p + n) && p + n != 0
    ensures p + n in c' && c'[p + n] == Chunk(rest, true, true) && Rd(mem', p + n + HEAD) == rest + 3
  {
    hide Tiled, Tiling.Aligned, Heads, Feet, IndexOk, TopOk, Partition, BodiesSame, OnlyWords, SetInuse, Grown;
    var mem1, live1 := SetInuse(mem, p, n + rest), live[p := n + rest];
    GrowAll(mem, mem1, c, c1, base, top, topsize, end, p, q, n + rest, smallmap, treemap, bins, f, dv, dvsize, live);
    GrowSplitWords(mem, p, n, rest);
    LiveIsChunk(c1, base, top, f, dv, dvsize, 0, live1, p);
    ReadLive(mem1, c1, base, top, p, n);
    SplitFresh(c1, base, top, p, n);
    DvIn(c1, f, dv, dvsize, p + n);
    LiveSplit(c1, c', base, top, live1, p, n);
    assert live1[p := n] == live[p := n];
    SplitAll(mem1, mem', c1, c', base, top, topsize, end, p, n, 0, p + n, smallmap, treemap, bins, f, dv, dvsize,
        live[p := n]);
    GrownBodies(mem1, mem', live, p, n);
    BodiesSameTrans(mem, mem1, mem', live);
  }

  /** set_inuse(p, n); set_inuse(p + n, rest), next having left its bin: p takes the front of it and
      the rest is a hole. */
  method GrowAndSplit(m: Heap, p: int, q: int, n: int, rest: int)
    requires m.Inv(0, q) && q != 0 && p in m.live && q == p + m.live[p] && q in m.chunks
        && n + rest == m.live[p] + m.chunks[q].size
    requires n % 16 == 0 && m.live[p] <= n && rest >= 32
    modifies m`mem, m`chunks, m`live
    ensures m.Inv(p + n, 0) && m.live == old(m.live)[p := n] && m.HoleIs(p + n, rest) && p + n !in m.live
    ensures m.chunks[p + n].pin && (m.dvsize != 0 ==> m.dv != p + n)
    ensures Rd(m.mem, p + n + HEAD) == HeadWord(m.chunks[p + n])
    ensures BodiesSame(old(m.mem), m.mem, old(m.live))
  {
    hide Tiled, Tiling.Aligned, Heads, Feet, IndexOk, TopOk, Partition, LiveOk, BodiesSame, SetInuse;
    ghost var mem0, c, live0 := m.mem, m.chunks, m.live;
    NextChunk(c, m.segBase, m.top, m.binned, m.dv, m.dvsize, 0, live0, p, q);
    MergedIsBig(c, m.segBase, m.top, p);
    SizesAligned(c, p, q);
    m.mem := SetInuse(m.mem, p, n);
    m.mem := SetInuse(m.mem, p + n, rest);
    ghost var c1 := Grown(c, p);
    m.chunks := Split(c1, p, n);
    m.live := m.live[p := n];
    GrowSplitAll(mem0, m.mem, c, c1, m.chunks, m.segBase, m.top, m.topsize, m.segBase + m.segSize, p, q, n, rest,
                 m.smallmap, m.treemap, m.bins, m.binned, m.dv, m.dvsize, live0);
  }

  lemma SizesAligned(c: Chunks, p: int, q: int)
    requires Tiling.Aligned(c) && p in c && q in c
    ensures c[p].size % 16 == 0 && c[q].size % 16 == 0
  {
  }

  // ----- growth into top -----

  lemma LiveGrownTop(c: Chunks, c': Chunks, live: Sizes, p: int, n: int)
    requires LiveOk(c, live, 0) && p in live && c' == GrownTop(c, p, n)
    ensures LiveOk(c', live[p := n], 0)
  {
  }

  lemma LastChunk(c: Chunks, live: Sizes, p: int)
    requires LiveOk(c, live, 0) && p in live
    ensures p in c && c[p].cin && c[p].size == live[p]
  {
  }

  /** set_inuse(p, n); newtop->head = newtopsize | PINUSE_BIT; ...: p takes the front of top. */
  method GrowIntoTop(m: Heap, p: int, oldsize: int, n: int)
    requires m.Inv(0, 0) && p in m.live && oldsize == m.live[p] && p + oldsize == m.top
        && oldsize < n < oldsize + m.topsize && n % 16 == 0
    modifies m`mem, m`chunks, m`live, m`top, m`topsize
    ensures m.Inv(0, 0) && m.live == old(m.live)[p := n] && m.top == p + n
    ensures BodiesSame(old(m.mem), m.mem, old(m.live))
  {
    hide Tiled, Tiling.Aligned, Heads, Feet, IndexOk, TopOk, Partition, LiveOk, BodiesSame, SetInuse, TagWrites,
        FreeSame;
    ghost var mem0, c, live0, top0, size0 := m.mem, m.chunks, m.live, m.top, m.topsize;
    ghost var end := m.segBase + m.segSize;
    LastChunk(c, live0, p);
    TopBelowEnd(m.mem, m.top, m.topsize, end);
    var newtopsize := oldsize + m.topsize - n;
    var newtop := p + n;
    m.mem := SetInuse(m.mem, p, n);
    m.mem := m.mem[newtop + HEAD := newtopsize + PINUSE_BIT];
    m.top := newtop;
    m.topsize := newtopsize;
    m.chunks := GrownTop(c, p, n);
    m.live := m.live[p := n];
    LiveGrownTop(c, m.chunks, live0, p, n);
    GrowTop(mem0, m.mem, c, m.chunks, m.segBase, top0, size0, end, p, n, newtopsize);
    StepParts(mem0, m.mem, c, m.chunks, m.segBase, m.top, 0, 0, 0, 0, p, newtop, 0, p + HEAD,
              m.smallmap, m.treemap, m.bins, m.binned, m.dv, m.dvsize, m.live);
    GrownBodies(mem0, m.mem, live0, p, n);
  }

  // ----- neighbours in use become one block -----

  lemma LiveJoined(c: Chunks, c': Chunks, base: int, top: int, live: Sizes, p: int, q: int)
    requires Tiled(c, base, top) && base > 0 && LiveOk(c, live, 0) && p in live && q in live && q == p + live[p]
        && p != q && MergedAt(c, c', p)
    ensures LiveOk(c', (live - {q})[p := live[p] + live[q]], 0)
  {
    NoZero(c, base, top);
  }

  lemma JoinWords(mem: Mem, p: int, s: int)
    requires s > 0 && OrPin(Rd(mem, p + s + HEAD)) == Rd(mem, p + s + HEAD)
    ensures var mem' := SetInuse(mem, p, s);
            && OnlyWords(mem, mem', p + HEAD, p + HEAD, p + HEAD, p + HEAD)
            && Rd(mem', p + HEAD) == s + 2 + (if PinOf(Rd(mem, p + HEAD)) then 1 else 0)
  {
  }

  /** set_inuse(p, newsize): the live blocks p and q, neighbours, become one. */
  method JoinNext(m: Heap, p: int, q: int, s: int)
    requires m.Inv(0, 0) && p in m.live && q in m.live && q == p + m.live[p] && s == m.live[p] + m.live[q]
    modifies m`mem, m`chunks, m`live
    ensures m.Inv(0, 0) && m.live == (old(m.live) - {q})[p := s]
    ensures BodiesSame(old(m.mem), m.mem, m.live)
  {
    hide Tiled, Tiling.Aligned, Heads, Feet, IndexOk, TopOk, Partition, LiveOk, BodiesSame, SetInuse, OnlyWords,
        TagWrites, FreeSame;
    ghost var mem0, c, live0 := m.mem, m.chunks, m.live;
    LiveIsChunk(c, m.segBase, m.top, m.binned, m.dv, m.dvsize, 0, live0, p);
    LiveIsChunk(c, m.segBase, m.top, m.binned, m.dv, m.dvsize, 0, live0, q);
    NextPinned(m.mem, c, m.segBase, m.top, m.topsize, m.segBase + m.segSize, q);
    ReadLive(m.mem, c, m.segBase, m.top, p, s);
    JoinWords(m.mem, p, s);
    m.mem := SetInuse(m.mem, p, s);
    m.chunks := Merge(c, p);
    m.live := (m.live - {q})[p := s];
    LiveJoined(c, m.chunks, m.segBase, m.top, live0, p, q);
    MergeUsed(mem0, m.mem, c, m.chunks, m.segBase, m.top, p);
    StepKeeps(mem0, m.mem, c, m.chunks, m.segBase, m.top, m.topsize, m.segBase + m.segSize, 0, 0, 0, 0, p, p, 0,
        p + HEAD,
              m.smallmap, m.treemap, m.bins, m.binned, m.dv, m.dvsize, m.live);
  }
}
