/** dlmalloc with tmalloc_large and tmalloc_small (src/mm/malloc.c:4442-4686). */
module HeapMalloc {
  import opened Bits
  import opened BinIndex
  import opened Memory
  import opened Tiling
  import opened Macros
  import opened Index
  import opened HeapLemmas
  import opened HeapState
  import opened HeapTrees
  import opened HeapChunks
  import opened HeapRelays
  import opened HeapFit
  import opened HeapSearch
  import opened HeapSys
  import opened HeapViews
  import opened HeapQueues
  import opened HeapFree
  import opened HeapChecks
  import HeapRelink

  const MAX_SMALL_REQUEST := 232
  const MIN_REQUEST := 23

  /** pad_request: room for the request and one head word, rounded up to the alignment. */
  function PadRequest(req: int): int {
    var t := (req + 8 + 15) % SIZE_RANGE;
    t - t % 16
  }

  function Request2Size(req: int): int {
    if req < MIN_REQUEST then MIN_CHUNK_SIZE else PadRequest(req)
  }

  /** s is a legal chunk size with room for req bytes: all of it is usable but the head word. */
  ghost predicate Holds(s: int, req: int) { s % 16 == 0 && s >= MIN_CHUNK_SIZE && s >= req + 8 }

  /** Padding the request does not wrap. */
  predicate Padded(req: int) { 0 <= req <= SIZE_RANGE - 24 }

  /** request2size is the least legal chunk size that has room for the request. */
  lemma LeastSize(req: int, s: int)
    requires Padded(req)
    ensures Holds(Request2Size(req), req) && (req < MAX_REQUEST ==> Request2Size(req) < SIZE_RANGE - 96)
    ensures Holds(s, req) ==> Request2Size(req) <= s
    ensures req <= MAX_SMALL_REQUEST <==> Request2Size(req) < MIN_LARGE_SIZE
  {
    Multiple16(req + 23);
  }

  lemma Multiple16(t: int)
    ensures (t - t % 16) % 16 == 0
  {
    DivUnique(t - t % 16, 16, t / 16, 0);
  }

  /** The result of request2size has room for the request exactly when padding does not wrap. */
  lemma RoomTest(req: int)
    requires 0 <= req < SIZE_RANGE
    ensures Holds(Request2Size(req), req) <==> Padded(req)
  {
    if Padded(req) { LeastSize(req, MIN_CHUNK_SIZE); } else { assert (req + 23) % SIZE_RANGE == req + 23 - SIZE_RANGE; }
  }

  /** p, which fits nb, is the smallest binned chunk that does. */
  ghost predicate BestFit(f: Sizes, nb: int, p: int) { p in f && f[p] >= nb && Least(f, nb, f[p]) }

  /** v is the chunk of its bin whose turn it is: the newest of a small bin, the oldest of its size in a
      tree bin. */
  ghost predicate InTurn(bins: Bins, s: int, v: int) {
    if 0 <= s < MIN_LARGE_SIZE then SmallIndex(s) < |bins.small| && IsFront(bins.small[SmallIndex(s)], v)
        else Front(bins, s, v)
  }

  ghost predicate NoFit(f: Sizes, nb: int) { forall a :: a in f ==> f[a] < nb }

  /** The chunk p a request of nb bytes is served from, given the free chunks at the time: a small
      request takes an exact fit, else dv, else the best fit, else top; a large one takes the best
      fit when it fits strictly better than dv, else dv, else top. */
  ghost predicate ServedFrom(f: Sizes, dv: int, dvsize: int, top: int, topsize: int, nb: int, p: int) {
    if nb < MIN_LARGE_SIZE then
      || (BestFit(f, nb, p) && (f[p] == nb || dvsize < nb))
      || (p == dv && nb <= dvsize && forall a :: a in f ==> f[a] != nb)
      || (p == top && nb < topsize && dvsize < nb && NoFit(f, nb))
    else
      || (BestFit(f, nb, p) && (dvsize < nb || f[p] < dvsize))
      || (p == dv && nb <= dvsize && Least(f, nb, dvsize))
      || (p == top && nb < topsize && dvsize < nb && NoFit(f, nb))
  }

  /** What is left once nb is served: the size the block got, the designated victim and the binned chunks. */
  datatype Left = Left(size: int, victim: Victim, binned: Sizes)

  /** Serving nb from p takes all of p when less than MIN_CHUNK_SIZE would remain.  Else the rest of dv stays dv, and
      the rest of a binned chunk becomes dv, the old one being binned, for a small request, and is binned for a
      large one. */
  function LeftBy(f: Sizes, v: Victim, nb: int, p: int): Left {
    if p in f then
      var rest := f[p] - nb;
      if rest < MIN_CHUNK_SIZE then Left(f[p], v, f - {p})
      else if nb < MIN_LARGE_SIZE then
        Left(nb, Victim(p + nb, rest), if v.size == 0 then f - {p} else (f - {p})[v.at := v.size])
      else Left(nb, v, (f - {p})[p + nb := rest])
    else if v.size != 0 && p == v.at then
      var rest := v.size - nb;
      if rest < MIN_CHUNK_SIZE then Left(v.size, Victim(0, 0), f) else Left(nb, Victim(p + nb, rest), f)
    else Left(nb, v, f)
  }

  /** The heap is as `left` says after the block p was handed out. */
  ghost predicate Leaves(m: Heap, p: int, left: Left)
    reads m`live, m`dv, m`dvsize, m`binned
  {
    p in m.live && m.live[p] == left.size && VictimOf(m) == left.victim && m.binned == left.binned
  }

  /** nb was served from p, the best fit among the binned chunks. */
  ghost predicate ServedBest(m: Heap, v0: View, nb: int, p: int)
    reads m`live, m`dv, m`dvsize, m`binned, m`bins
  {
    && NewBlock(v0.live, m.live, nb, p) && BestFit(v0.binned, nb, p)
    && Leaves(m, p, LeftBy(v0.binned, v0.victim, nb, p))
    && InTurn(v0.bins, v0.binned[p], p) && QueuesKept(v0.bins, m.bins, m.binned)
  }

  lemma ServedNew(m: Heap, v0: View, nb: int, p: int)
    requires ServedBest(m, v0, nb, p)
    ensures NewBlock(v0.live, m.live, nb, p)
  {
  }

  /** Nothing free can serve nb: only then is the system asked. */
  ghost predicate Exhausted(f: Sizes, dvsize: int, topsize: int, nb: int) {
    dvsize < nb && topsize <= nb && NoFit(f, nb)
  }

  ghost predicate NothingFits(v: View, nb: int) { Exhausted(v.binned, v.victim.size, v.sys.topsize, nb) }

  /** Nothing free can serve the request, and the system denies what it would take. */
  ghost predicate NoRoom(v: View, bytes: int) {
    NothingFits(v, RequestSize(bytes)) && Denied(v.sys, RequestSize(bytes))
  }

  ghost predicate NoSpace(m: Heap, bytes: int)
    reads m
  {
    NoRoom(ViewOf(m), bytes)
  }

  /** Where top starts afterwards: behind the block when that was cut from top. */
  function TopAfter(top: int, nb: int, mem: int): int {
    if mem != 0 && (mem - 16 == top || top == 0) then mem - 16 + nb else top
  }

  /** All of what dlmalloc does, from v0 to v1.  The block comes from where ServedFrom says and leaves what LeftBy
      says; once nothing free can serve it, it comes from top after the system gave exactly what it takes; and null,
      with nothing changed but that contiguous growth is not tried again, is returned exactly when the system denies. */
  ghost predicate Allocated(v0: View, v1: View, nb: int, mem: int) {
    var p := mem - 16;
    && v1.sys.limit == v0.sys.limit && v1.threshold == v0.threshold && v1.top == TopAfter(v0.top, nb, mem)
    && if mem == 0 then
         && NothingFits(v0, nb) && Denied(v0.sys, nb)
         && v1.live == v0.live && v1.chunks == v0.chunks && v1.binned == v0.binned && v1.victim == v0.victim
         && v1.bins == v0.bins && v1.accounts == v0.accounts && v1.sys.topsize == v0.sys.topsize
         && v1.sys.noncontiguous == (v0.sys.noncontiguous || !Oversized(v0.sys, nb))
       else
         && p !in v0.live && v1.sys.noncontiguous == v0.sys.noncontiguous
         && Left(if p in v1.live then v1.live[p] else 0, v1.victim, v1.binned) == LeftBy(v0.binned, v0.victim, nb, p)
         && NewBlock(v0.live, v1.live, nb, p) && QueuesKept(v0.bins, v1.bins, v1.binned)
         && (p in v0.binned ==> InTurn(v0.bins, v0.binned[p], p))
         && if NothingFits(v0, nb) then
              && !Denied(v0.sys, nb) && p == (if v0.top == 0 then v0.sys.brk else v0.top)
              && v1.accounts == Grown(v0.accounts, Increment(v0.sys, nb), v0.threshold)
            else
              && ServedFrom(v0.binned, v0.victim.at, v0.victim.size, v0.top, v0.sys.topsize, nb, p)
              && v1.accounts == v0.accounts
  }

  /** The bins hold no chunk to serve nb from, dv aside. */
  ghost predicate BinsTried(f: Sizes, dvsize: int, nb: int) {
    if dvsize < nb then NoFit(f, nb)
    else if nb < MIN_LARGE_SIZE then forall a :: a in f ==> f[a] != nb
    else Least(f, nb, dvsize)
  }

  /** A block from the bins. */
  lemma FromBins(m: Heap, v0: View, nb: int, mem: int)
    requires mem != 0 && ServedBest(m, v0, nb, mem - 16)
    requires if nb < MIN_LARGE_SIZE then v0.binned[mem - 16] == nb || v0.victim.size < nb
             else v0.victim.size < nb || v0.binned[mem - 16] < v0.victim.size
    requires m.footprintLimit == v0.sys.limit && m.trimThreshold == v0.threshold && m.top == v0.top != 0
        && mem - 16 != v0.top && AccountsOf(m) == v0.accounts && m.noncontiguous == v0.sys.noncontiguous
    ensures Allocated(v0, ViewOf(m), nb, mem)
  {
  }

  /** A block from dv or from the old top. */
  lemma FromRest(m: Heap, v0: View, nb: int, mem: int)
    requires mem != 0 && NewBlock(v0.live, m.live, nb, mem - 16) && BinsTried(v0.binned, v0.victim.size, nb)
    requires if nb <= v0.victim.size then mem - 16 == v0.victim.at
             else nb < v0.sys.topsize && mem - 16 == v0.top
    requires Leaves(m, mem - 16, LeftBy(v0.binned, v0.victim, nb, mem - 16)) && mem - 16 !in v0.binned
        && QueuesKept(v0.bins, m.bins, m.binned)
    requires m.footprintLimit == v0.sys.limit && m.trimThreshold == v0.threshold && v0.top != 0
        && m.top == TopAfter(v0.top, nb, mem) && AccountsOf(m) == v0.accounts
        && m.noncontiguous == v0.sys.noncontiguous
    ensures Allocated(v0, ViewOf(m), nb, mem)
  {
  }

  /** What sys_alloc gives, or not. */
  lemma FromSystem(m: Heap, v0: View, nb: int, mem: int)
    requires v0.victim.size < nb && v0.sys.topsize <= nb && BinsTried(v0.binned, v0.victim.size, nb)
    requires mem != 0 ==>
        mem - 16 !in v0.live && m.live == v0.live[mem - 16 := nb] && m.top == mem - 16 + nb
        && mem - 16 == (if v0.top == 0 then v0.sys.brk else v0.top) && mem - 16 !in v0.binned
        && (v0.victim.size != 0 ==> mem - 16 != v0.victim.at)
    requires mem == 0 ==> m.live == v0.live && m.chunks == v0.chunks && m.top == v0.top && m.topsize == v0.sys.topsize
    requires m.binned == v0.binned && m.bins == v0.bins && VictimOf(m) == v0.victim
    requires mem != 0 ==> QueuesKept(v0.bins, m.bins, m.binned)
    requires m.footprintLimit == v0.sys.limit && m.trimThreshold == v0.threshold && (mem == 0 <==> Denied(v0.sys, nb))
    requires AccountsOf(m) == if mem == 0 then v0.accounts else Grown(v0.accounts, Increment(v0.sys, nb), v0.threshold)
    requires m.noncontiguous == (v0.sys.noncontiguous || (mem == 0 && !Oversized(v0.sys, nb)))
    ensures Allocated(v0, ViewOf(m), nb, mem)
  {
  }

  /** Null, and only when, means that nothing free fits and the system denies what it would take. */
  lemma NullMeans(m: Heap, v0: View, nb: int, mem: int)
    requires Allocated(v0, ViewOf(m), nb, mem)
    ensures mem == 0 <==> NothingFits(v0, nb) && Denied(v0.sys, nb)
    ensures Outcome(v0.live, m.live, nb, mem)
  {
  }

  /** p became live with at least nb bytes, and fewer than MIN_CHUNK_SIZE more. */
  ghost predicate NewBlock(live0: Sizes, live: Sizes, nb: int, p: int) {
    p !in live0 && p in live && live == live0[p := live[p]] && nb <= live[p] < nb + MIN_CHUNK_SIZE
  }

  // ----- the two ways to use a chunk taken out of a bin -----

  lemma BestIs(f: Sizes, nb: int, v: int, rsize: int)
    requires Best(f, nb, v, rsize) && LeastLarge(f, nb, nb + rsize) && Spaced(f) && 0 < nb < SIZE_RANGE
    ensures v != 0 ==> v in f && f[v] == nb + rsize && rsize >= 0
    ensures nb >= MIN_LARGE_SIZE && v != 0 ==> BestFit(f, nb, v)
    ensures nb >= MIN_LARGE_SIZE && v == 0 ==> NoFit(f, nb)
    ensures (forall a :: a in f && f[a] < MIN_LARGE_SIZE ==> f[a] < nb) && v != 0 ==> BestFit(f, nb, v)
  {
  }

  /** The test rsize < (size_t)(dvsize - nb). */
  lemma BetterThanDv(f: Sizes, nb: int, v: int, rsize: int, dvsize: int)
    requires Best(f, nb, v, rsize) && v != 0 && 0 <= f[v] < SIZE_RANGE && 0 <= dvsize < SIZE_RANGE
        && 0 < nb < SIZE_RANGE
    ensures rsize < Sub64(dvsize, nb) <==> dvsize < nb || f[v] < dvsize
  {
    SubWraps(dvsize, nb);
  }

  lemma DvBound(c: Chunks, base: int, top: int, end: int, f: Sizes, dv: int, dvsize: int)
    requires Tiled(c, base, top) && base > 0 && top <= end && Partition(c, f, dv, dvsize, 0, 0)
    ensures 0 <= dvsize < end || dvsize == 0
  {
    if dvsize != 0 { DvIs(c, base, top, f, dv, dvsize); ChunkAt(c, base, top, dv); }
  }

  lemma SizesOf(m: Heap)
    requires m.Inv(0, 0)
    ensures 0 <= m.dvsize < SIZE_RANGE && Spaced(m.binned) && HeadSizes(m.mem, m.binned)
        && IndexOk(m.mem, m.smallmap, m.treemap, m.bins, m.binned) && AlignedSizes(m.binned)
    ensures m.smallmap < WORD_RANGE && m.treemap < WORD_RANGE
    ensures 0 < m.topsize < SIZE_RANGE && m.topsize % 16 == 0
  {
    hide Tiled, Tiling.Aligned, Heads, Feet, IndexOk, Partition, LiveOk, Spaced, HeadSizes;
    IndexReady(m);
    TopInSegment(m.mem, m.chunks, m.segBase, m.top, m.topsize, m.segBase + m.segSize);
    DvBound(m.chunks, m.segBase, m.top, m.segBase + m.segSize, m.binned, m.dv, m.dvsize);
  }

  /** tmalloc_large: the best fit, when it fits strictly better than dv. */
  method TmallocLarge(m: Heap, nb: int) returns (mem: int)
    requires m.Inv(0, 0) && MIN_LARGE_SIZE <= nb < SIZE_RANGE && nb % 16 == 0
    modifies m`mem, m`smallmap, m`treemap, m`bins, m`binned, m`chunks, m`live
    ensures m.Inv(0, 0)
    ensures mem == 0 ==>
        m.live == old(m.live) && m.binned == old(m.binned) && m.bins == old(m.bins) && m.mem == old(m.mem)
        && m.chunks == old(m.chunks)
    ensures mem == 0 ==> if m.dvsize < nb then NoFit(m.binned, nb) else Least(m.binned, nb, m.dvsize)
    ensures mem != 0 ==> ServedBest(m, old(ViewOf(m)), nb, mem - 16)
    ensures mem != 0 ==> mem - 16 in old(m.binned) && (m.dvsize < nb || old(m.binned)[mem - 16] < m.dvsize)
    ensures mem != 0 ==> m.Pinned(mem - 16)
    ensures BodiesSame(old(m.mem), m.mem, old(m.live))
  {
    hide Tiled, Tiling.Aligned, Heads, Feet, IndexOk, TopOk, Partition, LiveOk, BodiesSame, Spaced, HeadSizes, Best,
        LeastLarge, AlignedSizes, Front, IsNode, MallocedChunk, TopChunk, QueuesKept;
    NothingWritten(m.mem, m.live);
    SizesOf(m);
    var v, rsize := FindLarge(m, nb);
    BestIs(m.binned, nb, v, rsize);
    mem := 0;
    if v != 0 {
      FitBelow(m.binned, v);
      NodeIsFront(m.mem, m.smallmap, m.treemap, m.bins, m.binned, v);
      BetterThanDv(m.binned, nb, v, rsize, m.dvsize);
    }
    if v != 0 && rsize < Sub64(m.dvsize, nb) {
      UseLarge(m, v, nb, rsize);
      mem := v + 16;
    }
  }

  lemma BinnedHead(m: Heap, v: int)
    requires m.Inv(0, 0) && v in m.binned
    ensures ChunkSize(m.mem, v) == m.binned[v] && v >= m.leastAddr
  {
    hide Tiled, Tiling.Aligned, Heads, Feet, IndexOk, TopOk, Partition, LiveOk, Spaced, AlignedSizes, SomeOf;
    IndexReady(m);
  }

  lemma FitBelow(f: Sizes, v: int)
    requires Spaced(f) && v in f
    ensures 32 <= f[v] < SIZE_RANGE && v > 0
  {
  }

  /** No chunk starts inside a binned one. */
  lemma RestUnbinned(m: Heap, v: int, n: int)
    requires m.Inv(0, 0) && v in m.binned
    ensures 0 < n < m.binned[v] ==> v + n !in m.binned
  {
    hide Tiled, Tiling.Aligned, Heads, Feet, IndexOk, TopOk, Partition, LiveOk, HeadSizes, AlignedSizes;
    SizesOf(m);
  }

  /** The split of tmalloc_large: a rest that can be a chunk is binned. */
  method UseLarge(m: Heap, v: int, nb: int, rsize: int)
    requires m.Inv(0, 0) && v in m.binned && m.binned[v] == nb + rsize && rsize >= 0 && MIN_LARGE_SIZE <= nb
        && nb % 16 == 0
    modifies m`mem, m`smallmap, m`treemap, m`bins, m`binned, m`chunks, m`live
    ensures m.Inv(0, 0) && NewBlock(old(m.live), m.live, nb, v)
    ensures m.Pinned(v)
    ensures Leaves(m, v, old(LeftBy(m.binned, VictimOf(m), nb, v)))
    ensures QueuesKept(old(m.bins), m.bins, m.binned)
    ensures BodiesSame(old(m.mem), m.mem, old(m.live))
  {
    hide Tiled, Tiling.Aligned, Heads, Feet, IndexOk, TopOk, Partition, LiveOk, BodiesSame, Shrunk, Queued,
        QueuesKept, WaitsAre;
    ghost var mem0, live0, b0, f0 := m.mem, m.live, m.bins, m.binned;
    QueuesStay(m, 0, 0);
    RestUnbinned(m, v, nb);
    var r := v + nb;
    BinnedHead(m, v);
    assert v >= m.leastAddr;  // RTCHECK(ok_address(m, v))
    assert ChunkSize(m.mem, v) == rsize + nb;
    assert v < r;  // RTCHECK(ok_next(v, r))
    UnlinkLarge(m, v);
    ghost var mem1, b1, f1 := m.mem, m.bins, m.binned;
    ShrunkKept(b0, b1, f1);
    if rsize < MIN_CHUNK_SIZE {
      TakeWhole(m, v, rsize + nb);
    } else {
      TakeFront(m, v, nb, rsize);
      ghost var mem2 := m.mem;
      InsertChunk(m, r, rsize, 0);
      ShrunkQueued(b0, f0, b1, f1, m.bins, r, rsize);
      FewerBodies(mem2, m.mem, live0, m.live);
      BodiesSameTrans(mem1, mem2, m.mem, live0);
    }
    BodiesSameTrans(mem0, mem1, m.mem, live0);
  }

  lemma DvUnbinned(m: Heap)
    requires m.Inv(0, 0)
    ensures m.dvsize != 0 ==> m.dv !in m.binned
  {
    hide Tiled, Tiling.Aligned, Heads, Feet, IndexOk, TopOk, LiveOk;
  }

  /** tmalloc_small: the smallest large chunk; the rest becomes dv. */
  method TmallocSmall(m: Heap, nb: int) returns (mem: int)
    requires m.Inv(0, 0) && 32 <= nb < MIN_LARGE_SIZE && nb % 16 == 0 && m.treemap != 0 && m.dvsize < nb
    requires forall a :: a in m.binned && m.binned[a] < MIN_LARGE_SIZE ==> m.binned[a] < nb
    modifies m`mem, m`smallmap, m`treemap, m`bins, m`binned, m`chunks, m`live, m`dv, m`dvsize
    ensures m.Inv(0, 0) && mem != 0
    ensures ServedBest(m, old(ViewOf(m)), nb, mem - 16) && mem - 16 in old(m.binned)
    ensures mem != 0 ==> m.Pinned(mem - 16)
    ensures BodiesSame(old(m.mem), m.mem, old(m.live))
  {
    hide Tiled, Tiling.Aligned, Heads, Feet, IndexOk, TopOk, Partition, LiveOk, BodiesSame, Spaced, HeadSizes, Best,
        LeastLarge, AlignedSizes, Front, IsNode, MallocedChunk, TopChunk, Shrunk, Queued, QueuesKept, WaitsAre,
        Heap.Inv;
    ghost var mem0, live0, b0, f0 := m.mem, m.live, m.bins, m.binned;
    QueuesStay(m, 0, 0);
    DvUnbinned(m);
    SizesOf(m);
    var v, rsize := FindSmallest(m, nb);
    BestIs(m.binned, nb, v, rsize);
    FitBelow(m.binned, v);
    LargeOnly(m.binned, nb, v);
    NodeIsFront(m.mem, m.smallmap, m.treemap, m.bins, m.binned, v);
    var r := v + nb;
    BinnedHead(m, v);
    assert v >= m.leastAddr;  // RTCHECK(ok_address(m, v))
    assert ChunkSize(m.mem, v) == rsize + nb;
    assert v < r;  // RTCHECK(ok_next(v, r))
    UnlinkLarge(m, v);
    ghost var mem1, b1, f1, dv, dvs := m.mem, m.bins, m.binned, m.dv, m.dvsize;
    ShrunkKept(b0, b1, f1);
    if rsize < MIN_CHUNK_SIZE {
      TakeWhole(m, v, rsize + nb);
    } else {
      SplitToDv(m, v, nb, rsize);
      if dvs != 0 { ShrunkQueued(b0, f0, b1, f1, m.bins, dv, dvs); }
    }
    BodiesSameTrans(mem0, mem1, m.mem, live0);
    mem := v + 16;
  }

  lemma LargeOnly(f: Sizes, nb: int, v: int)
    requires v in f && f[v] >= nb && forall a :: a in f && f[a] < MIN_LARGE_SIZE ==> f[a] < nb
    ensures f[v] >= MIN_LARGE_SIZE
  {
  }

  /** set_size_and_pinuse_of_inuse_chunk(p, nb); set_size_and_pinuse_of_free_chunk(r, rsize); replace_dv(r, rsize). */
  method SplitToDv(m: Heap, p: int, nb: int, rsize: int)
    requires m.Inv(0, p) && p != 0 && p in m.chunks && m.chunks[p].size == nb + rsize && nb >= 32 && rsize >= 32
        && nb % 16 == 0 && 0 <= m.dvsize < MIN_LARGE_SIZE
    modifies m`mem, m`smallmap, m`bins, m`binned, m`chunks, m`live, m`dv, m`dvsize
    ensures m.Inv(0, 0) && m.live == old(m.live)[p := nb] && p !in old(m.live)
    ensures if old(m.dvsize) == 0 then m.bins == old(m.bins)
            else Queued(old(m.bins), m.bins, old(m.dv), old(m.dvsize))
    ensures m.Pinned(p)
    ensures VictimOf(m) == Victim(p + nb, rsize)
    ensures m.binned == if old(m.dvsize) == 0 then old(m.binned) else old(m.binned)[old(m.dv) := old(m.dvsize)]
    ensures BodiesSame(old(m.mem), m.mem, old(m.live))
  {
    hide Tiled, Tiling.Aligned, Heads, Feet, IndexOk, TopOk, Partition, LiveOk, BodiesSame, Queued;
    ghost var mem1, live0 := m.mem, m.live;
    TakeFront(m, p, nb, rsize);
    ghost var mem2 := m.mem;
    ReplaceDv(m, p + nb, rsize);
    FewerBodies(mem2, m.mem, live0, m.live);
    BodiesSameTrans(mem1, mem2, m.mem, live0);
  }

  // ----- small requests -----

  lemma EmptyMaps(m: Heap, idx: nat)
    requires m.Valid()
    ensures m.top == 0 ==>
        Shr(m.smallmap, idx) == 0 && And(0, 3) == 0 && m.treemap == 0 && m.dvsize == 0
        && m.binned == map[]
    ensures m.top != 0 ==> m.Inv(0, 0)
  {
    hide Tiled, Tiling.Aligned, Heads, Feet, IndexOk, TopOk, Partition, LiveOk;
    if m.top == 0 { ShrSmaller(m.smallmap, idx); }
  }

  /** smallbits & 0x3: bin idx itself is marked, bin idx + 1 never is. */
  lemma Remainderless(m: Heap, nb: int, idx: nat)
    requires m.Inv(0, 0) && 32 <= nb < MIN_LARGE_SIZE && nb % 16 == 0 && idx == nb / 8
    ensures var b := Shr(m.smallmap, idx);
            b < WORD_RANGE && (And(b, 3) != 0 <==> Bit(m.smallmap, idx))
                && (Bit(m.smallmap, idx) ==> And(Not32(b), 1) == 0)
    ensures !Bit(m.smallmap, idx) ==> forall a :: a in m.binned ==> m.binned[a] != nb
  {
    hide Tiled, Tiling.Aligned, Heads, Feet, TopOk, Partition, LiveOk, Bit, And, Shr, TreeBins, Spaced;
    SizesOf(m);
    assert idx <= 30 && idx % 2 == 0;
    ShiftedBits(m.smallmap, idx);
    if Bit(m.smallmap, idx + 1) { EvenBins(m.mem, m.smallmap, m.bins.small, m.binned, idx + 1); }
    if !Bit(m.smallmap, idx) {
      forall a | a in m.binned ensures m.binned[a] != nb {
        if m.binned[a] == nb { SmallMarked(m.mem, m.smallmap, m.bins.small, m.binned, a); }
      }
    }
  }

  /** smallbits is zero exactly when no small chunk fits. */
  lemma NoSmallFit(m: Heap, nb: int, idx: nat)
    requires m.Inv(0, 0) && 32 <= nb < MIN_LARGE_SIZE && nb % 16 == 0 && idx == nb / 8 && Shr(m.smallmap, idx) == 0
    ensures forall a :: a in m.binned && m.binned[a] < MIN_LARGE_SIZE ==> m.binned[a] < nb
  {
    hide Tiled, Tiling.Aligned, Heads, Feet, TopOk, Partition, LiveOk, Bit, And, Shr, TreeBins, Spaced;
    SizesOf(m);
    SomeBitAbove(m.smallmap, idx);
    forall a | a in m.binned && m.binned[a] < MIN_LARGE_SIZE ensures m.binned[a] < nb {
      BinnedPositive(m.binned, a);
      SmallMarked(m.mem, m.smallmap, m.bins.small, m.binned, a);
    }
  }

  lemma BinnedPositive(f: Sizes, a: int)
    requires Spaced(f) && a in f
    ensures f[a] >= 32
  {
  }

  lemma NoTreeFit(m: Heap)
    requires m.Inv(0, 0) && m.treemap == 0
    ensures forall a :: a in m.binned ==> m.binned[a] < MIN_LARGE_SIZE
  {
    hide Tiled, Tiling.Aligned, Heads, Feet, TopOk, Partition, LiveOk, Bit, SmallBins, Spaced, TreeBins, InTreeBin;
    forall a | a in m.binned ensures m.binned[a] < MIN_LARGE_SIZE {
      if m.binned[a] >= MIN_LARGE_SIZE {
        assert MinSize(0) == 256 by { Pow2Small(); }
        var j := HeapRelink.BinFrom(m.binned[a], 0);
        InBinMarked(m.mem, m.treemap, m.bins.trees, m.binned, j, a);
        BitOfZero(j);
      }
    }
  }

  /** The next marked bin holds the smallest small chunk that fits; every large chunk is larger. */
  lemma NextBinFits(m: Heap, nb: int, idx: nat, i: nat)
    requires m.Inv(0, 0) && 32 <= nb < MIN_LARGE_SIZE && nb % 16 == 0 && idx == nb / 8 && idx < i < 32
    requires !Bit(m.smallmap, idx) && forall j: nat :: idx < j < i ==> !Bit(m.smallmap, j)
    ensures Least(m.binned, nb, 8 * i) && 8 * i >= nb
  {
    hide Tiled, Tiling.Aligned, Heads, Feet, TopOk, Partition, LiveOk, Bit, TreeBins, Spaced;
    SizesOf(m);
    forall a | a in m.binned && m.binned[a] >= nb ensures 8 * i <= m.binned[a] {
      if m.binned[a] < MIN_LARGE_SIZE { SmallMarked(m.mem, m.smallmap, m.bins.small, m.binned, a); }
    }
  }

  lemma NonZeroBit(b: nat, j: nat)
    requires Bit(b, j)
    ensures b != 0
  {
    BitOfZero(j);
  }

  /** leftbits = (smallbits << idx) & left_bits(idx2bit(idx)); the lowest bit of it. */
  method NextSmallBin(m: Heap, nb: int, idx: nat) returns (i: nat)
    requires m.Inv(0, 0) && 32 <= nb < MIN_LARGE_SIZE && nb % 16 == 0 && idx == nb / 8
    requires Shr(m.smallmap, idx) != 0 && !Bit(m.smallmap, idx)
    ensures idx < i < 32 && Bit(m.smallmap, i) && Least(m.binned, nb, 8 * i) && 8 * i >= nb
  {
    hide Tiled, Tiling.Aligned, Heads, Feet, TopOk, Partition, LiveOk, Bit, IndexOk, Spaced, And, Shr, Shl32,
        LeftBits, HeadSizes, AlignedSizes;
    SizesOf(m);
    AboveBits(m.smallmap, idx);
    SomeBitAbove(m.smallmap, idx);
    var smallbits := Shr(m.smallmap, idx);
    var leftbits := And(Shl32(smallbits, idx), LeftBits(Idx2Bit(idx)));
    ghost var j: nat :| idx <= j < 32 && Bit(m.smallmap, j);
    NonZeroBit(leftbits, j);
    i := LowestMarked(leftbits);
    NextBinFits(m, nb, idx, i);
  }

  /** Remainderless fit to a smallbin: its newest chunk, whole. */
  method TakeExact(m: Heap, nb: int, i: nat) returns (mem: int)
    requires m.Inv(0, 0) && nb == 8 * i && i < NSMALLBINS && Bit(m.smallmap, i)
    modifies m`mem, m`smallmap, m`bins, m`binned, m`chunks, m`live
    ensures m.Inv(0, 0) && mem != 0
    ensures ServedBest(m, old(ViewOf(m)), nb, mem - 16) && mem - 16 in old(m.binned)
        && old(m.binned)[mem - 16] == nb
    ensures mem != 0 ==> MallocedChunk(m.mem, mem - 16, nb, m.leastAddr)
    ensures mem != 0 ==> m.Pinned(mem - 16)
    ensures BodiesSame(old(m.mem), m.mem, old(m.live))
  {
    hide Tiled, Tiling.Aligned, Heads, Feet, IndexOk, TopOk, Partition, LiveOk, BodiesSame, Bit, MallocedChunk,
        TopChunk, Shrunk, Queued, QueuesKept, WaitsAre;
    ghost var mem0, b0 := m.mem, m.bins;
    SizesOf(m);
    var p := UnlinkFirst(m, i);
    ghost var mem1 := m.mem;
    ShrunkKept(b0, m.bins, m.binned);
    TakeWhole(m, p, SmallIndex2Size(i));
    BodiesSameTrans(mem0, mem1, m.mem, old(m.live));
    mem := p + 16;
    MallocedChecks(m, p, nb);
    assert MallocedChunk(m.mem, mem - 16, nb, m.leastAddr);  // check_malloced_chunk
  }

  /** Use the chunk in the next nonempty smallbin; what is left of it becomes dv. */
  method TakeNext(m: Heap, nb: int, idx: nat) returns (mem: int)
    requires m.Inv(0, 0) && 32 <= nb < MIN_LARGE_SIZE && nb % 16 == 0 && idx == nb / 8
    requires Shr(m.smallmap, idx) != 0 && !Bit(m.smallmap, idx) && m.dvsize < nb
    modifies m`mem, m`smallmap, m`bins, m`binned, m`chunks, m`live, m`dv, m`dvsize
    ensures m.Inv(0, 0) && mem != 0
    ensures ServedBest(m, old(ViewOf(m)), nb, mem - 16) && mem - 16 in old(m.binned)
    ensures mem != 0 ==> MallocedChunk(m.mem, mem - 16, nb, m.leastAddr)
    ensures mem != 0 ==> m.Pinned(mem - 16)
    ensures BodiesSame(old(m.mem), m.mem, old(m.live))
  {
    hide Tiled, Tiling.Aligned, Heads, Feet, IndexOk, TopOk, Partition, LiveOk, BodiesSame, Bit, Shr, Least,
        AlignedSizes, Spaced, HeadSizes, MallocedChunk, TopChunk, Shrunk, Queued, QueuesKept, WaitsAre, Heap.Inv;
    ghost var mem0, b0, f0 := m.mem, m.bins, m.binned;
    QueuesStay(m, 0, 0);
    DvUnbinned(m);
    SizesOf(m);
    var i := NextSmallBin(m, nb, idx);
    var p := UnlinkFirst(m, i);
    FitBelow(f0, p);
    ghost var mem1, b1, f1, dv, dvs := m.mem, m.bins, m.binned, m.dv, m.dvsize;
    ShrunkKept(b0, b1, f1);
    var rsize := SmallIndex2Size(i) - nb;
    if rsize < MIN_CHUNK_SIZE {
      TakeWhole(m, p, SmallIndex2Size(i));
    } else {
      SplitToDv(m, p, nb, rsize);
      if dvs != 0 { ShrunkQueued(b0, f0, b1, f1, m.bins, dv, dvs); }
    }
    BodiesSameTrans(mem0, mem1, m.mem, old(m.live));
    mem := p + 16;
    MallocedChecks(m, p, nb);
    assert MallocedChunk(m.mem, mem - 16, nb, m.leastAddr);  // check_malloced_chunk
  }

  /** The part of dlmalloc for requests of at most MAX_SMALL_REQUEST bytes; null when dv is to be
      used or when nothing in the bins fits. */
  method MallocSmall(m: Heap, nb: int) returns (mem: int)
    requires m.Valid() && 32 <= nb < MIN_LARGE_SIZE && nb % 16 == 0
    modifies m`mem, m`smallmap, m`treemap, m`bins, m`binned, m`chunks, m`live, m`dv, m`dvsize
    ensures m.Valid()
    ensures mem == 0 ==>
        m.live == old(m.live) && m.binned == old(m.binned) && m.bins == old(m.bins) && VictimOf(m) == old(VictimOf(m))
        && m.mem == old(m.mem) && m.chunks == old(m.chunks) && BinsTried(m.binned, m.dvsize, nb)
    ensures mem != 0 ==>
        ServedBest(m, old(ViewOf(m)), nb, mem - 16) && mem - 16 in old(m.binned)
        && (old(m.binned)[mem - 16] == nb || old(m.dvsize) < nb)
    ensures mem != 0 ==> MallocedChunk(m.mem, mem - 16, nb, m.leastAddr)
    ensures mem != 0 ==> m.Pinned(mem - 16)
    ensures BodiesSame(old(m.mem), m.mem, old(m.live))
  {
    hide Tiled, Tiling.Aligned, Heads, Feet, IndexOk, TopOk, Partition, LiveOk, BodiesSame, Bit, And, Shr, Least,
        MallocedChunk, TopChunk, InTurn, Allocated, LeftBy, ServedBest, QueuesKept;
    NothingWritten(m.mem, m.live);
    var idx := SmallIndex(nb);
    EmptyMaps(m, idx);
    mem := 0;
    if m.top != 0 { Remainderless(m, nb, idx); }
    var smallbits := Shr(m.smallmap, idx);
    if And(smallbits, 3) != 0 {
      mem := TakeExact(m, nb, idx + And(Not32(smallbits), 1));
    } else if nb > m.dvsize {
      if smallbits != 0 {
        mem := TakeNext(m, nb, idx);
      } else {
        if m.top != 0 { NoSmallFit(m, nb, idx); }
        if m.treemap != 0 {
          mem := TmallocSmall(m, nb);
          ServedNew(m, old(ViewOf(m)), nb, mem - 16);
          MallocedChecks(m, mem - 16, nb);
          assert MallocedChunk(m.mem, mem - 16, nb, m.leastAddr);  // check_malloced_chunk
        } else if m.top != 0 {
          NoTreeFit(m);
        }
      }
    }
  }

  // ----- dlmalloc -----

  /** Use dv. */
  method MallocDv(m: Heap, nb: int) returns (mem: int)
    requires m.Inv(0, 0) && 32 <= nb <= m.dvsize && nb % 16 == 0
    modifies m`mem, m`chunks, m`live, m`dv, m`dvsize
    ensures m.Inv(0, 0) && mem != 0 && mem - 16 == old(m.dv)
    ensures NewBlock(old(m.live), m.live, nb, mem - 16)
    ensures mem != 0 ==> MallocedChunk(m.mem, mem - 16, nb, m.leastAddr)
    ensures mem != 0 ==> m.Pinned(mem - 16)
    ensures Leaves(m, mem - 16, old(LeftBy(m.binned, VictimOf(m), nb, mem - 16)))
    ensures BodiesSame(old(m.mem), m.mem, old(m.live))
  {
    hide Tiled, Tiling.Aligned, Heads, Feet, IndexOk, TopOk, Partition, LiveOk, BodiesSame, MallocedChunk, TopChunk;
    DvIs(m.chunks, m.segBase, m.top, m.binned, m.dv, m.dvsize);
    DvAbove(m.chunks, m.segBase, m.top, m.dv);
    var rsize := m.dvsize - nb;
    var p;
    if rsize >= MIN_CHUNK_SIZE {
      p := SplitDv(m, nb);
    } else {
      p := TakeDv(m);
    }
    mem := p + 16;
    MallocedChecks(m, p, nb);
    assert MallocedChunk(m.mem, mem - 16, nb, m.leastAddr);  // check_malloced_chunk
  }

  /** Split top. */
  method MallocTop(m: Heap, nb: int) returns (mem: int)
    requires m.Inv(0, 0) && 32 <= nb < m.topsize && nb % 16 == 0
    modifies m`mem, m`chunks, m`live, m`top, m`topsize
    ensures m.Inv(0, 0) && mem != 0 && mem - 16 == old(m.top) && m.top == old(m.top) + nb
    ensures NewBlock(old(m.live), m.live, nb, mem - 16) && mem - 16 in m.live && m.live[mem - 16] == nb
    ensures MallocedChunk(m.mem, mem - 16, nb, m.leastAddr)
    ensures m.Pinned(mem - 16)
    ensures BodiesSame(old(m.mem), m.mem, old(m.live))
  {
    hide Tiled, Tiling.Aligned, Heads, Feet, IndexOk, Partition, LiveOk, BodiesSame, MallocedChunk, TopChunk;
    TopInSegment(m.mem, m.chunks, m.segBase, m.top, m.topsize, m.segBase + m.segSize);
    var p := SplitTop(m, nb);
    mem := p + 16;
    TopChecks(m);
    assert TopChunk(m.mem, m.top, m.topsize, m.leastAddr, m.segBase, m.segSize);  // check_top_chunk
    MallocedChecks(m, p, nb);
    assert MallocedChunk(m.mem, mem - 16, nb, m.leastAddr);  // check_malloced_chunk
  }

  lemma DvAbove(c: Chunks, base: int, top: int, dv: int)
    requires Tiled(c, base, top) && dv in c
    ensures dv >= base
  {
    ChunkAt(c, base, top, dv);
  }

  lemma TopServes(m: Heap)
    requires m.Valid()
    ensures m.top != 0 ==> m.Inv(0, 0) && m.top > 0
    ensures m.topsize >= 0 && (m.top == 0 ==> m.topsize == 0 && m.dvsize == 0)
  {
    hide Tiled, Tiling.Aligned, Heads, Feet, IndexOk, Partition, LiveOk;
    if m.top != 0 { TopInSegment(m.mem, m.chunks, m.segBase, m.top, m.topsize, m.segBase + m.segSize); }
  }

  /** dv and top are in no bin. */
  lemma OffBins(m: Heap)
    requires m.Valid()
    ensures m.dvsize != 0 ==> m.dv !in m.binned
    ensures if m.top == 0 then m.binned == map[] && m.dvsize == 0
            else m.top !in m.binned && (m.dvsize != 0 ==> m.dv != m.top)
  {
    hide Heads, Feet, IndexOk, LiveOk;
    if m.top != 0 { TopNotIn(m.chunks, m.segBase, m.top); }
  }

  /** What dlmalloc promises: nothing changed when it returns null, and otherwise one new block. */
  ghost predicate Outcome(live0: Sizes, live: Sizes, nb: int, mem: int) {
    if mem == 0 then live == live0 else NewBlock(live0, live, nb, mem - 16)
  }

  /** dlmalloc after the bins have been tried: dv, top, and then the system. */
  method MallocRest(m: Heap, nb: int) returns (mem: int)
    requires m.Valid() && 32 <= nb < SIZE_RANGE && (nb % 16 == 0 || nb == MAX_SIZE_T)
    requires BinsTried(m.binned, m.dvsize, nb) && (nb == MAX_SIZE_T ==> m.dvsize < nb && m.topsize <= nb)
    modifies m`mem, m`top, m`topsize, m`trimCheck, m`releaseChecks, m`leastAddr, m`segBase, m`segSize, m`footprint,
        m`maxFootprint, m`curBrk, m`noncontiguous, m`chunks, m`live, m`dv, m`dvsize
    ensures m.Valid() && Allocated(old(ViewOf(m)), ViewOf(m), nb, mem)
    ensures mem == 0 ==> m.chunks == old(m.chunks) && m.mem == old(m.mem)
    ensures nb == MAX_SIZE_T ==> mem == 0
    ensures old(m.top) != 0 ==> m.segBase == old(m.segBase) && m.top != 0
    ensures mem != 0 ==> MallocedChunk(m.mem, mem - 16, nb, m.leastAddr)
    ensures mem != 0 ==> mem - 16 !in old(m.binned)
    ensures mem != 0 ==> m.Pinned(mem - 16)
    ensures BodiesSame(old(m.mem), m.mem, old(m.live))
  {
    hide Tiled, Tiling.Aligned, Heads, Feet, IndexOk, TopOk, Partition, LiveOk, BodiesSame, MallocedChunk, TopChunk,
        InTurn, Allocated, Oversized, Denied, Grown, Increment, BinsTried, NewBlock, Heap.Core, Heap.SegOk,
        Heap.Uninitialised, QueuesKept, Heap.Inv;
    TopServes(m);
    OffBins(m);
    ghost var v0 := ViewOf(m);
    if nb <= m.dvsize {
      mem := MallocDv(m, nb);
      QueuesStay(m, 0, 0);
      FromRest(m, v0, nb, mem);
    } else if nb < m.topsize {
      mem := MallocTop(m, nb);
      QueuesStay(m, 0, 0);
      FromRest(m, v0, nb, mem);
    } else {
      mem := SysAlloc(m, nb);
      if mem != 0 { QueuesStay(m, 0, 0); }
      FromSystem(m, v0, nb, mem);
    }
  }

  /** The chunk size a request is turned into; MAX_SIZE_T, which no chunk has, when it is too big. */
  function RequestSize(bytes: int): int {
    if bytes >= MAX_REQUEST then MAX_SIZE_T else Request2Size(bytes)
  }

  /** A heap without anything free is exhausted whatever is asked for. */
  lemma NothingFree(m: Heap)
    requires m.Valid() && m.top == 0
    ensures m.binned == map[] && m.dvsize == 0 && m.topsize == 0
  {
  }

  /** The whole chunks are far smaller than MAX_SIZE_T. */
  lemma TooBig(m: Heap)
    requires m.Valid()
    ensures m.dvsize < MAX_SIZE_T && m.topsize <= MAX_SIZE_T && BinsTried(m.binned, m.dvsize, MAX_SIZE_T)
  {
    hide Tiled, Tiling.Aligned, Heads, Feet, IndexOk, Partition, LiveOk, TopOk, HeadSizes, AlignedSizes;
    if m.top != 0 {
      SizesOf(m);
      TopInSegment(m.mem, m.chunks, m.segBase, m.top, m.topsize, m.segBase + m.segSize);
      DvBound(m.chunks, m.segBase, m.top, m.segBase + m.segSize, m.binned, m.dv, m.dvsize);
      BinnedBelow(m.chunks, m.segBase, m.top, m.segBase + m.segSize, m.binned, m.dv, m.dvsize);
    }
  }

  lemma BinnedBelow(c: Chunks, base: int, top: int, end: int, f: Sizes, dv: int, dvsize: int)
    requires Tiled(c, base, top) && base > 0 && top <= end < SIZE_RANGE / 2 && Partition(c, f, dv, dvsize, 0, 0)
    ensures NoFit(f, MAX_SIZE_T)
  {
    forall a | a in f ensures f[a] < MAX_SIZE_T { ChunkAt(c, base, top, a); }
  }

  /** The part of dlmalloc for larger requests; null when dv is to be used or nothing in the bins fits. */
  method MallocLarge(m: Heap, nb: int) returns (mem: int)
    requires m.Valid() && MIN_LARGE_SIZE <= nb < SIZE_RANGE && nb % 16 == 0
    modifies m`mem, m`smallmap, m`treemap, m`bins, m`binned, m`chunks, m`live
    ensures m.Valid()
    ensures mem == 0 ==>
        m.live == old(m.live) && m.binned == old(m.binned) && m.bins == old(m.bins) && VictimOf(m) == old(VictimOf(m))
        && m.mem == old(m.mem) && m.chunks == old(m.chunks) && BinsTried(m.binned, m.dvsize, nb)
    ensures mem != 0 ==>
        ServedBest(m, old(ViewOf(m)), nb, mem - 16) && mem - 16 in old(m.binned)
        && (m.dvsize < nb || old(m.binned)[mem - 16] < m.dvsize)
    ensures mem != 0 ==> MallocedChunk(m.mem, mem - 16, nb, m.leastAddr)
    ensures mem != 0 ==> m.Pinned(mem - 16)
    ensures BodiesSame(old(m.mem), m.mem, old(m.live))
  {
    hide Tiled, Tiling.Aligned, Heads, Feet, IndexOk, TopOk, Partition, LiveOk, BodiesSame, Least, BrkOk,
        MallocedChunk, TopChunk, InTurn, Allocated, LeftBy, ServedBest, QueuesKept;
    mem := 0;
    NothingWritten(m.mem, m.live);
    if m.treemap != 0 {
      TreesMeanTop(m);
      mem := TmallocLarge(m, nb);
      if mem != 0 {
        ServedNew(m, old(ViewOf(m)), nb, mem - 16);
        MallocedChecks(m, mem - 16, nb);
        assert MallocedChunk(m.mem, mem - 16, nb, m.leastAddr);  // check_malloced_chunk
      }
    } else if m.top != 0 {
      NoTreeFit(m);
      NoneLarge(m.binned, nb, m.dvsize);
    } else {
      NothingFree(m);
    }
  }

  /** The bins, for a small or for a larger request. */
  method MallocBins(m: Heap, nb: int, small: bool) returns (mem: int)
    requires m.Valid() && 32 <= nb < SIZE_RANGE && nb % 16 == 0 && (small <==> nb < MIN_LARGE_SIZE)
    modifies m`mem, m`smallmap, m`treemap, m`bins, m`binned, m`chunks, m`live, m`dv, m`dvsize
    ensures m.Valid()
    ensures mem == 0 ==>
        ViewOf(m) == old(ViewOf(m)) && m.mem == old(m.mem) && m.chunks == old(m.chunks)
        && BinsTried(m.binned, m.dvsize, nb)
    ensures mem != 0 ==> Allocated(old(ViewOf(m)), ViewOf(m), nb, mem)
    ensures mem != 0 ==> MallocedChunk(m.mem, mem - 16, nb, m.leastAddr)
    ensures mem != 0 ==> m.Pinned(mem - 16)
    ensures BodiesSame(old(m.mem), m.mem, old(m.live))
  {
    hide Tiled, Tiling.Aligned, Heads, Feet, IndexOk, TopOk, Partition, LiveOk, BodiesSame, ServedBest, Allocated,
        MallocedChunk, InTurn, BinsTried, Heap.Valid, Heap.Inv, Heap.Core, QueuesKept;
    ghost var v0 := ViewOf(m);
    OffBins(m);
    if small { mem := MallocSmall(m, nb); } else { mem := MallocLarge(m, nb); }
    if mem != 0 { FromBins(m, v0, nb, mem); }
  }

  /** dlmalloc. */
  method Malloc(m: Heap, bytes: int) returns (mem: int)
    requires m.Valid() && 0 <= bytes < SIZE_RANGE
    modifies m
    ensures m.Valid() && Allocated(old(ViewOf(m)), ViewOf(m), RequestSize(bytes), mem)
    ensures mem == 0 <==> old(NoSpace(m, bytes))
    ensures Outcome(old(m.live), m.live, RequestSize(bytes), mem)
    ensures mem == 0 ==> m.chunks == old(m.chunks) && m.mem == old(m.mem)
    ensures bytes >= MAX_REQUEST ==> mem == 0
    ensures old(m.top) != 0 ==> m.segBase == old(m.segBase) && m.top != 0
    ensures mem != 0 ==> MallocedChunk(m.mem, mem - 16, RequestSize(bytes), m.leastAddr)
    ensures mem != 0 ==> m.Pinned(mem - 16)
    ensures BodiesSame(old(m.mem), m.mem, old(m.live))
  {
    hide Tiled, Tiling.Aligned, Heads, Feet, IndexOk, TopOk, Partition, LiveOk, BodiesSame, Least, Denied, BrkOk,
        MallocedChunk, TopChunk, InTurn, LeftBy, Allocated, NewBlock, NoFit, Grown, Increment, Oversized, BinsTried,
        ServedBest, QueuesKept;
    var nb;
    mem := 0;
    ghost var v0 := ViewOf(m);
    TopServes(m);
    if bytes >= MAX_REQUEST {
      nb := MAX_SIZE_T;
      TooBig(m);
    } else {
      LeastSize(bytes, MIN_CHUNK_SIZE);
      nb := if bytes < MIN_REQUEST then MIN_CHUNK_SIZE else PadRequest(bytes);
      mem := MallocBins(m, nb, bytes <= MAX_SMALL_REQUEST);
      if mem != 0 {
        NullMeans(m, v0, nb, mem);
        return;
      }
    }
    mem := MallocRest(m, nb);
    NullMeans(m, v0, nb, mem);
  }

  lemma TreesMeanTop(m: Heap)
    requires m.Valid() && m.treemap != 0
    ensures m.top != 0 && m.Inv(0, 0)
  {
  }

  lemma NoneLarge(f: Sizes, nb: int, dvsize: int)
    requires nb >= MIN_LARGE_SIZE && forall a :: a in f ==> f[a] < MIN_LARGE_SIZE
    ensures NoFit(f, nb) && Least(f, nb, dvsize)
  {
  }
}
