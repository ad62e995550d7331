/** Writes into a live payload, and dlcalloc (src/mm/malloc.c:4799-4812). */
module HeapCalloc {
  import opened Bits
  import opened BinIndex
  import opened Memory
  import opened Bytes
  import opened Tiling
  import opened Index
  import opened HeapLemmas
  import opened HeapState
  import opened HeapSteps
  import opened HeapReturns
  import opened HeapSys
  import opened HeapViews
  import opened HeapMalloc
  import HeapSearch

  /** Only payload words of p differ. */
  ghost predicate OnlyPayload(mem: Mem, mem': Mem, p: int, s: int) {
    forall w {:trigger Rd(mem', w)} :: !(p + 16 <= w <= p + s) ==> Rd(mem', w) == Rd(mem, w)
  }

  lemma PayloadApart(c: Chunks, base: int, top: int, p: int, m: Sizes, mem: Mem, mem': Mem)
    requires Tiled(c, base, top) && p in c && SomeOf(m, c) && p !in m && OnlyPayload(mem, mem', p, c[p].size)
    ensures BodiesSame(mem, mem', m)
  {
    forall a, w {:trigger a in m, Rd(mem', w)} | a in m && a + 16 <= w <= a + m[a] ensures Rd(mem', w) == Rd(mem, w) {
      NextStart(c, base, top, a, p);
    }
  }

  lemma PayloadTags(c: Chunks, base: int, top: int, hole: int, p: int, mem: Mem, mem': Mem)
    requires Tiled(c, base, top) && p in c && c[p].cin && Heads(mem, c, hole) && Feet(mem, c)
        && OnlyPayload(mem, mem', p, c[p].size)
    ensures Heads(mem', c, hole) && Feet(mem', c) && p + c[p].size <= top && p >= base
  {
    ChunkAt(c, base, top, p);
    forall a | a in c && a != hole ensures Rd(mem', a + HEAD) == HeadWord(c[a]) {
      NextStart(c, base, top, a, p);
    }
    forall a | a in c && !c[a].cin ensures Rd(mem', a + c[a].size) == c[a].size {
      NextStart(c, base, top, a, p);
    }
  }

  lemma LiveInUse(c: Chunks, f: Sizes, dv: int, dvsize: int, hole: int, live: Sizes, p: int)
    requires Partition(c, f, dv, dvsize, hole, 0) && LiveOk(c, live, hole) && p in live
    ensures p in c && c[p].cin && c[p].size == live[p] && p !in f
  {
  }

  /** A live payload is its owner's: writing it leaves the heap well formed and other payloads alone. */
  lemma PayloadWrite(mem: Mem, mem': Mem, c: Chunks, base: int, top: int, topsize: int, end: int, hole: int, p: int,
                     smallmap: nat, treemap: nat, bins: Bins, f: Sizes, dv: int, dvsize: int, live: Sizes)
    requires Tags(mem, c, base, top, hole) && TopOk(mem, top, topsize, end) && end < SIZE_RANGE
    requires IndexOk(mem, smallmap, treemap, bins, f) && Partition(c, f, dv, dvsize, hole, 0) && LiveOk(c, live, hole)
    requires p in live && OnlyPayload(mem, mem', p, live[p])
    ensures Tags(mem', c, base, top, hole) && TopOk(mem', top, topsize, end)
        && IndexOk(mem', smallmap, treemap, bins, f)
    ensures BodiesSame(mem, mem', live - {p})
  {
    hide Tiled, Tiling.Aligned, Heads, Feet, IndexOk, BodiesSame, Spaced, AlignedSizes;
    LiveInUse(c, f, dv, dvsize, hole, live, p);
    BinnedFree(c, f, dv, dvsize, hole, 0);
    BinnedSpaced(c, base, top, f);
    PayloadTags(c, base, top, hole, p, mem, mem');
    PayloadApart(c, base, top, p, f, mem, mem');
    PayloadApart(c, base, top, p, live - {p}, mem, mem');
    IndexFrame(mem, mem', smallmap, treemap, bins, f);
  }

  /** The same on the heap: mem' replaces the memory. */
  method SetPayload(m: Heap, p: int, mem': Mem)
    requires m.Valid() && p in m.live && OnlyPayload(m.mem, mem', p, m.live[p])
    modifies m`mem
    ensures m.Valid() && m.mem == mem' && BodiesSame(old(m.mem), m.mem, m.live - {p})
  {
    hide Tiled, Tiling.Aligned, Heads, Feet, IndexOk, TopOk, Partition, LiveOk, BodiesSame, OnlyPayload;
    PayloadWrite(m.mem, mem', m.chunks, m.segBase, m.top, m.topsize, m.segBase + m.segSize, 0, p,
                 m.smallmap, m.treemap, m.bins, m.binned, m.dv, m.dvsize, m.live);
    m.mem := mem';
  }

  // ----- dlcalloc -----

  /** The wrapped product and the division test: MAX_SIZE_T on overflow. */
  method CallocRequest(n: int, e: int) returns (req: int)
    requires 0 <= n < SIZE_RANGE && 0 <= e < SIZE_RANGE
    ensures req == if n * e < SIZE_RANGE then n * e else MAX_SIZE_T
  {
    req := 0;
    if n != 0 {
      req := n * e % SIZE_RANGE;
      MulNonNeg(n, e);
      // (n_elements | elem_size) & ~0xffff
      if n / 0x1_0000 != 0 || e / 0x1_0000 != 0 {
        OverflowTest(n, e);
        if req / n != e { req := MAX_SIZE_T; }
      } else {
        SmallProduct(n, e);
      }
    }
  }

  lemma MulNonNeg(n: int, e: int)
    requires n >= 0 && e >= 0
    ensures n * e >= 0
  {
  }

  lemma SmallProduct(n: int, e: int)
    requires 0 <= n < 0x1_0000 && 0 <= e < 0x1_0000
    ensures 0 <= n * e < SIZE_RANGE
  {
    MulMono(n, 0x1_0000, e);
    MulMono(0, n, e);
  }

  /** The quotient gives the factor back exactly when the product did not wrap. */
  lemma OverflowTest(n: int, e: int)
    requires 0 < n < SIZE_RANGE && 0 <= e < SIZE_RANGE
    ensures n * e % SIZE_RANGE / n == e <==> n * e < SIZE_RANGE
  {
    MulNonNeg(n, e);
    var r := n * e % SIZE_RANGE;
    if n * e < SIZE_RANGE {
      assert e * n == n * e;
      DivUnique(n * e, n, e, 0);
    } else {
      Remainder(n * e, r);
      assert e * n == n * e;
      HeapSearch.DivBound(r, n, e);
    }
  }

  lemma Remainder(x: int, r: int)
    requires x >= SIZE_RANGE && r == x % SIZE_RANGE
    ensures 0 <= r < x
  {
  }

  lemma FillInside(mem: Mem, mem': Mem, p: int, s: int, n: int)
    requires OnlyBlock(mem, mem', p + 16, n) && n + 8 <= s && s % 8 == 0
    ensures OnlyPayload(mem, mem', p, s)
  {
  }

  lemma BlockHolds(live0: Sizes, live: Sizes, req: int, p: int)
    requires NewBlock(live0, live, RequestSize(req), p) && 0 <= req < MAX_REQUEST
    ensures req + 8 <= live[p]
    ensures forall a :: a in live0 ==> a in live - {p} && (live - {p})[a] == live0[a]
  {
    LeastSize(req, MIN_CHUNK_SIZE);
  }

  /** The n bytes from a on are zero. */
  ghost predicate Zeroed(mem: Mem, a: int, n: int) {
    forall i {:trigger BlockAt(mem, a, i)} :: 0 <= i < n ==> BlockAt(mem, a, i) == 0
  }

  /** memset(mem, 0, n). */
  method ClearBlock(m: Heap, mem: int, n: int)
    requires m.Valid() && mem - 16 in m.live && 0 <= n <= m.live[mem - 16] - 8
    modifies m`mem
    ensures m.Valid() && BodiesSame(old(m.mem), m.mem, m.live - {mem - 16}) && Zeroed(m.mem, mem, n)
  {
    hide Tiled, Tiling.Aligned, Heads, Feet, IndexOk, TopOk, Partition, LiveOk, BodiesSame, OnlyPayload, BlockAt,
        Zeroed;
    AlignedBlock(m, mem - 16);
    var cleared := Cleared(m.mem, mem, n, m.live[mem - 16]);
    SetPayload(m, mem - 16, cleared);
  }

  method Cleared(mem: Mem, a: int, n: int, ghost s: int) returns (mem': Mem)
    requires a % 16 == 0 && s % 16 == 0 && 0 <= n <= s - 8
    ensures OnlyPayload(mem, mem', a - 16, s) && Zeroed(mem', a, n)
  {
    hide OnlyBlock, OnlyPayload, BlockAt, Rd;
    Eights(a);
    Eights(s);
    mem' := MemSetZero(mem, a, n);
    FillInside(mem, mem', a - 16, s, n);
  }

  lemma Eights(x: int)
    requires x % 16 == 0
    ensures x % 8 == 0
  {
  }

  /** malloc and memset. */
  method MallocZeroed(m: Heap, req: int) returns (mem: int)
    requires m.Valid() && 0 <= req < SIZE_RANGE
    modifies m
    ensures m.Valid()
    ensures req >= MAX_REQUEST ==> mem == 0
    ensures mem == 0 <==> old(NoSpace(m, req))
    ensures Allocated(old(ViewOf(m)), ViewOf(m), RequestSize(req), mem)
    ensures mem == 0 ==> m.live == old(m.live) && m.chunks == old(m.chunks) && m.mem == old(m.mem)
    ensures mem != 0 ==>
        NewBlock(old(m.live), m.live, RequestSize(req), mem - 16) && mem - 16 in m.live
        && req + 8 <= m.live[mem - 16]
    ensures mem != 0 ==> Zeroed(m.mem, mem, req)
    ensures BodiesSame(old(m.mem), m.mem, old(m.live))
  {
    hide Tiled, Tiling.Aligned, Heads, Feet, IndexOk, TopOk, Partition, LiveOk, BodiesSame, OnlyPayload, OnlyBlock,
        NewBlock, Exhausted, ServedFrom, NoSpace, Zeroed, Allocated;
    ghost var mem0, live0 := m.mem, m.live;
    mem := Malloc(m, req);
    if mem != 0 {
      ghost var mem1 := m.mem;
      BlockIsLive(live0, m.live, RequestSize(req), mem - 16);
      BlockHolds(live0, m.live, req, mem - 16);
      ClearBlock(m, mem, req);
      BodiesSameSub(mem1, m.mem, m.live - {mem - 16}, live0);
      BodiesSameTrans(mem0, mem1, m.mem, live0);
    }
  }

  /** dlcalloc: a block for n elements of e bytes, all zero; null when the product does not fit. */
  method Calloc(m: Heap, n: int, e: int) returns (mem: int)
    requires m.Valid() && 0 <= n < SIZE_RANGE && 0 <= e < SIZE_RANGE
    modifies m
    ensures m.Valid()
    ensures n * e >= MAX_REQUEST ==> mem == 0
    ensures mem == 0 <==> old(NoSpace(m, n * e))
    ensures Allocated(old(ViewOf(m)), ViewOf(m), RequestSize(n * e), mem)
    ensures mem == 0 ==> m.live == old(m.live) && m.chunks == old(m.chunks) && m.mem == old(m.mem)
    ensures mem != 0 ==>
        NewBlock(old(m.live), m.live, RequestSize(n * e), mem - 16) && mem - 16 in m.live
        && n * e + 8 <= m.live[mem - 16]
    ensures mem != 0 ==> Zeroed(m.mem, mem, n * e)
    ensures BodiesSame(old(m.mem), m.mem, old(m.live))
  {
    hide Tiled, Tiling.Aligned, Heads, Feet, IndexOk, TopOk, Partition, LiveOk, BodiesSame, NewBlock, Zeroed,
        RequestSize, Exhausted, Denied, Allocated;
    MulNonNeg(n, e);
    var req := CallocRequest(n, e);
    SameRequest(n * e);
    mem := MallocZeroed(m, req);
  }

  lemma SameRequest(k: int)
    ensures RequestSize(if k < SIZE_RANGE then k else MAX_SIZE_T) == RequestSize(k)
  {
  }

  lemma BlockIsLive(live0: Sizes, live: Sizes, nb: int, p: int)
    requires NewBlock(live0, live, nb, p)
    ensures p in live
  {
  }

  lemma AlignedBlock(m: Heap, p: int)
    requires m.Valid() && p in m.live
    ensures p % 16 == 0 && m.live[p] % 16 == 0 && m.live[p] >= 32 && m.top != 0 && p >= m.segBase > 0
        && p + m.live[p] <= m.top
  {
    hide Tiled, Tiling.Aligned, Heads, Feet, IndexOk, TopOk, Partition, LiveOk;
    LiveIsChunk(m.chunks, m.segBase, m.top, m.binned, m.dv, m.dvsize, 0, m.live, p);
  }
}
