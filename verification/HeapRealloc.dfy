/** try_realloc_chunk and dlrealloc (src/mm/malloc.c:4819-4896, 5193-5236). */
module HeapRealloc {
  import opened BinIndex
  import opened Memory
  import opened Bytes
  import opened Tiling
  import opened Macros
  import opened Index
  import opened HeapLemmas
  import opened HeapState
  import opened HeapSteps
  import opened HeapReturns
  import opened HeapRelays
  import opened HeapResizes
  import opened HeapFree
  import opened HeapSys
  import opened HeapViews
  import opened HeapQueues
  import opened HeapChecks
  import opened HeapMalloc
  import opened HeapCalloc
  import HeapRelease

  /** p can have n bytes where it lies: it is large enough, or top or a free chunk follows that makes up for it. */
  ghost predicate InPlace(c: Chunks, top: int, topsize: int, p: int, n: int) {
    p in c &&
    var next := p + c[p].size;
    || n <= c[p].size
    || (next == top && n < c[p].size + topsize)
    || (next in c && !c[next].cin && n <= c[p].size + c[next].size)
  }

  /** The bytes p has for the asking: its own, and when these are too few those of top or of the free chunk after it. */
  ghost function Reach(c: Chunks, top: int, topsize: int, p: int, n: int): int
    requires p in c
  {
    var next := p + c[p].size;
    if n <= c[p].size then c[p].size
    else if next == top then c[p].size + topsize
    else if next in c && !c[next].cin then c[p].size + c[next].size
    else c[p].size
  }

  /** The size p gets where it lies: n when it grows into top or what is left is a chunk, else all there is. */
  ghost function SizeInPlace(c: Chunks, top: int, topsize: int, p: int, n: int): int
    requires p in c
  {
    var reach := Reach(c, top, topsize, p, n);
    if reach - n >= MIN_CHUNK_SIZE || (n > c[p].size && p + c[p].size == top) then n else reach
  }

  lemma PlaceCases(c: Chunks, top: int, topsize: int, p: int, n: int)
    requires p in c && top !in c
    ensures var s, next := c[p].size, p + c[p].size;
            if n <= s then
              InPlace(c, top, topsize, p, n) && SizeInPlace(c, top, topsize, p, n) ==
                  if s - n >= MIN_CHUNK_SIZE then n else s
            else if next == top then
              (InPlace(c, top, topsize, p, n) <==> n < s + topsize) && SizeInPlace(c, top, topsize, p, n) == n
            else if next in c && !c[next].cin then
              var r := s + c[next].size;
              (InPlace(c, top, topsize, p, n) <==> n <= r)
              && SizeInPlace(c, top, topsize, p, n) == if r - n >= MIN_CHUNK_SIZE then n else r
            else !InPlace(c, top, topsize, p, n)
  {
  }

  /** When p grows into dv, what is left is dv, or there is none; else what is given back may join dv. */
  ghost predicate VictimInPlace(c: Chunks, p: int, n: int, v0: Victim, top: int, v: Victim) {
    p in c &&
    if n > c[p].size && v0.size != 0 && v0.at == p + c[p].size then
      var rest := c[p].size + v0.size - n;
      v == if rest >= MIN_CHUNK_SIZE then Victim(p + n, rest) else Victim(0, 0)
    else VictimKept(v0, top, v)
  }

  /** p has between n and n + MIN_CHUNK_SIZE bytes, the first ones as before, and nothing else changed. */
  ghost predicate Resized(mem0: Mem, mem: Mem, live0: Sizes, live: Sizes, p: int, n: int) {
    && p in live0 && p in live && live == live0[p := live[p]]
    && n <= live[p] < n + MIN_CHUNK_SIZE
    && BodiesSame(mem0, mem, live0[p := if live0[p] < live[p] then live0[p] else live[p]])
  }

  lemma ResizedFrom(mem0: Mem, mem: Mem, live0: Sizes, live: Sizes, p: int, n: int, s: int)
    requires p in live0 && live == live0[p := s] && n <= s < n + MIN_CHUNK_SIZE
    requires s <= live0[p] ==> BodiesSame(mem0, mem, live)
    requires s > live0[p] ==> BodiesSame(mem0, mem, live0)
    ensures Resized(mem0, mem, live0, live, p, n)
  {
    hide BodiesSame;
    assert live0[p := live0[p]] == live0;
  }

  /** The part for a block that is large enough: give back what is worth a chunk. */
  method Shrink(m: Heap, p: int, oldsize: int, nb: int)
    requires m.Inv(0, 0) && p in m.live && m.live[p] == oldsize && 32 <= nb <= oldsize && nb % 16 == 0
    modifies m`mem, m`smallmap, m`treemap, m`bins, m`binned, m`chunks, m`live, m`dvsize, m`dv, m`top, m`topsize
    ensures m.Inv(0, 0) && m.top != 0 && Resized(old(m.mem), m.mem, old(m.live), m.live, p, nb)
    ensures m.live[p] == if oldsize - nb >= MIN_CHUNK_SIZE then nb else oldsize
    ensures QueuesKept(old(m.bins), m.bins, m.binned)
    ensures VictimKept(old(VictimOf(m)), m.top, VictimOf(m))
  {
    hide Tiled, Tiling.Aligned, Heads, Feet, IndexOk, TopOk, Partition, LiveOk, BodiesSame, Resized, VictimKept,
        Heap.Inv, QueuesKept, Shrunk, WaitsAre;
    ghost var mem0, live0 := m.mem, m.live;
    var rsize := oldsize - nb;
    assert live0 == live0[p := live0[p]];
    NothingWritten(m.mem, m.live);
    VictimStays(m);
    QueuesStay(m, 0, 0);
    if rsize >= MIN_CHUNK_SIZE {
      var r := p + nb;
      SplitTail(m, p, nb, rsize);
      ghost var mem1 := m.mem;
      DisposeChunk(m, r, rsize);
      BodiesSameTrans(mem0, mem1, m.mem, m.live);
    }
    TopThere(m);
    ResizedFrom(mem0, m.mem, live0, m.live, p, nb, m.live[p]);
  }

  /** extend into dv. */
  method ExtendIntoDv(m: Heap, p: int, oldsize: int, nb: int) returns (newp: int)
    requires m.Inv(0, 0) && p in m.live && m.live[p] == oldsize && oldsize < nb && nb % 16 == 0 && m.dvsize != 0
        && m.dv == p + oldsize && p != 0
    modifies m`mem, m`chunks, m`live, m`dvsize, m`dv
    ensures m.Inv(0, 0) && newp == if nb <= oldsize + old(m.dvsize) then p else 0
    ensures newp == 0 ==> m.live == old(m.live) && m.mem == old(m.mem) && m.chunks == old(m.chunks)
    ensures newp == 0 ==> m.binned == old(m.binned) && VictimOf(m) == old(VictimOf(m)) && m.topsize == old(m.topsize)
    ensures newp != 0 ==> Resized(old(m.mem), m.mem, old(m.live), m.live, p, nb)
    ensures newp != 0 ==>
        if oldsize + old(m.dvsize) - nb >= MIN_CHUNK_SIZE then
          m.live[p] == nb && VictimOf(m) == Victim(p + nb, oldsize + old(m.dvsize) - nb)
        else m.live[p] == oldsize + old(m.dvsize) && VictimOf(m) == Victim(0, 0)
  {
    hide Tiled, Tiling.Aligned, Heads, Feet, IndexOk, TopOk, Partition, LiveOk, BodiesSame, Resized, QueuesKept;
    ghost var mem0, live0 := m.mem, m.live;
    newp := 0;
    var dvs := m.dvsize;
    if oldsize + dvs >= nb {
      var dsize := oldsize + dvs - nb;
      if dsize >= MIN_CHUNK_SIZE {
        GrowIntoDv(m, p, nb, dsize);
      } else {
        GrowOverDv(m, p, oldsize + dvs);
      }
      ResizedFrom(mem0, m.mem, live0, m.live, p, nb, m.live[p]);
      newp := p;
    }
  }

  /** extend into the next free chunk, which is in a bin. */
  method ExtendIntoNext(m: Heap, p: int, oldsize: int, nb: int, next: int) returns (newp: int)
    requires m.Inv(0, 0) && p in m.live && m.live[p] == oldsize && oldsize < nb && nb % 16 == 0 && nb >= 32
    requires next == p + oldsize && next in m.chunks && next in m.binned && m.binned[next] == m.chunks[next].size
        && next != 0 && p != 0
    modifies m`mem, m`smallmap, m`treemap, m`bins, m`binned, m`chunks, m`live, m`dvsize, m`dv, m`top, m`topsize
    ensures m.Inv(0, 0) && newp == (if nb <= oldsize + old(m.chunks)[next].size then p else 0)
    ensures newp == 0 ==>
        m.live == old(m.live) && m.mem == old(m.mem) && m.chunks == old(m.chunks) && m.top == old(m.top)
    ensures newp == 0 ==> m.bins == old(m.bins)
    ensures newp != 0 ==> QueuesKept(old(m.bins), m.bins, m.binned)
    ensures newp == 0 ==> m.binned == old(m.binned) && VictimOf(m) == old(VictimOf(m)) && m.topsize == old(m.topsize)
    ensures newp != 0 ==> Resized(old(m.mem), m.mem, old(m.live), m.live, p, nb) && m.top != 0
    ensures newp != 0 ==> VictimKept(old(VictimOf(m)), m.top, VictimOf(m))
    ensures newp != 0 ==>
        m.live[p] == if oldsize + old(m.chunks)[next].size - nb >= MIN_CHUNK_SIZE then nb
        else oldsize + old(m.chunks)[next].size
  {
    hide Tiled, Tiling.Aligned, Heads, Feet, IndexOk, TopOk, Partition, LiveOk, BodiesSame, Resized, VictimKept,
        Heap.Inv, QueuesKept, Shrunk, WaitsAre;
    ghost var mem0, live0 := m.mem, m.live;
    newp := 0;
    BinnedHead(m, next);
    LegalSize(m, p);
    VictimStays(m);
    QueuesStay(m, 0, 0);
    ghost var b0, f0 := m.bins, m.binned;
    var nextsize := ChunkSize(m.mem, next);
    if oldsize + nextsize >= nb {
      var rsize := oldsize + nextsize - nb;
      UnlinkChunk(m, next, nextsize, 0);
      ghost var mem1, b1, f1 := m.mem, m.bins, m.binned;
      ShrunkKept(b0, b1, f1);
      if rsize < MIN_CHUNK_SIZE {
        GrowWhole(m, p, next, oldsize + nextsize);
      } else {
        GrowAndSplit(m, p, next, nb, rsize);
        ghost var mem2 := m.mem;
        DisposeChunk(m, p + nb, rsize);
        InsideLive(m, p, next);
        ShrunkThen(b0, f0, b1, next, m.bins, m.binned);
        KeepOld(mem2, m.mem, live0, p, nb);
        BodiesSameTrans(mem1, mem2, m.mem, live0);
      }
      BodiesSameTrans(mem0, mem1, m.mem, live0);
      TopThere(m);
      ResizedFrom(mem0, m.mem, live0, m.live, p, nb, m.live[p]);
      newp := p;
    }
  }

  /** No chunk starts inside a live block. */
  lemma InsideLive(m: Heap, p: int, x: int)
    requires m.Inv(0, 0) && p in m.live && p < x < p + m.live[p]
    ensures x !in m.binned
  {
    hide Tiling.Aligned, Heads, Feet, IndexOk, TopOk;
    NoZero(m.chunks, m.segBase, m.top);
    assert Before(m.chunks, p, x);
  }

  lemma KeepOld(mem: Mem, mem': Mem, live0: Sizes, p: int, n: int)
    requires p in live0 && live0[p] <= n && BodiesSame(mem, mem', live0[p := n])
    ensures BodiesSame(mem, mem', live0)
  {
    BodiesSameSub(mem, mem', live0[p := n], live0);
  }

  /** try_realloc_chunk: p when the block can have nb bytes where it lies, and null, with nothing
      changed, exactly when it cannot. */
  method TryReallocChunk(m: Heap, p: int, nb: int) returns (newp: int)
    requires m.Inv(0, 0) && p in m.live && 32 <= nb < SIZE_RANGE && nb % 16 == 0
    modifies m`mem, m`smallmap, m`treemap, m`bins, m`binned, m`chunks, m`live, m`dvsize, m`dv, m`top, m`topsize
    ensures m.Inv(0, 0) && m.top != 0
    ensures newp == if old(InPlace(m.chunks, m.top, m.topsize, p, nb)) then p else 0
    ensures newp == 0 ==> m.live == old(m.live) && m.mem == old(m.mem) && m.chunks == old(m.chunks)
    ensures newp == 0 ==> m.binned == old(m.binned) && VictimOf(m) == old(VictimOf(m)) && m.topsize == old(m.topsize)
    ensures newp == 0 ==> m.top == old(m.top) && m.bins == old(m.bins)
    ensures newp != 0 ==> QueuesKept(old(m.bins), m.bins, m.binned)
    ensures newp != 0 ==> Resized(old(m.mem), m.mem, old(m.live), m.live, p, nb)
    ensures newp != 0 ==>
        m.live[p] == old(SizeInPlace(m.chunks, m.top, m.topsize, p, nb))
        && VictimInPlace(old(m.chunks), p, nb, old(VictimOf(m)), m.top, VictimOf(m))
  {
    hide Tiled, Tiling.Aligned, Heads, Feet, IndexOk, TopOk, Partition, LiveOk, BodiesSame, Resized, InuseChunk,
        InPlace, SizeInPlace, Reach, QueuesKept;
    ghost var mem0, live0 := m.mem, m.live;
    newp := 0;
    LiveChecks(m, p);
    VictimStays(m);
    QueuesStay(m, 0, 0);
    LiveIsChunk(m.chunks, m.segBase, m.top, m.binned, m.dv, m.dvsize, 0, m.live, p);
    NextTags(m.mem, m.chunks, m.segBase, m.top, m.topsize, m.segBase + m.segSize, 0, p);
    NoZero(m.chunks, m.segBase, m.top);
    TopInSegment(m.mem, m.chunks, m.segBase, m.top, m.topsize, m.segBase + m.segSize);
    TopNotIn(m.chunks, m.segBase, m.top);
    PlaceCases(m.chunks, m.top, m.topsize, p, nb);
    var oldsize := ChunkSize(m.mem, p);
    var next := p + oldsize;
    assert p >= m.leastAddr && Cinuse(m.mem, p) && p < next && Pinuse(m.mem, next);  // RTCHECK
    if oldsize >= nb {
      Shrink(m, p, oldsize, nb);
      newp := p;
    } else if next == m.top {
      if oldsize + m.topsize > nb {
        GrowIntoTop(m, p, oldsize, nb);
        ResizedFrom(mem0, m.mem, live0, m.live, p, nb, nb);
        newp := p;
      }
    } else if next == m.dv {
      NextDv(m.chunks, m.segBase, m.top, m.binned, m.dv, m.dvsize, next);
      newp := ExtendIntoDv(m, p, oldsize, nb);
    } else if !Cinuse(m.mem, next) {
      NextIsBinned(m.chunks, m.binned, m.dv, m.dvsize, 0, next);
      newp := ExtendIntoNext(m, p, oldsize, nb, next);
    }
  }

  lemma NextDv(c: Chunks, base: int, top: int, f: Sizes, dv: int, dvsize: int, next: int)
    requires Tiled(c, base, top) && base > 0 && Partition(c, f, dv, dvsize, 0, 0) && dv == next && next in c
    ensures dvsize != 0 && !c[next].cin && c[next].size == dvsize
  {
    NoZero(c, base, top);
  }

  // ----- dlrealloc -----

  /** The bytes of a payload that kept its words. */
  lemma KeptByte(mem: Mem, mem': Mem, m: Sizes, p: int, i: int)
    requires BodiesSame(mem, mem', m) && p in m && p % 8 == 0 && m[p] % 8 == 0 && 0 <= i < m[p] - 8
    ensures BlockAt(mem', p + 16, i) == BlockAt(mem, p + 16, i)
  {
    hide BlockAt, Byte;
    WordInside(p, m[p], i);
    assert Rd(mem', Word(p + 16, i / 8)) == Rd(mem, Word(p + 16, i / 8));
    SameByte(mem, mem', p + 16, i);
  }

  lemma WordInside(p: int, s: int, i: int)
    requires s % 8 == 0 && 0 <= i < s - 8
    ensures p + 16 <= Word(p + 16, i / 8) <= p + s
  {
  }

  /** The first n bytes of the block at `to` are those that were at `from`. */
  ghost predicate Moved(mem0: Mem, mem: Mem, from: int, to: int, n: int) {
    forall i {:trigger BlockAt(mem, to, i)} :: 0 <= i < n ==> BlockAt(mem, to, i) == BlockAt(mem0, from, i)
  }

  function Min(a: int, b: int): int { if a < b then a else b }

  lemma KeptInPlace(mem0: Mem, mem: Mem, live0: Sizes, live: Sizes, p: int, nb: int, bytes: int)
    requires Resized(mem0, mem, live0, live, p, nb) && bytes + 8 <= nb && p % 8 == 0 && live0[p] % 8 == 0
        && live[p] % 8 == 0
    ensures Moved(mem0, mem, p + 16, p + 16, Min(live0[p] - 8, bytes))
    ensures BodiesSame(mem0, mem, live0 - {p})
  {
    var kept := live0[p := if live0[p] < live[p] then live0[p] else live[p]];
    forall i {:trigger BlockAt(mem, p + 16, i)} | 0 <= i < Min(live0[p] - 8, bytes) ensures BlockAt(mem, p + 16,
        i) == BlockAt(mem0, p + 16, i) {
      KeptByte(mem0, mem, kept, p, i);
    }
    BodiesSameSub(mem0, mem, kept, live0 - {p});
  }

  lemma LegalSize(m: Heap, p: int)
    requires m.Inv(0, 0) && p in m.live
    ensures p % 16 == 0 && m.live[p] % 16 == 0 && p > 0 && p in m.chunks && m.chunks[p].size == m.live[p]
        && m.live[p] >= 32
    ensures p % 8 == 0 && m.live[p] % 8 == 0 && (p + 16) % 8 == 0
  {
    hide Tiled, Tiling.Aligned, Heads, Feet, IndexOk, TopOk, Partition, LiveOk;
    LiveIsChunk(m.chunks, m.segBase, m.top, m.binned, m.dv, m.dvsize, 0, m.live, p);
    Multiples8(p, m.live[p]);
  }

  lemma Multiples8(p: int, s: int)
    requires p % 16 == 0 && s % 16 == 0
    ensures p % 8 == 0 && s % 8 == 0 && (p + 16) % 8 == 0
  {
  }

  /** What realloc leaves when it succeeds: the block p0 is replaced by one of at least nb bytes that
      starts with its bytes, and every other live block keeps its words. */
  ghost predicate Reallocated(mem0: Mem, mem: Mem, live0: Sizes, live: Sizes, p0: int, p: int, nb: int, bytes: int) {
    && p0 in live0 && p in live && (p == p0 || p !in live0)
    && live == (live0 - {p0})[p := live[p]] && nb <= live[p] < nb + MIN_CHUNK_SIZE
    && Moved(mem0, mem, p0 + 16, p + 16, Min(live0[p0] - 8, bytes))
    && BodiesSame(mem0, mem, live0 - {p0})
  }

  lemma ReallocatedHere(mem0: Mem, mem: Mem, live0: Sizes, live: Sizes, p: int, nb: int, bytes: int)
    requires Resized(mem0, mem, live0, live, p, nb) && bytes + 8 <= nb && p % 8 == 0 && live0[p] % 8 == 0
        && live[p] % 8 == 0
    ensures Reallocated(mem0, mem, live0, live, p, p, nb, bytes)
  {
    hide BodiesSame, Moved;
    KeptInPlace(mem0, mem, live0, live, p, nb, bytes);
    assert BodiesSame(mem0, mem, live0 - {p});
    assert (live0 - {p})[p := live[p]] == live0[p := live[p]];
  }

  lemma MovedTrans(mem0: Mem, mem1: Mem, mem2: Mem, mem3: Mem, live0: Sizes, live1: Sizes, p0: int, p: int, n: int)
    requires p0 in live0 && BodiesSame(mem0, mem1, live0) && p0 % 8 == 0 && live0[p0] % 8 == 0 && n <= live0[p0] - 8
    requires Moved(mem1, mem2, p0 + 16, p + 16, n)
    requires p in live1 && BodiesSame(mem2, mem3, live1) && p % 8 == 0 && live1[p] % 8 == 0 && n <= live1[p] - 8
    ensures Moved(mem0, mem3, p0 + 16, p + 16, n)
  {
    hide BodiesSame;
    forall i {:trigger BlockAt(mem3, p + 16, i)} | 0 <= i < n ensures BlockAt(mem3, p + 16, i) == BlockAt(mem0,
        p0 + 16, i) {
      KeptByte(mem0, mem1, live0, p0, i);
      KeptByte(mem2, mem3, live1, p, i);
      assert BlockAt(mem2, p + 16, i) == BlockAt(mem1, p0 + 16, i);
    }
  }

  lemma Disjoint(m: Heap, p: int, q: int)
    requires m.Inv(0, 0) && p in m.live && q in m.live && p != q
    ensures p + m.live[p] <= q || q + m.live[q] <= p
  {
    hide Tiling.Aligned, Heads, Feet, IndexOk, TopOk, Partition;
    assert Before(m.chunks, p, q) && Before(m.chunks, q, p);
  }

  method Copied(mem: Mem, a: int, b: int, n: int, ghost s: int, ghost t: int) returns (mem': Mem)
    requires a % 8 == 0 && s % 8 == 0 && 0 <= n && n + 8 <= s && b % 8 == 0 && n + 8 <= t && (a + s <= b || b + t <= a)
    ensures OnlyPayload(mem, mem', a - 16, s) && Moved(mem, mem', b, a, n)
  {
    hide OnlyBlock, OnlyPayload, BlockAt;
    mem' := MemCopy(mem, a, b, n);
    FillInside(mem, mem', a - 16, s, n);
  }

  /** oc = chunksize(oldp) - overhead_for(oldp); memcpy(mem, oldmem, (oc < bytes)? oc : bytes). */
  method CopyBlock(m: Heap, oldmem: int, mem: int, bytes: int)
    requires m.Inv(0, 0) && m.top != 0 && oldmem - 16 in m.live && mem - 16 in m.live && oldmem != mem
        && 0 <= bytes <= m.live[mem - 16] - 8
    modifies m`mem
    ensures m.Valid() && BodiesSame(old(m.mem), m.mem, m.live - {mem - 16})
    ensures m.live[mem - 16] % 8 == 0 && mem % 8 == 0
    ensures Moved(old(m.mem), m.mem, oldmem, mem, Min(m.live[oldmem - 16] - 8, bytes))
  {
    hide Tiled, Tiling.Aligned, Heads, Feet, IndexOk, TopOk, Partition, LiveOk, BodiesSame, OnlyPayload, InuseChunk,
        Moved;
    Disjoint(m, oldmem - 16, mem - 16);
    LegalSize(m, mem - 16);
    LegalSize(m, oldmem - 16);
    LiveChecks(m, oldmem - 16);
    var oc := ChunkSize(m.mem, oldmem - 16) - 8;
    var n := if oc < bytes then oc else bytes;
    var copied := Copied(m.mem, mem, oldmem, n, m.live[mem - 16], m.live[oldmem - 16]);
    SetPayload(m, mem - 16, copied);
  }

  /** From v0 by an allocation to v1, and when that gave a block, by freeing p0 to v. */
  ghost predicate MovedThrough(v0: View, v1: View, v: View, p0: int, nb: int, mem: int) {
    && Allocated(v0, v1, nb, mem)
    && if mem == 0 then v == v1 else HeapRelease.FreedTo(v1, v, p0 + 16)
  }

  /** When dlrealloc returns null: the request is too big, or has no room, neither in place nor elsewhere. */
  ghost predicate ReallocFails(v: View, p0: int, bytes: int) {
    bytes >= MAX_REQUEST
    || (!InPlace(v.chunks, v.top, v.sys.topsize, p0, Request2Size(bytes)) && NoRoom(v, bytes))
  }

  ghost predicate Moves(v0: View, v: View, p0: int, nb: int, mem: int) {
    exists v1: View :: MovedThrough(v0, v1, v, p0, nb, mem)
  }

  /** All that dlrealloc does to the chunks: exactly when p0 can be resized where it lies it is, to the size and with
      what is left as SizeInPlace and VictimInPlace say; else its bytes move to a block malloc gives, if it does. */
  ghost predicate ReallocatedTo(v0: View, v: View, p0: int, nb: int, mem: int) {
    if InPlace(v0.chunks, v0.top, v0.sys.topsize, p0, nb) then
      && mem - 16 == p0 && v.live == v0.live[p0 := SizeInPlace(v0.chunks, v0.top, v0.sys.topsize, p0, nb)]
      && VictimInPlace(v0.chunks, p0, nb, v0.victim, v.top, v.victim) && QueuesKept(v0.bins, v.bins, v.binned)
      && v.accounts == v0.accounts && SameSystem(v0, v)
    else Moves(v0, v, p0, nb, mem)
  }

  /** The move of dlrealloc: malloc, memcpy, free. */
  method MoveBlock(m: Heap, oldmem: int, bytes: int) returns (mem: int)
    requires m.Inv(0, 0) && m.top != 0 && oldmem - 16 in m.live && 0 <= bytes < MAX_REQUEST
    modifies m
    ensures m.Valid()
    ensures mem == 0 <==> old(NoSpace(m, bytes))
    ensures Moves(old(ViewOf(m)), ViewOf(m), oldmem - 16, Request2Size(bytes), mem)
    ensures mem == 0 ==> m.live == old(m.live) && m.mem == old(m.mem) && m.chunks == old(m.chunks)
    ensures mem != 0 ==>
        Reallocated(old(m.mem), m.mem, old(m.live), m.live, oldmem - 16, mem - 16, Request2Size(bytes), bytes)
  {
    hide Tiled, Tiling.Aligned, Heads, Feet, IndexOk, TopOk, Partition, LiveOk, BodiesSame, OnlyBlock, OnlyPayload,
        Exhausted, ServedFrom, NoSpace, InuseChunk, Moved, Allocated, Heap.Inv, VictimKept, MovedThrough, QueuesKept;
    ghost var mem0, live0, p0 := m.mem, m.live, oldmem - 16;
    LegalSize(m, p0);
    LeastSize(bytes, MIN_CHUNK_SIZE);
    ghost var v0 := ViewOf(m);
    mem := Malloc(m, bytes);
    ghost var v1 := ViewOf(m);
    if mem != 0 {
      ghost var mem1, live1, p := m.mem, m.live, mem - 16;
      StillValid(m, live0, p0, p);
      ghost var n := Min(live0[p0] - 8, bytes);
      CopyBlock(m, oldmem, mem, bytes);
      ghost var mem2 := m.mem;
      HeapRelease.Free(m, oldmem);
      MovedTrans(mem0, mem1, mem2, m.mem, live0, m.live, p0, p, n);
      OthersKept(mem0, mem1, mem2, m.mem, live0, live1, m.live, p0, p);
      assert m.live == (live0 - {p0})[p := m.live[p]];
    }
    MoveDone(m, v0, v1, p0, Request2Size(bytes), mem);
  }

  lemma MoveDone(m: Heap, v0: View, v1: View, p0: int, nb: int, mem: int)
    requires Allocated(v0, v1, nb, mem)
    requires if mem == 0 then ViewOf(m) == v1 else HeapRelease.FreedTo(v1, ViewOf(m), p0 + 16)
    ensures Moves(v0, ViewOf(m), p0, nb, mem)
  {
    assert MovedThrough(v0, v1, ViewOf(m), p0, nb, mem);
  }

  /** The block where it was. */
  lemma HereDone(m: Heap, v0: View, p0: int, nb: int, mem: int)
    requires InPlace(v0.chunks, v0.top, v0.sys.topsize, p0, nb) && mem - 16 == p0
    requires m.live == v0.live[p0 := SizeInPlace(v0.chunks, v0.top, v0.sys.topsize, p0, nb)]
    requires VictimInPlace(v0.chunks, p0, nb, v0.victim, m.top, VictimOf(m)) && QueuesKept(v0.bins, m.bins, m.binned)
    requires AccountsOf(m) == v0.accounts && SameSystem(v0, ViewOf(m))
    ensures ReallocatedTo(v0, ViewOf(m), p0, nb, mem)
  {
  }

  lemma StillValid(m: Heap, live0: Sizes, p0: int, p: int)
    requires m.Valid() && p0 in live0 && p !in live0 && p in m.live && m.live == live0[p := m.live[p]]
    ensures m.top != 0 && m.Inv(0, 0) && p != p0 && p0 in m.live && m.live[p0] == live0[p0]
  {
    hide Tiled, Tiling.Aligned, Heads, Feet, IndexOk, TopOk, Partition, LiveOk;
  }

  lemma OthersKept(mem0: Mem, mem1: Mem, mem2: Mem, mem3: Mem, live0: Sizes, live1: Sizes, live2: Sizes, p0: int,
      p: int)
    requires BodiesSame(mem0, mem1, live0) && BodiesSame(mem1, mem2, live1 - {p}) && BodiesSame(mem2, mem3, live2)
    requires p !in live0 && p in live1 && live1 == live0[p := live1[p]] && live2 == live1 - {p0}
    ensures BodiesSame(mem0, mem3, live0 - {p0})
  {
    hide BodiesSame;
    var k := live0 - {p0};
    BodiesSameSub(mem0, mem1, live0, k);
    BodiesSameSub(mem1, mem2, live1 - {p}, k);
    BodiesSameSub(mem2, mem3, live2, k);
    BodiesSameTrans(mem0, mem1, mem2, k);
    BodiesSameTrans(mem0, mem2, mem3, k);
  }

  /** dlrealloc of a live block for a request that is not too big. */
  method ReallocBlock(m: Heap, oldmem: int, bytes: int) returns (mem: int)
    requires m.Valid() && 0 <= bytes < MAX_REQUEST && oldmem - 16 in m.live
    modifies m
    ensures m.Valid()
    ensures mem == 0 <==> old(ReallocFails(ViewOf(m), oldmem - 16, bytes))
    ensures mem == 0 ==> m.live == old(m.live) && m.mem == old(m.mem) && m.chunks == old(m.chunks)
    ensures mem != 0 ==>
        Reallocated(old(m.mem), m.mem, old(m.live), m.live, oldmem - 16, mem - 16, Request2Size(bytes), bytes)
    ensures ReallocatedTo(old(ViewOf(m)), ViewOf(m), oldmem - 16, Request2Size(bytes), mem)
    ensures InPlace(old(m.chunks), old(m.top), old(m.topsize), oldmem - 16, Request2Size(bytes)) ==> mem == oldmem
  {
    hide Tiled, Tiling.Aligned, Heads, Feet, IndexOk, TopOk, Partition, LiveOk, BodiesSame, Exhausted, ServedFrom,
        Denied, RequestSize, Reallocated, InPlace, Resized, BrkOk, InuseChunk, SizeInPlace, VictimInPlace, Moves,
        Heap.Core, Heap.SegOk, QueuesKept;
    ghost var mem0, live0, p0, v0 := m.mem, m.live, oldmem - 16, ViewOf(m);
    LeastSize(bytes, MIN_CHUNK_SIZE);
    var nb := Request2Size(bytes);
    HeapRelease.LiveMeansTop(m, p0);
    LegalSize(m, p0);
    var newp := TryReallocChunk(m, oldmem - 16, nb);
    if newp != 0 {
      ResizedLegal(m, mem0, live0, p0, nb);
      ReallocatedHere(mem0, m.mem, live0, m.live, p0, nb, bytes);
      LiveChecks(m, newp);
      assert InuseChunk(m.mem, newp, m.leastAddr);  // check_inuse_chunk
      mem := newp + 16;
      HereDone(m, v0, p0, nb, mem);
    } else {
      mem := MoveBlock(m, oldmem, bytes);
    }
  }

  /** dlrealloc: like malloc for null; null, with nothing changed, for a request that is too big or
      that neither fits in place nor can be allocated; else the block, resized or moved. */
  method Realloc(m: Heap, oldmem: int, bytes: int) returns (mem: int)
    requires m.Valid() && 0 <= bytes < SIZE_RANGE && (oldmem != 0 ==> oldmem - 16 in m.live)
    modifies m
    ensures m.Valid()
    ensures bytes >= MAX_REQUEST ==> mem == 0
    ensures mem == 0 <==>
        if oldmem == 0 then old(NoSpace(m, bytes)) else old(ReallocFails(ViewOf(m), oldmem - 16, bytes))
    ensures mem == 0 ==> m.live == old(m.live) && m.mem == old(m.mem) && m.chunks == old(m.chunks)
    ensures oldmem == 0 && mem != 0 ==>
        NewBlock(old(m.live), m.live, Request2Size(bytes), mem - 16) && BodiesSame(old(m.mem), m.mem, old(m.live))
    ensures oldmem != 0 && mem != 0 ==>
        Reallocated(old(m.mem), m.mem, old(m.live), m.live, oldmem - 16, mem - 16, Request2Size(bytes), bytes)
    ensures oldmem == 0 ==> Allocated(old(ViewOf(m)), ViewOf(m), RequestSize(bytes), mem)
    ensures oldmem != 0 ==>
        if bytes >= MAX_REQUEST then mem == 0 && ViewOf(m) == old(ViewOf(m))
        else ReallocatedTo(old(ViewOf(m)), ViewOf(m), oldmem - 16, Request2Size(bytes), mem)
    ensures (oldmem != 0 && bytes < MAX_REQUEST
             && InPlace(old(m.chunks), old(m.top), old(m.topsize), oldmem - 16, Request2Size(bytes))) ==> mem == oldmem
  {
    hide Tiled, Tiling.Aligned, Heads, Feet, IndexOk, TopOk, Partition, LiveOk, BodiesSame, Exhausted, ServedFrom,
        NoSpace, Reallocated, InPlace, BrkOk, Allocated, Heap.Inv, ReallocatedTo, QueuesKept;
    mem := 0;
    if oldmem == 0 {
      mem := Malloc(m, bytes);
    } else if bytes < MAX_REQUEST {
      mem := ReallocBlock(m, oldmem, bytes);
    }
  }

  lemma ResizedLegal(m: Heap, mem0: Mem, live0: Sizes, p: int, nb: int)
    requires m.Inv(0, 0) && Resized(mem0, m.mem, live0, m.live, p, nb)
    ensures p in live0 && p in m.live && m.live == live0[p := m.live[p]] && m.live[p] % 16 == 0
  {
    hide Tiled, Tiling.Aligned, Heads, Feet, IndexOk, TopOk, Partition, LiveOk, BodiesSame;
    LegalSize(m, p);
  }
}
