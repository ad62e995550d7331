/** internal_memalign and dlmemalign (src/mm/malloc.c:4898-4970, 5269-5274). */
module HeapMemalign {
  import opened Bits
  import opened BinIndex
  import opened Memory
  import opened Tiling
  import opened Macros
  import opened Index
  import opened HeapLemmas
  import opened HeapState
  import opened HeapRelays
  import opened HeapResizes
  import opened HeapFree
  import opened HeapSys
  import opened HeapViews
  import opened HeapQueues
  import opened HeapChecks
  import opened HeapMalloc
  import HeapRealloc
  import TreeKeys

  // ----- rounding the alignment up to a power of two -----

  lemma {:induction false} AndSelf(x: nat)
    ensures And(x, x) == x
  {
    if x > 0 { AndSelf(x / 2); }
  }

  /** x & (x - 1) is zero exactly for powers of two. */
  lemma {:induction false} PowerTest(x: nat) returns (k: nat)
    requires x > 0
    ensures And(x, x - 1) == 0 ==> x == Pow2(k)
    ensures And(x, x - 1) != 0 ==> forall j: nat :: x != Pow2(j)
  {
    if x == 1 {
      k := 0;
    } else if x % 2 == 0 {
      k := PowerTest(x / 2);
      assert (x - 1) / 2 == x / 2 - 1;
      k := k + 1;
      if And(x, x - 1) != 0 {
        forall j: nat ensures x != Pow2(j) { if j > 0 { assert x / 2 != Pow2(j - 1); } }
      }
    } else {
      k := 0;
      AndSelf(x / 2);
      forall j: nat ensures x != Pow2(j) { }
    }
  }

  /** The alignment that is used: the least power of two from 32 and `alignment` up. */
  ghost predicate Rounded(alignment: int, a: int) {
    && a >= MIN_CHUNK_SIZE && a >= alignment
    && (exists k: nat :: a == Pow2(k))
    && (a > MIN_CHUNK_SIZE ==> a / 2 < alignment)
  }

  /** There is only one such alignment. */
  lemma RoundedOnce(alignment: int, a: int, b: int)
    requires Rounded(alignment, a) && Rounded(alignment, b)
    ensures a == b
  {
    NotBelow(alignment, a, b);
    NotBelow(alignment, b, a);
  }

  lemma NotBelow(alignment: int, a: int, b: int)
    requires Rounded(alignment, a) && Rounded(alignment, b)
    ensures a >= b
  {
    hide Pow2;
    var j: nat :| a == Pow2(j);
    var k: nat :| b == Pow2(k);
    if j < k {
      Pow2Step(k);
      if j < k - 1 { Pow2Bound(j, k - 1); }
    } else if k < j {
      Pow2Bound(k, j);
    }
  }

  lemma Pow2Double(k: nat, a: int)
    requires a == Pow2(k)
    ensures 2 * a == Pow2(k + 1)
  {
  }

  // ----- when the doubling ends -----

  /** The value of a after k rounds of the doubling loop, on size_t. */
  function Doubled(k: nat): int {
    if k == 0 then MIN_CHUNK_SIZE else 2 * Doubled(k - 1) % SIZE_RANGE
  }

  lemma AtMost63(k: nat)
    requires k <= 63
    ensures Pow2(k) <= 0x8000_0000_0000_0000
  {
    hide Pow2;
    TreeKeys.Pow2Of63();
    if k < 63 { Pow2Bound(k, 63); }
  }

  lemma {:induction false} DoubledIs(k: nat)
    ensures Doubled(k) == if k <= 58 then Pow2(k + 5) else 0
  {
    hide Pow2;
    TreeKeys.Pow2Of63();
    if k == 0 {
      Pow2Of5();
    } else {
      DoubledIs(k - 1);
      if k <= 59 { AtMost63(k + 4); }
      DoubleWraps(Doubled(k - 1));
      if k <= 58 {
        Pow2Double(k + 4, Pow2(k + 4));
        Pow2Bound(k + 4, 63);
      }
    }
  }

  lemma DoubleWraps(x: int)
    requires 0 <= x <= 0x8000_0000_0000_0000
    ensures 2 * x % SIZE_RANGE == if x < 0x8000_0000_0000_0000 then 2 * x else 0
  {
  }

  lemma Pow2Of5()
    ensures Pow2(5) == 32
  {
  }

  /** An alignment that is no power of two makes the loop end exactly when it is at most 2^63.  Above,
      the doubling wraps to zero before it gets there, and stays zero. */
  lemma DoublingEnds(alignment: int)
    requires MIN_CHUNK_SIZE <= alignment < SIZE_RANGE
    ensures (exists k: nat :: Doubled(k) >= alignment) <==> alignment <= 0x8000_0000_0000_0000
  {
    hide Pow2, Doubled;
    TreeKeys.Pow2Of63();
    DoubledIs(58);
    forall k: nat ensures Doubled(k) <= 0x8000_0000_0000_0000 {
      DoubledIs(k);
      if k <= 58 { AtMost63(k + 5); }
    }
  }

  /** Above 2^63 no alignment is a power of two, so that the loop is entered. */
  lemma DoublingEntered(alignment: int)
    requires 0x8000_0000_0000_0000 < alignment < SIZE_RANGE
    ensures And(alignment, alignment - 1) != 0
  {
    hide Pow2, And;
    var k := PowerTest(alignment);
    TreeKeys.Pow2Of63();
    if k <= 63 { AtMost63(k); } else if k > 64 { Pow2Bound(64, k); }
  }

  /** For instance an alignment of 2^63 + 1 is never reached. */
  lemma DoublingForever(k: nat)
    ensures Doubled(k) < 0x8000_0000_0000_0001
  {
    DoublingEnds(0x8000_0000_0000_0001);
  }

  method RoundAlignment(alignment: int) returns (a: int)
    requires 0 <= alignment <= 0x8000_0000_0000_0000
    ensures Rounded(alignment, a) && a <= 0x8000_0000_0000_0000
  {
    a := if alignment < MIN_CHUNK_SIZE then MIN_CHUNK_SIZE else alignment;
    ghost var k := PowerTest(a);
    assert Pow2(5) == 32;
    if And(a, a - 1) != 0 {
      var b := 32;
      k := 5;
      while b < a
        invariant b == Pow2(k) && b >= 32 && (b > 32 ==> b / 2 < a) && b <= 0x8000_0000_0000_0000
        decreases a - b
      {
        Pow2Double(k, b);
        Half63(b, k, a);
        b := 2 * b;
        k := k + 1;
      }
      a := b;
    }
  }

  /** A power of two below 2^63 doubles to at most 2^63. */
  lemma Half63(b: int, k: nat, a: int)
    requires b == Pow2(k) && b < a <= 0x8000_0000_0000_0000
    ensures 2 * b <= 0x8000_0000_0000_0000
  {
    TreeKeys.Pow2Of63();
    if k < 63 { Pow2Bound(k, 63); } else if k > 63 { Pow2Bound(63, k); }
  }

  // ----- the aligned spot -----

  function RoundUp(x: int, a: int): int
    requires a > 0
  {
    (x + a - 1) - (x + a - 1) % a
  }

  lemma RoundedUp(x: int, a: int)
    requires a > 0
    ensures x <= RoundUp(x, a) <= x + a - 1 && RoundUp(x, a) == (x + a - 1) / a * a && RoundUp(x, a) % a == 0
    ensures RoundUp(x, a) == x ==> x % a == 0
  {
    var y := x + a - 1;
    var q := y / a;
    assert y == q * a + y % a;
    DivUnique(q * a, a, q, 0);
  }

  lemma Gap16(x: int, u: int, a: int)
    requires x % 16 == 0 && u % 16 == 0 && a % 16 == 0 && x < u <= x + a - 1
    ensures x + 16 <= u <= x + a - 16
  {
  }

  /** The next aligned spot, or the one after it when the space before would be no chunk. */
  function LeadSize(x: int, a: int): int
    requires a > 0
  {
    var d := RoundUp(x, a) - x;
    if d >= MIN_CHUNK_SIZE then d else d + a
  }

  /** The space before the spot is a legal chunk, and small enough. */
  lemma LeadFits(x: int, a: int, k: nat)
    requires a == Pow2(k) && a >= 32 && x % 16 == 0 && x % a != 0
    ensures 32 <= LeadSize(x, a) <= a + 16 && LeadSize(x, a) % 16 == 0 && (x + LeadSize(x, a)) % a == 0
  {
    hide RoundUp, Pow2;
    Multiple16(a, k);
    RoundedUp(x, a);
    MultipleOf((x + a - 1) / a, a);
    Gap16(x, RoundUp(x, a), a);
    AlignedAfter(RoundUp(x, a), a);
    LeadMod(x, RoundUp(x, a), a);
  }

  lemma LeadMod(x: int, u: int, a: int)
    requires x % 16 == 0 && u % 16 == 0 && a % 16 == 0
    ensures (u - x) % 16 == 0 && (u - x + a) % 16 == 0
  {
  }

  lemma {:induction false} Multiple16(a: int, k: nat)
    requires a == Pow2(k) && a >= 16
    ensures a % 16 == 0
  {
    if k >= 4 { Pow2Mod16(k); } else { assert Pow2(3) == 8; Pow2Bound(k, 4); }
  }

  lemma MultipleOf(q: int, a: int)
    requires a % 16 == 0
    ensures (q * a) % 16 == 0
  {
    var b := a / 16;
    assert q * a == (q * b) * 16 by { assert a == b * 16; }
  }

  lemma AlignedAfter(u: int, a: int)
    requires a > 0 && u % a == 0
    ensures (u + a) % a == 0
  {
    var q := u / a;
    assert u == q * a;
    assert u + a == (q + 1) * a by { assert (q + 1) * a == q * a + a; }
    DivUnique(u + a, a, q + 1, 0);
  }

  /** How far the block moves to be aligned. */
  function Lead(mem: int, a: int): int
    requires a > 0
  {
    if mem % a == 0 then 0 else LeadSize(mem, a)
  }

  /** The block p ends up aligned and with at least nb bytes. */
  method AlignBlock(m: Heap, mem: int, a: int, nb: int, ghost k: nat) returns (mem': int)
    requires m.Inv(0, 0) && mem - 16 in m.live && a == Pow2(k) && 32 <= a && nb >= 32 && m.live[mem - 16] >= nb + a + 32
    modifies m`mem, m`smallmap, m`treemap, m`bins, m`binned, m`chunks, m`live, m`dvsize, m`dv, m`top, m`topsize
    ensures m.Inv(0, 0) && m.top != 0 && mem' % a == 0
    ensures mem' - 16 in m.live && (mem' != mem ==> mem' - 16 !in old(m.live))
        && m.live == (old(m.live) - {mem - 16})[mem' - 16 := m.live[mem' - 16]]
    ensures m.live[mem' - 16] >= nb && m.live[mem' - 16] % 16 == 0 && mem' != 0
    ensures QueuesKept(old(m.bins), m.bins, m.binned)
    ensures VictimKept(old(VictimOf(m)), m.top, VictimOf(m)) && m.top <= old(m.top)
    ensures mem' == mem + Lead(mem, a) && m.live[mem' - 16] == old(m.live)[mem - 16] - Lead(mem, a)
    ensures BodiesSame(old(m.mem), m.mem, old(m.live) - {mem - 16})
  {
    hide Tiled, Tiling.Aligned, Heads, Feet, IndexOk, TopOk, Partition, LiveOk, BodiesSame, RoundUp, Pow2, LeadSize,
        VictimKept, QueuesKept;
    ghost var live0 := m.live;
    NothingWritten(m.mem, live0 - {mem - 16});
    HeapRealloc.LegalSize(m, mem - 16);
    TopThere(m);
    VictimStays(m);
    QueuesStay(m, 0, 0);
    mem' := mem;
    assert m.live == (live0 - {mem - 16})[mem - 16 := live0[mem - 16]];
    if mem % a != 0 {
      LeadFits(mem, a, k);
      mem' := GiveLeader(m, mem, a, nb);
    }
  }

  /** Give back the space before the aligned spot, use the rest. */
  method GiveLeader(m: Heap, mem: int, a: int, nb: int) returns (mem': int)
    requires m.Inv(0, 0) && m.top != 0 && mem - 16 in m.live && a >= 32 && nb >= 32 && m.live[mem - 16] >= nb + a + 32
    requires 32 <= LeadSize(mem, a) <= a + 16 && LeadSize(mem, a) % 16 == 0
    modifies m`mem, m`smallmap, m`treemap, m`bins, m`binned, m`chunks, m`live, m`dvsize, m`dv, m`top, m`topsize
    ensures m.Inv(0, 0) && m.top != 0 && mem' == mem + LeadSize(mem, a)
    ensures mem' - 16 !in old(m.live) && mem' - 16 in m.live
        && m.live == (old(m.live) - {mem - 16})[mem' - 16 := m.live[mem' - 16]]
    ensures m.live[mem' - 16] >= nb && m.live[mem' - 16] % 16 == 0 && mem' != 0
    ensures QueuesKept(old(m.bins), m.bins, m.binned)
    ensures VictimKept(old(VictimOf(m)), m.top, VictimOf(m)) && m.top <= old(m.top)
    ensures m.live[mem' - 16] == old(m.live)[mem - 16] - LeadSize(mem, a)
    ensures BodiesSame(old(m.mem), m.mem, old(m.live) - {mem - 16})
  {
    hide Tiled, Tiling.Aligned, Heads, Feet, IndexOk, TopOk, Partition, LiveOk, BodiesSame, RoundUp, VictimKept,
        QueuesKept;
    ghost var mem0, live0 := m.mem, m.live;
    HeapRealloc.LegalSize(m, mem - 16);
    LiveChecks(m, mem - 16);
    var p := mem - 16;
    var br := RoundUp(mem, a) - 16;
    var pos := if br - p >= MIN_CHUNK_SIZE then br else br + a;
    var leadsize := pos - p;
    var newsize := ChunkSize(m.mem, p) - leadsize;
    SplitHead(m, p, leadsize, newsize);
    ghost var mem1 := m.mem;
    DisposeChunk(m, p, leadsize);
    BodiesSameTrans(mem0, mem1, m.mem, m.live);
    BodiesSameSub(mem0, m.mem, m.live, live0 - {p});
    mem' := pos + 16;
    HeapRealloc.LegalSize(m, pos);
  }

  lemma AlignedReq(bytes: int, a: int, nb: int)
    requires 0 <= bytes < MAX_REQUEST - a && 32 <= a <= 0x8000_0000_0000_0000 && nb == Request2Size(bytes)
    ensures nb >= 32 && nb % 16 == 0
    ensures var req := (nb + a + MIN_CHUNK_SIZE - 8) % SIZE_RANGE;
            req < MAX_REQUEST ==> RequestSize(req) >= nb + a + 32 && req == nb + a + 24
  {
    LeastSize(bytes, MIN_CHUNK_SIZE);
  }

  /** What memalign leaves: one new block at an address divisible by a, of nb bytes and at most
      MIN_CHUNK_SIZE more; the others keep their words. */
  ghost predicate AlignedBlockOf(live0: Sizes, live: Sizes, nb: int, a: int, mem: int) {
    && a > 0 && mem % a == 0
    && mem - 16 !in live0 && mem - 16 in live && live == live0[mem - 16 := live[mem - 16]]
    && nb <= live[mem - 16] <= nb + MIN_CHUNK_SIZE
  }

  /** The size a block of s bytes keeps: nb when the spare room is more than MIN_CHUNK_SIZE. */
  function Kept(s: int, nb: int): int { if s > nb + MIN_CHUNK_SIZE then nb else s }

  /** From v0 by an allocation of room enough to v1, of which the block of mem keeps the aligned part; the space
      before it and spare room at the end are free again. */
  ghost predicate AlignedThrough(v0: View, v1: View, v: View, a: int, nb: int, mem1: int, mem: int) {
    && a > 0 && Allocated(v0, v1, RequestSize(nb + a + 24), mem1)
    && if mem1 == 0 then mem == 0 && v == v1
       else
         && mem1 - 16 in v1.live && mem == mem1 + Lead(mem1, a)
         && v.live == v0.live[mem - 16 := Kept(v1.live[mem1 - 16] - Lead(mem1, a), nb)]
         && v.top <= v1.top && VictimKept(v1.victim, v.top, v.victim) && v.accounts == v1.accounts
         && QueueSteps(v1.bins, v.bins, v.binned, 2)
         && SameSystem(v1, v)
  }

  ghost predicate Aligns(v0: View, v: View, a: int, nb: int, mem: int) {
    exists v1: View, mem1 :: AlignedThrough(v0, v1, v, a, nb, mem1, mem)
  }

  /** Give back spare room at the end. */
  method TrimBlock(m: Heap, p: int, nb: int)
    requires m.Inv(0, 0) && m.top != 0 && p in m.live && m.live[p] >= nb >= 32 && nb % 16 == 0
    modifies m`mem, m`smallmap, m`treemap, m`bins, m`binned, m`chunks, m`live, m`dvsize, m`dv, m`top, m`topsize
    ensures m.Inv(0, 0) && m.top != 0 && p in m.live && m.live == old(m.live)[p := m.live[p]]
        && nb <= m.live[p] <= nb + MIN_CHUNK_SIZE
    ensures QueuesKept(old(m.bins), m.bins, m.binned)
    ensures VictimKept(old(VictimOf(m)), m.top, VictimOf(m)) && m.top <= old(m.top)
    ensures m.live[p] == Kept(old(m.live)[p], nb)
    ensures BodiesSame(old(m.mem), m.mem, old(m.live) - {p})
  {
    hide Tiled, Tiling.Aligned, Heads, Feet, IndexOk, TopOk, Partition, LiveOk, BodiesSame, VictimKept, QueuesKept;
    ghost var mem0, live0 := m.mem, m.live;
    NothingWritten(m.mem, live0 - {p});
    VictimStays(m);
    QueuesStay(m, 0, 0);
    LiveChecks(m, p);
    HeapRealloc.LegalSize(m, p);
    var size := ChunkSize(m.mem, p);
    if size > nb + MIN_CHUNK_SIZE {
      var remainderSize := size - nb;
      var remainder := p + nb;
      SplitTail(m, p, nb, remainderSize);
      ghost var mem1 := m.mem;
      DisposeChunk(m, remainder, remainderSize);
      BodiesSameTrans(mem0, mem1, m.mem, m.live);
      BodiesSameSub(mem0, m.mem, m.live, live0 - {p});
    }
  }

  /** When dlmemalign returns null: with the room to align it in, the request is too big or does not fit. */
  ghost predicate NoAligned(v: View, alignment: int, bytes: int) {
    if alignment <= 16 then NoRoom(v, bytes)
    else exists a :: Rounded(alignment, a) && (bytes >= MAX_REQUEST - a || NoRoom(v, Request2Size(bytes) + a + 24))
  }

  /** internal_memalign. */
  method InternalMemalign(m: Heap, alignment: int, bytes: int) returns (mem: int)
    requires m.Valid() && 0 <= alignment <= 0x8000_0000_0000_0000 && 0 <= bytes < SIZE_RANGE
    modifies m
    ensures m.Valid()
    ensures mem == 0 ==> m.live == old(m.live) && m.mem == old(m.mem) && m.chunks == old(m.chunks)
    ensures alignment > 16 ==> (mem == 0 <==> old(NoAligned(ViewOf(m), alignment, bytes)))
    ensures mem != 0 ==>
        exists a :: Rounded(alignment, a) && AlignedBlockOf(old(m.live), m.live, Request2Size(bytes), a, mem)
    ensures exists a ::
        && Rounded(alignment, a)
        && if bytes >= MAX_REQUEST - a then mem == 0 && ViewOf(m) == old(ViewOf(m))
           else Aligns(old(ViewOf(m)), ViewOf(m), a, Request2Size(bytes), mem)
    ensures mem != 0 ==> bytes < MAX_REQUEST && bytes + 8 <= Request2Size(bytes)
    ensures BodiesSame(old(m.mem), m.mem, old(m.live))
  {
    hide Heap.Inv, Heap.Uninitialised, BodiesSame, NoRoom, Aligns, AlignedBlockOf;
    var a := RoundAlignment(alignment);
    forall b | Rounded(alignment, b) ensures b == a { RoundedOnce(alignment, b, a); }
    ghost var k: nat :| a == Pow2(k);
    mem := 0;
    NothingWritten(m.mem, m.live);
    if bytes < MAX_REQUEST - a {
      LeastSize(bytes, MIN_CHUNK_SIZE);
      var nb := Request2Size(bytes);
      AlignedReq(bytes, a, nb);
      var req := (nb + a + MIN_CHUNK_SIZE - 8) % SIZE_RANGE;
      mem := AllocAligned(m, a, nb, req, k);
    }
  }

  /** malloc of req bytes, enough for an aligned block of nb wherever it lies, and that block. */
  method AllocAligned(m: Heap, a: int, nb: int, req: int, ghost k: nat) returns (mem: int)
    requires m.Valid() && a == Pow2(k) && a >= 32 && nb >= 32 && nb % 16 == 0 && req == nb + a + 24 < SIZE_RANGE
    requires req < MAX_REQUEST ==> RequestSize(req) >= nb + a + 32
    modifies m
    ensures m.Valid()
    ensures mem == 0 ==> m.live == old(m.live) && m.mem == old(m.mem) && m.chunks == old(m.chunks)
    ensures mem == 0 <==> old(NoSpace(m, req))
    ensures mem != 0 ==> AlignedBlockOf(old(m.live), m.live, nb, a, mem)
    ensures Aligns(old(ViewOf(m)), ViewOf(m), a, nb, mem)
    ensures BodiesSame(old(m.mem), m.mem, old(m.live))
  {
    hide BodiesSame, NoSpace, VictimKept, Lead, Allocated, Aligns, Heap.Inv, Heap.Uninitialised, Kept,
        AlignedBlockOf, QueuesKept, QueueSteps;
    ghost var mem0, live0, v0 := m.mem, m.live, ViewOf(m);
    var mem1 := Malloc(m, req);
    ghost var v1 := ViewOf(m);
    if mem1 != 0 {
      ghost var memA := m.mem;
      NewIsLive(m, live0, RequestSize(req), mem1 - 16);
      mem := PlaceAligned(m, mem1, a, nb, k, live0);
      BodiesSameTrans(mem0, memA, m.mem, live0);
      AlignDone(m, live0, v0, v1, a, nb, mem1, mem);
    } else {
      AlignFailed(m, v0, a, nb);
      mem := 0;
    }
  }

  /** The part of internal_memalign after malloc. */
  method PlaceAligned(m: Heap, mem1: int, a: int, nb: int, ghost k: nat, ghost live0: Sizes) returns (mem: int)
    requires m.Inv(0, 0) && mem1 - 16 in m.live && mem1 - 16 !in live0
        && m.live == live0[mem1 - 16 := m.live[mem1 - 16]]
    requires a == Pow2(k) && a >= 32 && nb >= 32 && nb % 16 == 0 && m.live[mem1 - 16] >= nb + a + 32
    modifies m`mem, m`smallmap, m`treemap, m`bins, m`binned, m`chunks, m`live, m`dvsize, m`dv, m`top, m`topsize
    ensures m.Inv(0, 0) && m.top != 0 && AlignedBlockOf(live0, m.live, nb, a, mem) && mem != 0
    ensures QueueSteps(old(m.bins), m.bins, m.binned, 2)
    ensures VictimKept(old(VictimOf(m)), m.top, VictimOf(m)) && m.top <= old(m.top)
    ensures mem == mem1 + Lead(mem1, a) && m.live[mem - 16] == Kept(old(m.live)[mem1 - 16] - Lead(mem1, a), nb)
    ensures BodiesSame(old(m.mem), m.mem, live0)
  {
    hide Tiled, Tiling.Aligned, Heads, Feet, IndexOk, TopOk, Partition, LiveOk, BodiesSame, InuseChunk, VictimKept,
        Lead, QueuesKept, QueueSteps;
    ghost var memA, liveA, vA, bA := m.mem, m.live, VictimOf(m), m.bins;
    VictimStays(m);
    mem := AlignBlock(m, mem1, a, nb, k);
    ghost var memB, liveB, topB, vB, bB, fB := m.mem, m.live, m.top, VictimOf(m), m.bins, m.binned;
    OneStep(bA, bB, fB);
    TrimBlock(m, mem - 16, nb);
    KeptOn(m, vA, topB, vB);
    StepMore(bA, bB, fB, m.bins, m.binned, 1);
    LiveChecks(m, mem - 16);
    assert InuseChunk(m.mem, mem - 16, m.leastAddr);  // check_inuse_chunk
    assert ChunkSize(m.mem, mem - 16) >= nb && mem % a == 0;
    MemalignLive(live0, liveA, liveB, m.live, mem1 - 16, mem - 16, nb, a);
    NothingWritten(memA, live0);
    MemalignBodies(memA, memA, memB, m.mem, live0, liveA, liveB, mem1 - 16, mem - 16);
  }

  lemma AlignDone(m: Heap, live0: Sizes, v0: View, v1: View, a: int, nb: int, mem1: int, mem: int)
    requires a > 0 && mem1 != 0 && Allocated(v0, v1, RequestSize(nb + a + 24), mem1) && v0.live == live0
    requires mem1 - 16 in v1.live && mem == mem1 + Lead(mem1, a) && AlignedBlockOf(live0, m.live, nb, a, mem)
        && m.live[mem - 16] == Kept(v1.live[mem1 - 16] - Lead(mem1, a), nb)
    requires m.top <= v1.top && VictimKept(v1.victim, m.top, VictimOf(m)) && AccountsOf(m) == v1.accounts
        && QueueSteps(v1.bins, m.bins, m.binned, 2)
    requires SameSystem(v1, ViewOf(m))
    ensures Aligns(v0, ViewOf(m), a, nb, mem)
  {
    hide QueueSteps;
    assert AlignedThrough(v0, v1, ViewOf(m), a, nb, mem1, mem);
  }

  lemma AlignFailed(m: Heap, v0: View, a: int, nb: int)
    requires a > 0 && Allocated(v0, ViewOf(m), RequestSize(nb + a + 24), 0)
    ensures Aligns(v0, ViewOf(m), a, nb, 0)
  {
    assert AlignedThrough(v0, ViewOf(m), ViewOf(m), a, nb, 0, 0);
  }

  lemma NewIsLive(m: Heap, live0: Sizes, nb: int, p: int)
    requires m.Valid() && NewBlock(live0, m.live, nb, p)
    ensures m.top != 0 && m.Inv(0, 0) && p in m.live && p !in live0 && m.live == live0[p := m.live[p]]
        && nb <= m.live[p]
  {
  }

  lemma MemalignLive(live0: Sizes, liveA: Sizes, liveB: Sizes, live: Sizes, p1: int, p: int, nb: int, a: int)
    requires p1 !in live0 && p1 in liveA && liveA == live0[p1 := liveA[p1]] && a > 0 && (p + 16) % a == 0
    requires p in live && (p != p1 ==> p !in liveA) && nb <= live[p] <= nb + MIN_CHUNK_SIZE
    requires p in liveB && liveB == (liveA - {p1})[p := liveB[p]] && live == liveB[p := live[p]]
    ensures AlignedBlockOf(live0, live, nb, a, p + 16)
  {
    assert liveA - {p1} == live0;
  }

  lemma MemalignBodies(mem0: Mem, memA: Mem, memB: Mem, memC: Mem, live0: Sizes, liveA: Sizes, liveB: Sizes, p1: int,
      p: int)
    requires p1 !in live0 && p1 in liveA && liveA == live0[p1 := liveA[p1]] && (p != p1 ==> p !in liveA)
    requires BodiesSame(mem0, memA, live0) && BodiesSame(memA, memB, liveA - {p1})
    requires BodiesSame(memB, memC, liveB - {p}) && p in liveB && liveB == (liveA - {p1})[p := liveB[p]]
    ensures BodiesSame(mem0, memC, live0)
  {
    hide BodiesSame;
    assert liveA - {p1} == live0;
    BodiesSameSub(memB, memC, liveB - {p}, live0);
    BodiesSameTrans(mem0, memA, memB, live0);
    BodiesSameTrans(mem0, memB, memC, live0);
  }

  /** dlmemalign: every block is aligned to 16, so smaller alignments are plain malloc. */
  method Memalign(m: Heap, alignment: int, bytes: int) returns (mem: int)
    requires m.Valid() && 0 <= alignment <= 0x8000_0000_0000_0000 && 0 <= bytes < SIZE_RANGE
    modifies m
    ensures m.Valid()
    ensures mem == 0 ==> m.live == old(m.live) && m.mem == old(m.mem) && m.chunks == old(m.chunks)
    ensures mem == 0 <==> old(NoAligned(ViewOf(m), alignment, bytes))
    ensures mem != 0 ==>
        exists a :: a >= alignment && (exists k: nat :: a == Pow2(k))
                    && AlignedBlockOf(old(m.live), m.live, Request2Size(bytes), a, mem)
    ensures mem != 0 ==> bytes < MAX_REQUEST
    ensures alignment <= 16 ==> Allocated(old(ViewOf(m)), ViewOf(m), RequestSize(bytes), mem)
    ensures alignment > 16 ==> exists a ::
        && Rounded(alignment, a)
        && if bytes >= MAX_REQUEST - a then mem == 0 && ViewOf(m) == old(ViewOf(m))
           else Aligns(old(ViewOf(m)), ViewOf(m), a, Request2Size(bytes), mem)
    ensures BodiesSame(old(m.mem), m.mem, old(m.live))
  {
    hide Tiled, Tiling.Aligned, Heads, Feet, IndexOk, TopOk, Partition, LiveOk, BodiesSame, Exhausted, ServedFrom,
        NoRoom, BrkOk, Allocated, Aligns;
    if alignment <= 16 {
      ghost var live0 := m.live;
      mem := Malloc(m, bytes);
      if mem != 0 {
        NewIsLive(m, live0, RequestSize(bytes), mem - 16);
        HeapRealloc.LegalSize(m, mem - 16);
        assert Pow2(4) == 16;
        assert AlignedBlockOf(live0, m.live, Request2Size(bytes), 16, mem);
      }
    } else {
      mem := InternalMemalign(m, alignment, bytes);
    }
  }
}
