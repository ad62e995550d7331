/** Memory from and to the system: sbrk, init_top, init_bins, sys_alloc and sys_trim
    (src/mm/heap.c:62-85, src/mm/malloc.c:3901-3925, 4045-4247, 4303-4366). */
module HeapSys {
  import opened Bits
  import opened BinIndex
  import opened Memory
  import opened Tiling
  import opened Macros
  import opened Index
  import opened HeapLemmas
  import opened HeapTags
  import opened HeapState
  import opened HeapSteps
  import opened HeapMoves
  import opened HeapChunks
  import opened HeapChecks
  import Tries

  const MAX_SIZE_T := SIZE_RANGE - 1
  const HALF_MAX_SIZE_T := MAX_SIZE_T / 2
  const CMFAIL := MAX_SIZE_T
  const SYS_ALLOC_PADDING := TOP_FOOT + 16
  const MAX_REQUEST := SIZE_RANGE - 128

  /** granularity_align, the granularity being one page: round up and wrap. */
  function GranularityAlign(s: int): int {
    var t := (s + PAGE - 1) % SIZE_RANGE;
    t - t % PAGE
  }

  lemma AlignUp(s: int)
    requires 0 <= s < SIZE_RANGE
    ensures s + PAGE - 1 < SIZE_RANGE ==> s <= GranularityAlign(s) < s + PAGE && GranularityAlign(s) < SIZE_RANGE
    ensures s + PAGE - 1 >= SIZE_RANGE ==> GranularityAlign(s) == 0
    ensures GranularityAlign(s) % PAGE == 0
  {
  }

  lemma AlignUpMono(s: int, t: int)
    requires 0 <= s <= t && t + PAGE - 1 < SIZE_RANGE
    ensures GranularityAlign(s) <= GranularityAlign(t)
  {
  }

  /** granularity_align gives the least multiple of the page size that is no less than s. */
  lemma LeastPages(s: int, k: int)
    requires 0 <= s && s + PAGE - 1 < SIZE_RANGE
    ensures GranularityAlign(s) >= s && GranularityAlign(s) % PAGE == 0
    ensures k % PAGE == 0 && k >= s ==> GranularityAlign(s) <= k
  {
    AlignUp(s);
  }

  // ----- what is asked of the system -----

  /** What sys_alloc decides by; brk is where sbrk's break is or will be first. */
  datatype System = System(topsize: int, noncontiguous: bool, footprint: int, limit: int, brk: int, maxBrk: int)

  function SystemOf(m: Heap): System
    reads m
  {
    System(m.topsize, m.noncontiguous, m.footprint, m.footprintLimit, BrkOf(m.curBrk, m.endSymbol), m.maxBrk)
  }

  /** The padded request does not fit size_t, or it would exceed the footprint limit. */
  predicate Oversized(s: System, nb: int) {
    || nb + SYS_ALLOC_PADDING + PAGE - 1 >= SIZE_RANGE
    || (s.limit != 0 && s.footprint + GranularityAlign(nb + SYS_ALLOC_PADDING) > s.limit)
  }

  /** How far the break is moved: by the pages top lacks, or by pages for all of the request once
      contiguous extension has failed. */
  function Increment(s: System, nb: int): int {
    GranularityAlign(nb + SYS_ALLOC_PADDING - if s.noncontiguous then 0 else s.topsize)
  }

  /** When sys_alloc gives up. */
  predicate Denied(s: System, nb: int) { Oversized(s, nb) || s.brk + Increment(s, nb) >= s.maxBrk }

  /** The padded request does not fit size_t exactly when the wrapped sum is no larger than nb. */
  lemma PaddingWraps(nb: int)
    requires 0 <= nb < SIZE_RANGE
    ensures var asize := GranularityAlign((nb + SYS_ALLOC_PADDING) % SIZE_RANGE);
            && (asize <= nb <==> nb + SYS_ALLOC_PADDING + PAGE - 1 >= SIZE_RANGE)
            && (asize > nb ==> nb + SYS_ALLOC_PADDING <= asize < SIZE_RANGE && asize % PAGE == 0)
  {
    var t := (nb + SYS_ALLOC_PADDING) % SIZE_RANGE;
    AlignUp(t);
    if nb + SYS_ALLOC_PADDING >= SIZE_RANGE { assert t == nb + SYS_ALLOC_PADDING - SIZE_RANGE; }
  }

  /** The break as the first call finds it: the end of the kernel image, rounded up to a page. */
  function FirstBrk(endSymbol: int): int {
    if endSymbol % PAGE == 0 then endSymbol else endSymbol - endSymbol % PAGE + PAGE
  }

  function BrkOf(curBrk: int, endSymbol: int): int {
    if curBrk == 0 then FirstBrk(endSymbol) else curBrk
  }

  /** sbrk: the old break, or -1 and no change when the new one would reach MAX_BRK. */
  method Sbrk(m: Heap, increment: int) returns (r: int)
    requires 0 <= m.curBrk < SIZE_RANGE && 0 <= m.endSymbol < SIZE_RANGE - PAGE
    modifies m`curBrk
    ensures var b, b' := BrkOf(old(m.curBrk), m.endSymbol),
        (BrkOf(old(m.curBrk), m.endSymbol) + increment) % SIZE_RANGE;
            if b' >= m.maxBrk then r == CMFAIL && m.curBrk == b else r == b && m.curBrk == b'
  {
    if m.curBrk == 0 {
      m.curBrk := m.endSymbol;
      if m.curBrk % PAGE != 0 {
        m.curBrk := m.curBrk - m.curBrk % PAGE;
        m.curBrk := m.curBrk + PAGE;
      }
    }
    var oldBrk := m.curBrk;
    m.curBrk := (m.curBrk + increment) % SIZE_RANGE;
    if m.curBrk >= m.maxBrk {
      m.curBrk := oldBrk;
      return CMFAIL;
    }
    return oldBrk;
  }

  function AlignOffset(a: int): int { if a % 16 == 0 then 0 else 16 - a % 16 }

  lemma OffsetIsZero(p: int)
    requires p % 16 == 0
    ensures AlignOffset(p + 16) == 0
  {
    DivUnique(p + 16, 16, p / 16 + 1, 0);
  }

  /** init_top: top starts at the first aligned address from p on. */
  method InitTop(m: Heap, p: int, psize: int)
    modifies m`mem, m`top, m`topsize, m`trimCheck
    ensures m.top == p + AlignOffset(p + 16) && m.topsize == psize - AlignOffset(p + 16)
        && m.trimCheck == m.trimThreshold
    ensures m.mem == old(m.mem)[m.top + HEAD := m.topsize + PINUSE_BIT][p + psize + HEAD := TOP_FOOT]
  {
    var offset := AlignOffset(p + 16);
    var q := p + offset;
    var qsize := psize - offset;
    m.top := q;
    m.topsize := qsize;
    m.mem := m.mem[q + HEAD := qsize + PINUSE_BIT];
    m.mem := m.mem[q + qsize + HEAD := TOP_FOOT];
    m.trimCheck := m.trimThreshold;
  }

  /** Moving the end of top leaves every chunk and every payload alone. */
  lemma TopResized(mem: Mem, mem': Mem, c: Chunks, base: int, top: int, topsize: int, topsize': int, end: int,
      end': int,
                   smallmap: nat, treemap: nat, bins: Bins, f: Sizes, dv: int, dvsize: int, live: Sizes)
    requires Tags(mem, c, base, top, 0) && TopOk(mem, top, topsize, end) && end < SIZE_RANGE
    requires IndexOk(mem, smallmap, treemap, bins, f) && Partition(c, f, dv, dvsize, 0, 0) && LiveOk(c, live, 0)
    requires topsize' > 0 && topsize' % 16 == 0 && top + topsize' + TOP_FOOT == end'
    requires mem' == mem[top + HEAD := topsize' + PINUSE_BIT][top + topsize' + HEAD := TOP_FOOT]
    ensures Tags(mem', c, base, top, 0) && TopOk(mem', top, topsize', end')
    ensures IndexOk(mem', smallmap, treemap, bins, f) && BodiesSame(mem, mem', live)
  {
    hide Tiled, Tiling.Aligned, IndexOk, Partition, LiveOk, BodiesSame;
    NoZero(c, base, top);
    GiveTopFoot(c, base, top);
    TopNotIn(c, base, top);
    BeyondTop(c, base, top, top + topsize');
    ResizedWords(mem, top, topsize');
    ResizedTags(mem, mem', c, base, top, topsize');
    StepParts(mem, mem', c, c, base, top, 0, 0, 0, 0, top, top + topsize', 0, top + HEAD, smallmap, treemap, bins, f,
        dv, dvsize, live);
  }

  lemma ResizedWords(mem: Mem, top: int, s: int)
    requires s > 0
    ensures var mem' := mem[top + HEAD := s + PINUSE_BIT][top + s + HEAD := TOP_FOOT];
            OnlyWords(mem, mem', top + HEAD, top + s + HEAD, top + HEAD, top + HEAD)
            && Rd(mem', top + HEAD) == s + 1 && Rd(mem', top + s + HEAD) == TOP_FOOT
  {
  }

  lemma BeyondTop(c: Chunks, base: int, top: int, a: int)
    requires Tiled(c, base, top) && a >= top
    ensures a !in c
  {
    if a in c { ChunkAt(c, base, top, a); }
  }

  lemma ResizedTags(mem: Mem, mem': Mem, c: Chunks, base: int, top: int, s: int)
    requires Tiled(c, base, top) && Heads(mem, c, 0) && Feet(mem, c) && 0 !in c && top !in c && top + s !in c && s > 0
    requires forall a :: a in c ==> a + c[a].size != top + HEAD
    requires OnlyWords(mem, mem', top + HEAD, top + s + HEAD, top + HEAD, top + HEAD)
    ensures Heads(mem', c, 0) && Feet(mem', c) && TagWrites(mem, mem', c, top, top, top + s, top + HEAD)
        && FreeSame(c, c, 0, 0)
  {
    hide Tiled;
    TagsAfter(mem, mem', c, c, base, top, 0, 0, top, top + s, top + HEAD);
  }

  // ----- sys_alloc -----

  /** sbrk granted exactly `amount` bytes, right behind the old break, unless that would reach MAX_BRK. */
  ghost predicate Granted(curBrk0: int, curBrk: int, endSymbol: int, maxBrk: int, tbase: int, tsize: int, amount: int) {
    var b := BrkOf(curBrk0, endSymbol);
    if b + amount >= maxBrk then tbase == CMFAIL && (curBrk == curBrk0 || curBrk == b)
    else tbase == b && tsize == amount && curBrk == b + amount
  }

  lemma BrkFacts(curBrk: int, endSymbol: int, maxBrk: int)
    requires BrkOk(curBrk, endSymbol, maxBrk)
    ensures var b := BrkOf(curBrk, endSymbol); HEAP_FLOOR < b < maxBrk && b % PAGE == 0 && b >= endSymbol
  {
  }

  /** Sums of a break and an increment below HALF_MAX_SIZE_T do not wrap. */
  lemma NoWrap(b: int, inc: int)
    requires 0 <= b < SIZE_RANGE / 2 && 0 <= inc < SIZE_RANGE / 2
    ensures (b + inc) % SIZE_RANGE == b + inc
  {
  }

  lemma NoWrapPadding(n: int)
    requires 0 <= n && n + SYS_ALLOC_PADDING < SIZE_RANGE
    ensures (n + SYS_ALLOC_PADDING) % SIZE_RANGE == n + SYS_ALLOC_PADDING
  {
  }

  /** First time through: ask for asize bytes from where the break is.  br is what sbrk returned. */
  method CallFirst(m: Heap, nb: int, asize: int) returns (br: int, tbase: int, tsize: int)
    requires BrkOk(m.curBrk, m.endSymbol, m.maxBrk) && 0 <= nb < asize < SIZE_RANGE
    requires nb + SYS_ALLOC_PADDING <= asize && asize % PAGE == 0
    requires m.footprint >= 0 && (m.footprintLimit == 0 || m.footprint + asize <= m.footprintLimit < SIZE_RANGE)
    modifies m`curBrk
    ensures Granted(old(m.curBrk), m.curBrk, m.endSymbol, m.maxBrk, tbase, tsize, asize)
    ensures tbase == CMFAIL <==> br == CMFAIL
  {
    BrkFacts(m.curBrk, m.endSymbol, m.maxBrk);
    br, tbase, tsize := CMFAIL, CMFAIL, 0;
    var ssize := asize;
    var base := Sbrk(m, 0);
    if base != CMFAIL {
      assert base % PAGE == 0;  // so ssize needs no adjustment
      var fp := (m.footprint + ssize) % SIZE_RANGE;
      if ssize > nb && ssize < HALF_MAX_SIZE_T
          && (m.footprintLimit == 0 || (fp > m.footprint && fp <= m.footprintLimit)) {
        NoWrap(base, ssize);
        br := Sbrk(m, ssize);
        if br == base {
          tbase := base;
          tsize := ssize;
        }
      }
    }
  }

  /** Afterwards: ask for what top lacks. */
  method CallAgain(m: Heap, nb: int) returns (br: int, tbase: int, tsize: int)
    requires BrkOk(m.curBrk, m.endSymbol, m.maxBrk) && 0 <= m.topsize <= nb
        && nb + SYS_ALLOC_PADDING + PAGE <= SIZE_RANGE
    requires m.curBrk == m.segBase + m.segSize && m.curBrk != 0
    modifies m`curBrk
    ensures Granted(old(m.curBrk), m.curBrk, m.endSymbol, m.maxBrk, tbase, tsize,
        GranularityAlign(nb - m.topsize + SYS_ALLOC_PADDING))
    ensures tbase == CMFAIL <==> br == CMFAIL
  {
    br, tbase, tsize := CMFAIL, CMFAIL, 0;
    PaddingWraps(nb - m.topsize);
    NoWrapPadding(nb - m.topsize);
    var ssize := GranularityAlign((nb - m.topsize + SYS_ALLOC_PADDING) % SIZE_RANGE);
    if ssize < HALF_MAX_SIZE_T {
      NoWrap(m.curBrk, ssize);
      br := Sbrk(m, ssize);
      if br == m.segBase + m.segSize {
        tbase := br;
        tsize := ssize;
      }
    }
  }

  /** What the ways to call sbrk start from: asize is the padded request in pages, and within the limit. */
  ghost predicate Asking(m: Heap, nb: int, asize: int)
    reads m
  {
    && BrkOk(m.curBrk, m.endSymbol, m.maxBrk) && 0 <= m.topsize <= nb < asize < SIZE_RANGE
    && nb + SYS_ALLOC_PADDING + PAGE - 1 < SIZE_RANGE && asize == GranularityAlign(nb + SYS_ALLOC_PADDING)
    && (m.top == 0 ==> m.topsize == 0)
    && (m.top != 0 ==> m.curBrk == m.segBase + m.segSize && m.curBrk != 0)
    && m.footprint >= 0 && (m.footprintLimit == 0 || m.footprint + asize <= m.footprintLimit < SIZE_RANGE)
  }

  /** The first, contiguous way: taken unless it has failed before, and then it is never tried again.
      The branch that copes with a break moved by someone else is never taken. */
  method CallContiguous(m: Heap, nb: int, asize: int) returns (tbase: int, tsize: int)
    requires Asking(m, nb, asize)
    modifies m`curBrk, m`noncontiguous
    ensures old(m.noncontiguous) ==> tbase == CMFAIL && m.curBrk == old(m.curBrk)
    ensures !old(m.noncontiguous) ==>
        Granted(old(m.curBrk), m.curBrk, m.endSymbol, m.maxBrk, tbase, tsize, old(Increment(SystemOf(m), nb)))
    ensures m.noncontiguous == (tbase == CMFAIL)
  {
    hide BrkOk, GranularityAlign;
    tbase, tsize := CMFAIL, 0;
    BrkFacts(m.curBrk, m.endSymbol, m.maxBrk);
    LeastPages(nb + SYS_ALLOC_PADDING, 0);
    if !m.noncontiguous {
      var br;
      if m.top == 0 {
        br, tbase, tsize := CallFirst(m, nb, asize);
      } else {
        AsizeFits(nb, asize);
        br, tbase, tsize := CallAgain(m, nb);
      }
      if tbase == CMFAIL {
        if br != CMFAIL {
          assert false;  // a partial success: someone else moved the break
        }
        m.noncontiguous := true;
      }
    }
  }

  lemma AsizeFits(nb: int, asize: int)
    requires 0 <= nb && nb + SYS_ALLOC_PADDING <= asize < SIZE_RANGE && asize % PAGE == 0
    ensures nb + SYS_ALLOC_PADDING + PAGE <= SIZE_RANGE
  {
  }

  /** The last way: a request that need not extend the segment, though with sbrk used by no one
      else it does. */
  method CallNoncontiguous(m: Heap, nb: int, asize: int) returns (tbase: int, tsize: int)
    requires BrkOk(m.curBrk, m.endSymbol, m.maxBrk) && 0 <= nb < asize < SIZE_RANGE
    requires nb + SYS_ALLOC_PADDING <= asize && asize % PAGE == 0
    modifies m`curBrk
    ensures Granted(old(m.curBrk), m.curBrk, m.endSymbol, m.maxBrk, tbase, tsize, asize)
  {
    BrkFacts(m.curBrk, m.endSymbol, m.maxBrk);
    tbase, tsize := CMFAIL, 0;
    if asize < HALF_MAX_SIZE_T {
      NoWrap(BrkOf(m.curBrk, m.endSymbol), asize);
      var br := Sbrk(m, asize);
      var end := Sbrk(m, 0);
      if br != CMFAIL && end != CMFAIL && br < end {
        var ssize := end - br;
        if ssize > nb + TOP_FOOT {
          tbase := br;
          tsize := ssize;
        }
      }
    }
  }

  /** init_bins: every small bin starts out linked to itself. */
  method InitBins(m: Heap)
    modifies m`mem
    ensures forall w {:trigger Rd(m.mem, w)} :: w >= TREEBINS ==> Rd(m.mem, w) == Rd(old(m.mem), w)
    ensures forall i :: 0 <= i < NSMALLBINS ==>
        Rd(m.mem, SmallBinAt(i) + FD) == SmallBinAt(i) && Rd(m.mem, SmallBinAt(i) + BK) == SmallBinAt(i)
  {
    ghost var mem0 := m.mem;
    for i := 0 to NSMALLBINS
      invariant forall w {:trigger Rd(m.mem, w)} :: w >= TREEBINS ==> Rd(m.mem, w) == Rd(mem0, w)
      invariant forall j :: 0 <= j < i ==>
          Rd(m.mem, SmallBinAt(j) + FD) == SmallBinAt(j) && Rd(m.mem, SmallBinAt(j) + BK) == SmallBinAt(j)
    {
      var bin := SmallBinAt(i);
      ghost var mem1 := m.mem;
      m.mem := m.mem[bin + FD := bin];
      m.mem := m.mem[bin + BK := bin];
      forall w {:trigger Rd(m.mem, w)} | w >= TREEBINS ensures Rd(m.mem, w) == Rd(mem0, w) {
        assert Rd(mem1, w) == Rd(mem0, w);
      }
      forall j | 0 <= j < i ensures Rd(m.mem, SmallBinAt(j) + FD) == SmallBinAt(j)
          && Rd(m.mem, SmallBinAt(j) + BK) == SmallBinAt(j) {
        assert Rd(mem1, SmallBinAt(j) + FD) == SmallBinAt(j) && SmallBinAt(j) + 16 <= bin;
      }
    }
  }

  function NoBins(): Bins { Bins(seq(NSMALLBINS, i => []), seq(NTREEBINS, i => Tries.Nil)) }

  lemma EmptyIndex(mem: Mem)
    requires forall i :: 0 <= i < NTREEBINS ==> Rd(mem, TreeBinAt(i)) == 0
    ensures IndexOk(mem, 0, 0, NoBins(), map[])
  {
    var b := NoBins();
    forall i | 0 <= i < NSMALLBINS ensures SmallAt(mem, 0, b.small, map[], i) { BitOfZero(i); }
    forall i | 0 <= i < NTREEBINS ensures TreeAt(mem, 0, b.trees, map[], i) {
      BitOfZero(i);
      NilTree(i, map[]);
    }
  }

  /** A heap of nothing but top. */
  lemma EmptyHeap(mem: Mem, base: int)
    requires base > 0
    ensures Tiled(map[], base, base) && Tiling.Aligned(map[]) && Heads(mem, map[], 0) && Feet(mem, map[])
    ensures Partition(map[], map[], 0, 0, 0, 0) && LiveOk(map[], map[], 0)
  {
  }

  lemma NoRoots(mem0: Mem, mem1: Mem, mem2: Mem, u: int, v: int)
    requires forall i :: 0 <= i < NTREEBINS ==> Rd(mem0, TreeBinAt(i)) == 0
    requires forall w {:trigger Rd(mem1, w)} :: w >= TREEBINS ==> Rd(mem1, w) == Rd(mem0, w)
    requires OnlyWords(mem1, mem2, u, v, u, v)
    requires u >= HEAP_FLOOR && v >= HEAP_FLOOR
    ensures forall i :: 0 <= i < NTREEBINS ==> Rd(mem2, TreeBinAt(i)) == 0
  {
    forall i | 0 <= i < NTREEBINS ensures Rd(mem2, TreeBinAt(i)) == 0 {
      assert Rd(mem0, TreeBinAt(i)) == 0 && Rd(mem1, TreeBinAt(i)) == Rd(mem0, TreeBinAt(i));
    }
  }

  /** if (least_addr == 0 || tbase < least_addr) least_addr = tbase. */
  function Lowest(least: int, tbase: int): int { if least == 0 || tbase < least then tbase else least }

  /** The accounts after the system granted tsize bytes: the largest footprint so far is remembered, and trimming
      waits for the threshold again. */
  function Grown(a: Accounts, tsize: int, threshold: int): Accounts {
    var fp := a.footprint + tsize;
    Accounts(a.segSize + tsize, fp, if fp > a.maxFootprint then fp else a.maxFootprint, threshold)
  }

  /** m->footprint += tsize, and the largest footprint so far. */
  method Account(m: Heap, tsize: int)
    modifies m`footprint, m`maxFootprint
    ensures m.footprint == old(m.footprint) + tsize
    ensures m.maxFootprint == if m.footprint > old(m.maxFootprint) then m.footprint else old(m.maxFootprint)
  {
    m.footprint := m.footprint + tsize;
    if m.footprint > m.maxFootprint { m.maxFootprint := m.footprint; }
  }

  lemma SegFrom(m: Heap)
    requires BrkOk(0, m.endSymbol, m.maxBrk) && m.endSymbol <= m.segBase && m.segBase % PAGE == 0
        && m.segSize % PAGE == 0 && m.segSize > 0
    requires m.segBase + m.segSize < m.maxBrk && m.leastAddr == m.segBase && m.footprint == m.segSize <= m.maxFootprint
    ensures m.SegOk()
  {
  }

  /** First-time initialization: the space sbrk granted becomes the segment, all of it top. */
  method FirstSegment(m: Heap, tbase: int, tsize: int)
    requires m.top == 0 && m.Uninitialised() && BrkOk(0, m.endSymbol, m.maxBrk)
    requires m.endSymbol <= tbase && tbase % PAGE == 0 && tsize % PAGE == 0 && tsize > 0 && tbase + tsize < m.maxBrk
        && m.curBrk == tbase + tsize
    modifies m`mem, m`top, m`topsize, m`trimCheck, m`releaseChecks, m`leastAddr, m`segBase, m`segSize, m`footprint,
        m`maxFootprint
    ensures m.Inv(0, 0) && m.segBase == tbase && m.segSize == tsize && m.top == tbase && m.topsize == tsize - TOP_FOOT
    ensures AccountsOf(m) == Grown(old(AccountsOf(m)), tsize, m.trimThreshold)
  {
    hide Tiled, Tiling.Aligned, Heads, Feet, IndexOk, Partition, LiveOk, TopOk, BrkOk, Heap.SegOk, NoBins, Rd,
        TreeBinAt;
    Account(m, tsize);
    m.leastAddr := Lowest(m.leastAddr, tbase);
    m.segBase := tbase;
    m.segSize := tsize;
    m.releaseChecks := MAX_SIZE_T;
    BaseAbove(m, tbase);
    FirstTop(m, tbase, tsize);
    EmptyHeap(m.mem, tbase);
    SegFrom(m);
  }

  lemma BaseAbove(m: Heap, tbase: int)
    requires BrkOk(0, m.endSymbol, m.maxBrk) && m.endSymbol <= tbase
    ensures tbase > HEAP_FLOOR > 0
  {
  }

  lemma TopFrom(mem: Mem, base: int, size: int)
    requires base % 16 == 0 && size % 16 == 0 && size > TOP_FOOT
    ensures TopOk(mem[base + HEAD := size - TOP_FOOT + PINUSE_BIT][base + (size - TOP_FOOT) + HEAD := TOP_FOOT],
        base, size - TOP_FOOT, base + size)
  {
  }

  /** init_bins and init_top. */
  method FirstTop(m: Heap, tbase: int, tsize: int)
    requires tbase % PAGE == 0 && tsize % PAGE == 0 && tsize > 0 && tbase > HEAP_FLOOR
    requires forall i :: 0 <= i < NTREEBINS ==> Rd(m.mem, TreeBinAt(i)) == 0
    modifies m`mem, m`top, m`topsize, m`trimCheck
    ensures IndexOk(m.mem, 0, 0, NoBins(), map[]) && m.top == tbase && m.topsize == tsize - TOP_FOOT
    ensures m.trimCheck == m.trimThreshold
    ensures TopOk(m.mem, m.top, m.topsize, tbase + tsize)
  {
    hide IndexOk, TopOk;
    ghost var mem0 := m.mem;
    PageSum(tsize, tbase);
    InitBins(m);
    ghost var mem1 := m.mem;
    TopFrom(mem1, tbase, tsize);
    OffsetIsZero(tbase);
    InitTop(m, tbase, tsize - TOP_FOOT);
    NoRoots(mem0, mem1, m.mem, tbase + HEAD, tbase + (tsize - TOP_FOOT) + HEAD);
    EmptyIndex(m.mem);
  }

  /** append: the segment and top grow by what sbrk granted right behind them. */
  method Append(m: Heap, tsize: int)
    requires m.top != 0 && m.Core(0, 0) && tsize % PAGE == 0 && tsize > 0 && m.segBase + m.segSize + tsize < m.maxBrk
        && m.curBrk == m.segBase + m.segSize + tsize
    modifies m`mem, m`top, m`topsize, m`trimCheck, m`segSize, m`footprint, m`maxFootprint
    ensures m.Inv(0, 0) && m.segSize == old(m.segSize) + tsize && m.top == old(m.top)
        && m.topsize == old(m.topsize) + tsize
    ensures AccountsOf(m) == Grown(old(AccountsOf(m)), tsize, m.trimThreshold)
    ensures BodiesSame(old(m.mem), m.mem, m.live)
  {
    hide Tiled, Tiling.Aligned, Heads, Feet, IndexOk, Partition, LiveOk, BodiesSame, TopOk, Rd;
    ghost var mem0, end := m.mem, m.segBase + m.segSize;
    TopBelowEnd(m.mem, m.top, m.topsize, end);
    Account(m, tsize);
    Resized(m.segSize, m.topsize, tsize);
    TopResized(mem0,
        mem0[m.top + HEAD := m.topsize + tsize + PINUSE_BIT][m.top + (m.topsize + tsize) + HEAD := TOP_FOOT],
        m.chunks, m.segBase, m.top, m.topsize, m.topsize + tsize, end, end + tsize,
               m.smallmap, m.treemap, m.bins, m.binned, m.dv, m.dvsize, m.live);
    m.segSize := m.segSize + tsize;
    OffsetIsZero(m.top);
    InitTop(m, m.top, m.topsize + tsize);
  }

  /** The part of sys_alloc after sbrk granted space: it becomes the segment or is appended to it.
      The branches for a disjoint or a preceding segment, which call add_segment and prepend_alloc,
      are never taken. */
  method AddSpace(m: Heap, tbase: int, tsize: int)
    requires m.top == 0 ==>
        m.Uninitialised() && BrkOk(0, m.endSymbol, m.maxBrk) && m.endSymbol <= tbase && tbase % PAGE == 0
    requires m.top != 0 ==> m.Core(0, 0) && tbase == m.segBase + m.segSize
    requires tsize % PAGE == 0 && tsize > 0 && m.curBrk == tbase + tsize < m.maxBrk
    modifies m`mem, m`top, m`topsize, m`trimCheck, m`releaseChecks, m`leastAddr, m`segBase, m`segSize, m`footprint,
        m`maxFootprint
    ensures m.Inv(0, 0) && m.top != 0
    ensures m.topsize == old(m.topsize) + tsize - (if old(m.top) == 0 then TOP_FOOT else 0)
    ensures old(m.top) != 0 ==> m.segBase == old(m.segBase)
    ensures m.top == if old(m.top) == 0 then tbase else old(m.top)
    ensures AccountsOf(m) == Grown(old(AccountsOf(m)), tsize, m.trimThreshold)
    ensures BodiesSame(old(m.mem), m.mem, m.live)
  {
    if m.top != 0 { TopInSegment(m.mem, m.chunks, m.segBase, m.top, m.topsize, m.segBase + m.segSize); }
    if m.top == 0 {
      FirstSegment(m, tbase, tsize);
      assert m.live == map[];
    } else if tbase == m.segBase + m.segSize && m.segBase <= m.top < m.segBase + m.segSize {
      Append(m, tsize);
    } else {
      assert false;
    }
  }

  lemma TopInSegment(mem: Mem, c: Chunks, base: int, top: int, topsize: int, end: int)
    requires Tiled(c, base, top) && TopOk(mem, top, topsize, end)
    ensures base <= top < end
  {
  }

  /** The request to the system: first contiguously, then not; CMFAIL when both fail.  When the contiguous
      way fails the other one, which asks for no less, fails too. */
  method CallMoreCore(m: Heap, nb: int, asize: int) returns (tbase: int, tsize: int)
    requires Asking(m, nb, asize)
    modifies m`curBrk, m`noncontiguous
    ensures Granted(old(m.curBrk), m.curBrk, m.endSymbol, m.maxBrk, tbase, tsize, old(Increment(SystemOf(m), nb)))
    ensures m.noncontiguous == (old(m.noncontiguous) || tbase == CMFAIL)
    ensures tbase == CMFAIL ==> BrkOk(m.curBrk, m.endSymbol, m.maxBrk) && (m.top != 0 ==> m.curBrk == old(m.curBrk))
  {
    hide GranularityAlign;
    BrkFacts(m.curBrk, m.endSymbol, m.maxBrk);
    LeastPages(nb + SYS_ALLOC_PADDING, 0);
    AlignUpMono(nb + SYS_ALLOC_PADDING - m.topsize, nb + SYS_ALLOC_PADDING);
    tbase, tsize := CallContiguous(m, nb, asize);
    if tbase == CMFAIL {
      BrkFacts(m.curBrk, m.endSymbol, m.maxBrk);
      tbase, tsize := CallNoncontiguous(m, nb, asize);
    }
  }

  /** Get memory from the system and serve nb from the enlarged top. */
  method SysAlloc(m: Heap, nb: int) returns (mem: int)
    requires m.Valid() && 32 <= nb < SIZE_RANGE && m.topsize <= nb && (nb % 16 == 0 || nb == MAX_SIZE_T)
    modifies m`mem, m`top, m`topsize, m`trimCheck, m`releaseChecks, m`leastAddr, m`segBase, m`segSize, m`footprint,
        m`maxFootprint, m`curBrk, m`noncontiguous, m`chunks, m`live
    ensures m.Valid()
    ensures mem == 0 ==>
        m.live == old(m.live) && m.chunks == old(m.chunks) && m.top == old(m.top) && m.topsize == old(m.topsize)
        && m.segBase == old(m.segBase) && m.mem == old(m.mem)
    ensures mem != 0 ==> mem - 16 !in old(m.live) && m.live == old(m.live)[mem - 16 := nb] && m.top != 0
    ensures mem != 0 && old(m.top) != 0 ==> m.segBase == old(m.segBase)
    ensures mem != 0 ==> mem - 16 == if old(m.top) == 0 then old(SystemOf(m)).brk else old(m.top)
    ensures nb == MAX_SIZE_T ==> mem == 0
    ensures mem == 0 <==> Denied(old(SystemOf(m)), nb)
    ensures AccountsOf(m) == if mem == 0 then old(AccountsOf(m))
            else Grown(old(AccountsOf(m)), Increment(old(SystemOf(m)), nb), m.trimThreshold)
    ensures mem != 0 ==> m.top == mem - 16 + nb
    ensures m.noncontiguous == (old(m.noncontiguous) || (mem == 0 && !Oversized(old(SystemOf(m)), nb)))
    ensures mem != 0 ==> MallocedChunk(m.mem, mem - 16, nb, m.leastAddr)
    ensures mem != 0 ==> m.Pinned(mem - 16)
    ensures BodiesSame(old(m.mem), m.mem, old(m.live))
  {
    hide Tiled, Tiling.Aligned, Heads, Feet, IndexOk, Partition, LiveOk, BodiesSame, TopOk, BrkOk, GranularityAlign,
        MallocedChunk, TopChunk, Increment, Grown;
    mem := 0;
    SameBodies(m.mem, m.live);
    PaddingWraps(nb);
    FootprintOk(m);
    ghost var sys := SystemOf(m);
    var asize := GranularityAlign((nb + SYS_ALLOC_PADDING) % SIZE_RANGE);
    if asize <= nb { return; }
    NoWrapPadding(nb);
    if m.footprintLimit != 0 {
      var fp := (m.footprint + asize) % SIZE_RANGE;
      LimitTest(m.footprint, asize, m.footprintLimit);
      if fp <= m.footprint || fp > m.footprintLimit { return; }
    }
    SystemOk(m);
    GrowthBound(sys, nb);
    var tbase, tsize := CallMoreCore(m, nb, asize);
    if tbase != CMFAIL { mem := ServeFromNew(m, nb, tbase, tsize); }
  }

  /** The wrapped test of the limit is the true one. */
  lemma LimitTest(footprint: int, asize: int, limit: int)
    requires 0 <= footprint < SIZE_RANGE / 2 && 0 < asize < SIZE_RANGE && 0 < limit < SIZE_RANGE
    ensures var fp := (footprint + asize) % SIZE_RANGE; fp <= footprint || fp > limit <==> footprint + asize > limit
  {
    if footprint + asize >= SIZE_RANGE { assert (footprint + asize) % SIZE_RANGE == footprint + asize - SIZE_RANGE; }
  }

  lemma FootprintOk(m: Heap)
    requires m.Valid()
    ensures 0 <= m.footprint < SIZE_RANGE / 2
  {
    hide Tiled, Tiling.Aligned, Heads, Feet, IndexOk, TopOk, Partition, LiveOk;
  }

  /** The increment lies between what is lacking and what is asked for in all. */
  lemma GrowthBound(s: System, nb: int)
    requires 0 <= s.topsize <= nb && nb + SYS_ALLOC_PADDING + PAGE - 1 < SIZE_RANGE
    ensures nb - s.topsize + SYS_ALLOC_PADDING <= Increment(s, nb) <= GranularityAlign(nb + SYS_ALLOC_PADDING)
    ensures Increment(s, nb) % PAGE == 0
  {
    var n := nb + SYS_ALLOC_PADDING - if s.noncontiguous then 0 else s.topsize;
    LeastPages(n, 0);
    AlignUpMono(n, nb + SYS_ALLOC_PADDING);
  }

  /** What is granted keeps the footprint within its limit, and adds to top at least what nb lacks. */
  lemma WithinLimit(s: System, nb: int)
    requires 0 <= s.topsize <= nb && !Denied(s, nb)
    ensures s.limit != 0 ==> s.footprint + Increment(s, nb) <= s.limit
    ensures s.topsize + Increment(s, nb) >= nb + SYS_ALLOC_PADDING && Increment(s, nb) % PAGE == 0
    ensures forall k :: k % PAGE == 0 && k >= nb + SYS_ALLOC_PADDING - (if s.noncontiguous then 0 else s.topsize) ==>
        Increment(s, nb) <= k
  {
    GrowthBound(s, nb);
    forall k | k % PAGE == 0 && k >= nb + SYS_ALLOC_PADDING - (if s.noncontiguous then 0 else s.topsize)
      ensures Increment(s, nb) <= k
    {
      LeastPages(nb + SYS_ALLOC_PADDING - if s.noncontiguous then 0 else s.topsize, k);
    }
  }

  lemma SystemOk(m: Heap)
    requires m.Valid()
    ensures BrkOk(m.curBrk, m.endSymbol, m.maxBrk) && m.topsize >= 0 && (m.top == 0 ==> m.topsize == 0)
    ensures m.top != 0 ==> m.curBrk == m.segBase + m.segSize && m.curBrk != 0 && m.Core(0, 0)
    ensures m.top == 0 ==> m.Uninitialised() && BrkOk(0, m.endSymbol, m.maxBrk)
  {
    if m.top != 0 {
      TopInSegment(m.mem, m.chunks, m.segBase, m.top, m.topsize, m.segBase + m.segSize);
    }
  }

  /** The granted space always lets top serve nb. */
  method ServeFromNew(m: Heap, nb: int, tbase: int, tsize: int) returns (mem: int)
    requires m.top == 0 ==>
        m.Uninitialised() && BrkOk(0, m.endSymbol, m.maxBrk) && m.endSymbol <= tbase && tbase % PAGE == 0
    requires m.top != 0 ==> m.Core(0, 0) && tbase == m.segBase + m.segSize
    requires tsize % PAGE == 0 && tsize > 0 && m.curBrk == tbase + tsize < m.maxBrk
    requires nb >= 32 && (nb % 16 == 0 || nb == MAX_SIZE_T) && m.topsize >= 0
        && tsize >= nb - m.topsize + SYS_ALLOC_PADDING
    modifies m`mem, m`top, m`topsize, m`trimCheck, m`releaseChecks, m`leastAddr, m`segBase, m`segSize, m`footprint,
        m`maxFootprint, m`chunks, m`live
    ensures m.top != 0 && m.Inv(0, 0)
    ensures mem != 0 && mem - 16 !in old(m.live) && m.live == old(m.live)[mem - 16 := nb]
    ensures old(m.top) != 0 ==> m.segBase == old(m.segBase)
    ensures mem - 16 == if old(m.top) == 0 then tbase else old(m.top)
    ensures nb != MAX_SIZE_T && m.top == mem - 16 + nb
    ensures AccountsOf(m) == Grown(old(AccountsOf(m)), tsize, m.trimThreshold)
    ensures MallocedChunk(m.mem, mem - 16, nb, m.leastAddr)
    ensures m.Pinned(mem - 16)
    ensures BodiesSame(old(m.mem), m.mem, old(m.live))
  {
    hide Tiled, Tiling.Aligned, Heads, Feet, IndexOk, Partition, LiveOk, BodiesSame, BrkOk, MallocedChunk, TopChunk,
        Heap.Uninitialised, Rd;
    ghost var live0, mem0 := m.live, m.mem;
    AddSpace(m, tbase, tsize);
    TopInSegment(m.mem, m.chunks, m.segBase, m.top, m.topsize, m.segBase + m.segSize);
    mem := 0;
    if nb < m.topsize {
      ghost var mem1 := m.mem;
      var p := SplitTop(m, nb);
      BodiesSameTrans(mem0, mem1, m.mem, live0);
      mem := p + 16;
      TopChecks(m);
      assert TopChunk(m.mem, m.top, m.topsize, m.leastAddr, m.segBase, m.segSize);  // check_top_chunk
      MallocedChecks(m, p, nb);
      assert MallocedChunk(m.mem, mem - 16, nb, m.leastAddr);  // check_malloced_chunk
    }
  }

  lemma SameBodies(mem: Mem, live: Sizes)
    ensures BodiesSame(mem, mem, live)
  {
  }

  // ----- sys_trim -----

  /** Whole pages went back from the end of top, so many that what is left has at most a page more than the
      pad and the foot; when there was nothing to give, no size of top is a reason to try again. */
  ghost predicate Trimmed(a0: Accounts, topsize0: int, a: Accounts, topsize: int, pad: int, threshold: int) {
    var n := topsize0 - topsize;
    && n >= 0 && n % PAGE == 0 && topsize <= pad + TOP_FOOT + PAGE && (n > 0 ==> topsize > pad + TOP_FOOT)
    && a.segSize == a0.segSize - n && a.footprint == a0.footprint - n && a.maxFootprint == a0.maxFootprint
    && a.trimCheck == (if n > 0 then threshold else if topsize0 > a0.trimCheck then MAX_SIZE_T else a0.trimCheck)
  }

  /** sys_trim: return whole granularity units from the end of top, keeping more than pad and the foot. */
  method SysTrim(m: Heap, pad: int) returns (done: bool)
    requires m.Valid() && 0 <= pad < SIZE_RANGE
    modifies m`mem, m`top, m`topsize, m`trimCheck, m`segSize, m`footprint, m`curBrk
    ensures m.Valid() && m.top == old(m.top)
    ensures if m.top == 0 || pad >= MAX_REQUEST then
              !done && AccountsOf(m) == old(AccountsOf(m)) && m.topsize == old(m.topsize)
            else
              Trimmed(old(AccountsOf(m)), old(m.topsize), AccountsOf(m), m.topsize, pad, m.trimThreshold)
    ensures done <==> m.topsize < old(m.topsize)
    ensures m.curBrk - old(m.curBrk) == m.segSize - old(m.segSize)
    ensures !done ==> m.mem == old(m.mem)
    ensures BodiesSame(old(m.mem), m.mem, m.live)
  {
    hide Tiled, Tiling.Aligned, Heads, Feet, IndexOk, Partition, LiveOk, BodiesSame;
    var released := 0;
    SameBodies(m.mem, m.live);
    if pad < MAX_REQUEST && m.top != 0 {
      var need := pad + TOP_FOOT;
      if m.topsize > need {
        released := ReturnPages(m, need);
      }
      if released == 0 && m.topsize > m.trimCheck { m.trimCheck := MAX_SIZE_T; }
    }
    done := released != 0;
  }

  /** extra = ((topsize - pad + (unit - 1)) / unit - 1) * unit. */
  lemma ExtraUnits(d: int)
    requires d > 0
    ensures var extra := ((d + (PAGE - 1)) / PAGE - 1) * PAGE;
            0 <= extra < d && extra % PAGE == 0 && d - extra <= PAGE
  {
  }

  lemma BreakBack(brk: int, extra: int)
    requires 0 <= extra <= brk < SIZE_RANGE
    ensures (brk - extra) % SIZE_RANGE == brk - extra
  {
  }

  /** The calls of sbrk in sys_trim: the break goes back by extra bytes. */
  method LowerBreak(m: Heap, extra: int) returns (released: int)
    requires 0 <= extra <= m.curBrk < m.maxBrk <= SIZE_RANGE / 2 && m.curBrk == m.segBase + m.segSize
        && m.curBrk != 0 && 0 <= m.endSymbol < SIZE_RANGE - PAGE && extra < m.curBrk
    modifies m`curBrk
    ensures released == extra && m.curBrk == old(m.curBrk) - extra
  {
    released := 0;
    BreakBack(m.curBrk, 0);
    var oldBr := Sbrk(m, 0);
    if oldBr == m.segBase + m.segSize {
      BreakBack(m.curBrk, extra);
      var relBr := Sbrk(m, -extra);
      BreakBack(m.curBrk, 0);
      var newBr := Sbrk(m, 0);
      if relBr != CMFAIL && newBr < oldBr { released := oldBr - newBr; }
    }
  }

  /** A segment that grows, or shrinks, by whole pages. */
  lemma Resized(segSize: int, topsize: int, n: int)
    requires segSize % PAGE == 0 && n % PAGE == 0 && topsize % 16 == 0
    ensures (segSize + n) % PAGE == 0 && (segSize - n) % PAGE == 0 && (topsize + n) % 16 == 0 && (topsize - n) % 16 == 0
  {
    DivUnique(segSize + n, PAGE, segSize / PAGE + n / PAGE, 0);
    DivUnique(segSize - n, PAGE, segSize / PAGE - n / PAGE, 0);
    DivUnique(topsize + n, 16, topsize / 16 + 256 * (n / PAGE), 0);
    DivUnique(topsize - n, 16, topsize / 16 - 256 * (n / PAGE), 0);
  }

  lemma PageSum(a: int, b: int)
    requires a % PAGE == 0 && b % PAGE == 0
    ensures (a + b) % PAGE == 0 && (a - b) % PAGE == 0
    ensures a % 16 == 0 && b % 16 == 0
    ensures a > 0 ==> a >= PAGE
  {
    DivUnique(a + b, PAGE, a / PAGE + b / PAGE, 0);
    DivUnique(a - b, PAGE, a / PAGE - b / PAGE, 0);
    DivUnique(a, 16, 256 * (a / PAGE), 0);
    DivUnique(b, 16, 256 * (b / PAGE), 0);
  }

  method ReturnPages(m: Heap, pad: int) returns (released: int)
    requires m.top != 0 && m.Inv(0, 0) && 0 <= pad < m.topsize
    modifies m`mem, m`top, m`topsize, m`trimCheck, m`segSize, m`footprint, m`curBrk
    ensures m.Inv(0, 0) && m.top == old(m.top)
    ensures released >= 0 && released % PAGE == 0 && m.topsize == old(m.topsize) - released
        && pad < m.topsize <= pad + PAGE
    ensures m.segSize == old(m.segSize) - released && m.footprint == old(m.footprint) - released
        && m.curBrk == old(m.curBrk) - released
    ensures released == 0 ==> m.mem == old(m.mem)
    ensures m.trimCheck == if released == 0 then old(m.trimCheck) else m.trimThreshold
    ensures BodiesSame(old(m.mem), m.mem, m.live)
  {
    hide Tiled, Tiling.Aligned, Heads, Feet, IndexOk, Partition, LiveOk, BodiesSame;
    released := 0;
    SameBodies(m.mem, m.live);
    TopBelowEnd(m.mem, m.top, m.topsize, m.segBase + m.segSize);
    TopInSegment(m.mem, m.chunks, m.segBase, m.top, m.topsize, m.segBase + m.segSize);
    var unit := PAGE;
    ExtraUnits(m.topsize - pad);
    var extra := ((m.topsize - pad + (unit - 1)) / unit - 1) * unit;
    assert extra < HALF_MAX_SIZE_T;  // so -extra does not wrap to a positive increment
    released := LowerBreak(m, extra);
    if released != 0 { ShrinkTop(m, released); }
  }

  method ShrinkTop(m: Heap, released: int)
    requires m.top != 0 && m.Core(0, 0) && 0 < released < m.topsize && released % PAGE == 0
        && m.curBrk == m.segBase + m.segSize - released
    modifies m`mem, m`top, m`topsize, m`trimCheck, m`segSize, m`footprint
    ensures m.Inv(0, 0) && m.segSize == old(m.segSize) - released && m.top == old(m.top)
        && m.topsize == old(m.topsize) - released
    ensures m.footprint == old(m.footprint) - released && m.trimCheck == m.trimThreshold
    ensures BodiesSame(old(m.mem), m.mem, m.live)
  {
    hide Tiled, Tiling.Aligned, Heads, Feet, IndexOk, Partition, LiveOk, BodiesSame, TopOk, MallocedChunk, TopChunk;
    ghost var mem0, end := m.mem, m.segBase + m.segSize;
    TopBelowEnd(m.mem, m.top, m.topsize, end);
    TopInSegment(m.mem, m.chunks, m.segBase, m.top, m.topsize, end);
    Resized(m.segSize, m.topsize, released);
    TopResized(mem0,
        mem0[m.top + HEAD := m.topsize - released + PINUSE_BIT][m.top + (m.topsize - released) + HEAD := TOP_FOOT],
        m.chunks, m.segBase, m.top, m.topsize, m.topsize - released, end, end - released,
               m.smallmap, m.treemap, m.bins, m.binned, m.dv, m.dvsize, m.live);
    m.segSize := m.segSize - released;
    m.footprint := m.footprint - released;
    OffsetIsZero(m.top);
    InitTop(m, m.top, m.topsize - released);
    TopChecks(m);
    assert TopChunk(m.mem, m.top, m.topsize, m.leastAddr, m.segBase, m.segSize);  // check_top_chunk
  }
}
