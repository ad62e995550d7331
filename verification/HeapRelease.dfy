/** dlfree (src/mm/malloc.c:4690-4797). */
module HeapRelease {
  import opened BinIndex
  import opened Memory
  import opened Tiling
  import opened Macros
  import opened Index
  import opened HeapLemmas
  import opened HeapState
  import opened HeapReturns
  import opened HeapRelays
  import opened HeapFree
  import opened HeapSys
  import opened HeapViews
  import opened HeapQueues
  import opened HeapChecks

  /** `--release_checks == 0` and release_unused_segments, which finds no segment to release and
      starts the count again. */
  method CountRelease(m: Heap)
    modifies m`releaseChecks
  {
    m.releaseChecks := (m.releaseChecks - 1) % SIZE_RANGE;
    if m.releaseChecks == 0 { m.releaseChecks := MAX_SIZE_T; }
  }

  /** Put the freed chunk q, of size s, into its bin. */
  method BinFreed(m: Heap, q: int, s: int)
    requires m.Inv(0, q) && q != 0 && q in m.chunks && m.chunks[q].size == s
    modifies m`mem, m`smallmap, m`treemap, m`bins, m`binned, m`releaseChecks
    ensures m.Inv(0, 0) && BodiesSame(old(m.mem), m.mem, m.live)
    ensures m.binned == old(m.binned)[q := s] && Queued(old(m.bins), m.bins, q, s)
  {
    hide Tiled, Tiling.Aligned, Heads, Feet, IndexOk, TopOk, Partition, LiveOk, BodiesSame, FreeChunk, Queued;
    OrphanSize(m.chunks, m.segBase, m.top, m.binned, m.dv, m.dvsize, q);
    InsertChunk(m, q, s, 0);
    BinnedChecks(m, q);
    assert FreeChunk(m.mem, q, m.dv, m.top, m.leastAddr);  // check_free_chunk
    if !IsSmall(s) { CountRelease(m); }
  }

  /** Only when the freed chunk was merged into top, and top is larger than trim_check then, is the end of top given
      back to the system. */
  ghost predicate TrimmedByFree(a0: Accounts, top0: int, a: Accounts, top: int, topsize: int, threshold: int) {
    var merged := topsize + a0.segSize - a.segSize;
    if top < top0 && merged > a0.trimCheck then Trimmed(a0, merged, a, topsize, 0, threshold) else a == a0
  }

  lemma TopTrimmed(a0: Accounts, top0: int, merged: int, m: Heap)
    requires m.top < top0 && merged > a0.trimCheck && Trimmed(a0, merged, AccountsOf(m), m.topsize, 0, m.trimThreshold)
    ensures TrimmedByFree(a0, top0, AccountsOf(m), m.top, m.topsize, m.trimThreshold)
  {
  }

  lemma NotTrimmed(a0: Accounts, top0: int, m: Heap)
    ensures AccountsOf(m) == a0 && (m.top >= top0 || m.topsize <= a0.trimCheck) ==>
        TrimmedByFree(a0, top0, AccountsOf(m), m.top, m.topsize, m.trimThreshold)
  {
  }

  /** All that dlfree does to the chunks: the block is gone, what is free is merged, dv keeps its space unless top
      takes it over, and top may be trimmed. */
  ghost predicate FreedTo(v0: View, v: View, mem: int) {
    && v.live == (if mem == 0 then v0.live else v0.live - {mem - 16}) && v.top <= v0.top
    && VictimKept(v0.victim, v.top, v.victim) && QueuesKept(v0.bins, v.bins, v.binned) && SameSystem(v0, v)
    && TrimmedByFree(v0.accounts, v0.top, v.accounts, v.top, v.sys.topsize, v.threshold)
  }

  /** dlfree: the block is live no more, every other live block keeps its words, and the space may
      go back to the system when it was merged into a top larger than trim_check. */
  method Free(m: Heap, mem: int)
    requires m.Valid() && (mem != 0 ==> mem - 16 in m.live)
    modifies m`mem, m`smallmap, m`treemap, m`bins, m`binned, m`chunks, m`live, m`dvsize, m`dv, m`top, m`topsize,
        m`releaseChecks, m`trimCheck, m`segSize, m`footprint, m`curBrk
    ensures m.Valid()
    ensures m.live == if mem == 0 then old(m.live) else old(m.live) - {mem - 16}
    ensures FreedTo(old(ViewOf(m)), ViewOf(m), mem)
    ensures mem == 0 ==> m.chunks == old(m.chunks) && m.mem == old(m.mem) && m.segSize == old(m.segSize)
    ensures mem != 0 ==> m.top != 0
    ensures BodiesSame(old(m.mem), m.mem, m.live)
  {
    hide Tiled, Tiling.Aligned, Heads, Feet, IndexOk, TopOk, Partition, LiveOk, BodiesSame, InuseChunk, Heap.Inv,
        VictimKept, Trimmed, QueuesKept;
    NothingWritten(m.mem, m.live);
    if mem == 0 {
      NoFree(m);
    } else {
      var p := mem - 16;
      LiveMeansTop(m, p);
      LiveChecks(m, p);
      assert InuseChunk(m.mem, p, m.leastAddr);  // check_inuse_chunk
      assert p >= m.leastAddr && Cinuse(m.mem, p) by { InuseParts(m.mem, p, m.leastAddr); }  // RTCHECK
      var psize := ChunkSize(m.mem, p);
      Release(m, p);
      FreeReleased(m, p, psize);
    }
  }

  /** Nothing freed, nothing moved. */
  lemma NoFree(m: Heap)
    requires m.Valid()
    ensures VictimKept(VictimOf(m), m.top, VictimOf(m)) && m.dvsize >= 0 && QueuesKept(m.bins, m.bins, m.binned)
  {
    hide Heap.Inv, QueuesKept;
    if m.top != 0 {
      VictimStays(m);
      QueuesStay(m, 0, 0);
    } else {
      NoQueues(m);
    }
  }

  /** Before the first allocation nothing waits. */
  lemma NoQueues(m: Heap)
    requires m.Uninitialised()
    ensures QueuesKept(m.bins, m.bins, m.binned)
  {
  }

  lemma InuseParts(mem: Mem, p: int, least: int)
    requires InuseChunk(mem, p, least)
    ensures p >= least
  {
  }

  lemma LiveMeansTop(m: Heap, p: int)
    requires m.Valid() && p in m.live
    ensures m.top != 0 && m.Inv(0, 0)
  {
  }

  /** if (should_trim(m, tsize)) sys_trim(m, 0), after the freed chunk became part of top. */
  method TrimMerged(m: Heap, ghost a0: Accounts, ghost top0: int)
    requires m.Inv(0, 0) && AccountsOf(m) == a0 && m.top < top0
    modifies m`mem, m`top, m`topsize, m`trimCheck, m`segSize, m`footprint, m`curBrk
    ensures m.Inv(0, 0) && m.top == old(m.top)
    ensures TrimmedByFree(a0, top0, AccountsOf(m), m.top, m.topsize, m.trimThreshold)
    ensures BodiesSame(old(m.mem), m.mem, m.live)
  {
    hide BodiesSame, Heap.Inv, TrimmedByFree, Trimmed;
    TopThere(m);
    NothingWritten(m.mem, m.live);
    NotTrimmed(a0, top0, m);
    ghost var merged := m.topsize;
    if m.topsize > m.trimCheck {
      var done := SysTrim(m, 0);
      TopTrimmed(a0, top0, merged, m);
    }
  }

  /** The body of dlfree from reading pinuse(p) on. */
  method FreeReleased(m: Heap, p: int, psize: int)
    requires m.Inv(p, 0) && m.HoleIs(p, psize) && Rd(m.mem, p + HEAD) == HeadWord(m.chunks[p])
        && (m.dvsize != 0 ==> m.dv != p)
    modifies m`mem, m`smallmap, m`treemap, m`bins, m`binned, m`chunks, m`dvsize, m`dv, m`top, m`topsize,
        m`releaseChecks, m`trimCheck, m`segSize, m`footprint, m`curBrk
    ensures m.Inv(0, 0) && m.top != 0
    ensures m.top <= old(m.top)
        && TrimmedByFree(old(AccountsOf(m)), old(m.top), AccountsOf(m), m.top, m.topsize, m.trimThreshold)
    ensures VictimKept(old(VictimOf(m)), m.top, VictimOf(m))
    ensures QueuesKept(old(m.bins), m.bins, m.binned)
    ensures BodiesSame(old(m.mem), m.mem, m.live)
  {
    hide Tiled, Tiling.Aligned, Heads, Feet, IndexOk, TopOk, Partition, LiveOk, BodiesSame, Heap.Inv, VictimKept,
        Trimmed, TrimmedByFree, Shrunk, QueuesKept, WaitsAre, Queued, Within, Cinuse, Rd;
    ghost var mem0, a0, top0, b0, f0 := m.mem, AccountsOf(m), m.top, m.bins, m.binned;
    QueuesStay(m, p, 0);
    var q, qsize, done := Backward(m, p, psize);
    if !done {
      ghost var mem1, b1, f1 := m.mem, m.bins, m.binned;
      var r := Forward(m, q, qsize);
      ghost var mem2, b2, f2 := m.mem, m.bins, m.binned;
      ShrunkTwice(b0, b1, f1, b2, f2);
      ShrunkKept(b0, b2, f2);
      BodiesSameTrans(mem0, mem1, mem2, m.live);
      match r {
        case IntoDv => NotTrimmed(a0, top0, m);
        case IntoTop =>
          TrimMerged(m, a0, top0);
        case ToBin(s) =>
          BinFreed(m, q, s);
          ShrunkQueued(b0, f0, b2, f2, m.bins, q, s);
          NotTrimmed(a0, top0, m);
      }
      BodiesSameTrans(mem0, mem2, m.mem, m.live);
    }
    if done {
      ShrunkKept(b0, m.bins, m.binned);
      NotTrimmed(a0, top0, m);
    }
    TopThere(m);
  }
}
