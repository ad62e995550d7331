/** internal_bulk_free (src/mm/malloc.c:5105-5145). */
module HeapBulk {
  import opened Memory
  import opened Tiling
  import opened Macros
  import opened Index
  import opened HeapLemmas
  import opened HeapState
  import opened HeapReturns
  import opened HeapRelays
  import opened HeapResizes
  import opened HeapFree
  import opened HeapSys
  import opened HeapViews
  import opened HeapQueues
  import opened HeapChecks
  import HeapRealloc
  import HeapRelease

  /** The pointers of s from i on lead to distinct live blocks, or are null. */
  ghost predicate Targets(live: Sizes, s: seq<int>, i: nat) {
    && (forall j: nat {:trigger s[j]} :: i <= j < |s| && s[j] != 0 ==> s[j] - 16 in live)
    && (forall j: nat, k: nat {:trigger s[j], s[k]} :: i <= j < k < |s| && s[j] != 0 ==> s[j] != s[k])
  }

  /** a is the chunk of none of the pointers of s from i on. */
  ghost predicate Kept(a: int, s: seq<int>, i: nat) {
    forall j: nat {:trigger s[j]} :: i <= j < |s| && s[j] != 0 ==> s[j] - 16 != a
  }

  /** live after freeing what s still lists from i on, compared with live0 after freeing all of s0. */
  ghost predicate SameRest(live0: Sizes, s0: seq<int>, live: Sizes, s: seq<int>, i: nat) {
    && (forall a :: a in live && Kept(a, s, i) ==> a in live0 && Kept(a, s0, 0) && live[a] == live0[a])
    && (forall a :: a in live0 && Kept(a, s0, 0) ==> a in live && Kept(a, s, i))
  }

  /** The map of the blocks s does not list. */
  ghost function Without(live: Sizes, s: seq<int>): Sizes {
    map a | a in live && Kept(a, s, 0) :: live[a]
  }

  lemma SkipNull(live0: Sizes, s0: seq<int>, live: Sizes, s: seq<int>, i: nat)
    requires i < |s| && s[i] == 0 && SameRest(live0, s0, live, s, i) && Targets(live, s, i)
    ensures SameRest(live0, s0, live, s, i + 1) && Targets(live, s, i + 1)
  {
    forall a ensures Kept(a, s, i) <==> Kept(a, s, i + 1) { }
  }

  /** Slot i was cleared: the slots after it list everything but its chunk. */
  lemma KeptFreed(s: seq<int>, s': seq<int>, i: nat, a: int)
    requires i < |s| && s[i] != 0 && s' == s[i := 0]
    ensures Kept(a, s, i) <==> Kept(a, s', i + 1) && a != s[i] - 16
  {
    if Kept(a, s', i + 1) && a != s[i] - 16 {
      forall j: nat {:trigger s[j]} | i <= j < |s|
          && s[j] != 0 ensures s[j] - 16 != a { if j > i { assert s'[j] == s[j]; } }
    }
    if Kept(a, s, i) {
      forall j: nat {:trigger s'[j]} | i + 1 <= j < |s'| && s'[j] != 0 ensures s'[j] - 16 != a { assert s'[j] == s[j]; }
      assert s[i] - 16 != a;
    }
  }

  lemma TargetsFreed(live: Sizes, live': Sizes, s: seq<int>, s': seq<int>, i: nat)
    requires i < |s| && s[i] != 0 && s' == s[i := 0] && Targets(live, s, i)
    requires live' == live - {s[i] - 16}
    ensures Targets(live', s', i + 1)
  {
    forall j: nat {:trigger s'[j]} | i + 1 <= j < |s'|
        && s'[j] != 0 ensures s'[j] - 16 in live' { assert s'[j] == s[j] && s[i] != s[j]; }
    forall j: nat, k: nat {:trigger s'[j], s'[k]} | i + 1 <= j < k < |s'|
        && s'[j] != 0 ensures s'[j] != s'[k] { assert s'[j] == s[j] && s'[k] == s[k]; }
  }

  lemma FreedOne(live0: Sizes, s0: seq<int>, live: Sizes, live': Sizes, s: seq<int>, s': seq<int>, i: nat)
    requires i < |s| && s[i] != 0 && SameRest(live0, s0, live, s, i) && Targets(live, s, i)
    requires live' == live - {s[i] - 16} && s' == s[i := 0]
    ensures SameRest(live0, s0, live', s', i + 1) && Targets(live', s', i + 1)
  {
    TargetsFreed(live, live', s, s', i);
    hide Kept, Targets;
    forall a | a in live' && Kept(a, s', i + 1) ensures a in live0 && Kept(a, s0, 0) && live'[a] == live0[a] {
      KeptFreed(s, s', i, a);
      assert a in live && live'[a] == live[a];
    }
    forall a | a in live0 && Kept(a, s0, 0) ensures a in live' && Kept(a, s', i + 1) {
      KeptFreed(s, s', i, a);
      assert a in live && Kept(a, s, i);
    }
  }

  /** Slots i and i + 1 were merged: the slots from i + 1 on list everything but the second chunk. */
  lemma KeptMerged(s: seq<int>, s': seq<int>, i: nat, a: int)
    requires i + 1 < |s| && s[i] != 0 && s[i + 1] != 0 && s' == s[i := 0][i + 1 := s[i]]
    ensures Kept(a, s, i) <==> Kept(a, s', i + 1) && a != s[i + 1] - 16
  {
    if Kept(a, s', i + 1) && a != s[i + 1] - 16 {
      assert s'[i + 1] - 16 != a;
      forall j: nat {:trigger s[j]} | i <= j < |s|
          && s[j] != 0 ensures s[j] - 16 != a { if j > i + 1 { assert s'[j] == s[j]; } }
    }
    if Kept(a, s, i) {
      assert s[i] - 16 != a && s[i + 1] - 16 != a;
      forall j: nat {:trigger s'[j]} | i + 1 <= j < |s'|
          && s'[j] != 0 ensures s'[j] - 16 != a { if j > i + 1 { assert s'[j] == s[j]; } }
    }
  }

  lemma TargetsMerged(live: Sizes, live': Sizes, s: seq<int>, s': seq<int>, i: nat, n: int)
    requires i + 1 < |s| && s[i] != 0 && s[i + 1] != 0 && s' == s[i := 0][i + 1 := s[i]] && Targets(live, s, i)
    requires live' == (live - {s[i + 1] - 16})[s[i] - 16 := n]
    ensures Targets(live', s', i + 1)
  {
    forall j: nat {:trigger s'[j]} | i + 1 <= j < |s'| && s'[j] != 0 ensures s'[j] - 16 in live' {
      if j > i + 1 { assert s'[j] == s[j] && s[i + 1] != s[j]; }
    }
    forall j: nat, k: nat {:trigger s'[j], s'[k]} | i + 1 <= j < k < |s'| && s'[j] != 0 ensures s'[j] != s'[k] {
      assert s'[k] == s[k];
      if j > i + 1 { assert s'[j] == s[j]; } else { assert s[i] != s[k]; }
    }
  }

  /** The neighbour q of p, next in the array, was merged into p, and its slot now lists p. */
  lemma MergedOne(live0: Sizes, s0: seq<int>, live: Sizes, live': Sizes, s: seq<int>, s': seq<int>, i: nat, n: int)
    requires i + 1 < |s| && s[i] != 0 && s[i + 1] != 0 && SameRest(live0, s0, live, s, i) && Targets(live, s, i)
    requires live' == (live - {s[i + 1] - 16})[s[i] - 16 := n] && s' == s[i := 0][i + 1 := s[i]]
    ensures SameRest(live0, s0, live', s', i + 1) && Targets(live', s', i + 1)
  {
    TargetsMerged(live, live', s, s', i, n);
    assert !Kept(s[i] - 16, s', i + 1) by { assert s'[i + 1] == s[i]; }
    hide Kept, Targets;
    var p, q := s[i] - 16, s[i + 1] - 16;
    forall a | a in live' && Kept(a, s', i + 1) ensures a in live0 && Kept(a, s0, 0) && live'[a] == live0[a] {
      KeptMerged(s, s', i, a);
      assert a != p;
      assert a != q && a in live && live'[a] == live[a];
    }
    forall a | a in live0 && Kept(a, s0, 0) ensures a in live' && Kept(a, s', i + 1) {
      KeptMerged(s, s', i, a);
      assert a in live && Kept(a, s, i);
    }
  }

  // ----- the program -----

  /** One slot that is not null: the block is merged with the neighbour that comes next in the array,
      or given back. */
  method FreeSlot(m: Heap, arr: array<int>, nelem: nat, i: nat) returns (ghost merged: bool)
    requires m.Inv(0, 0) && m.top != 0 && i < nelem <= arr.Length && arr[i] != 0 && arr[i] - 16 in m.live
    requires i + 1 < nelem && arr[i + 1] != 0 ==> arr[i + 1] - 16 in m.live && arr[i + 1] != arr[i]
    modifies m`mem, m`smallmap, m`treemap, m`bins, m`binned, m`chunks, m`live, m`dvsize, m`dv, m`top, m`topsize, arr
    ensures m.Inv(0, 0) && m.top != 0 && m.top <= old(m.top)
    ensures QueuesKept(old(m.bins), m.bins, m.binned)
    ensures VictimKept(old(VictimOf(m)), m.top, VictimOf(m))
    ensures !merged ==> m.live == old(m.live) - {old(arr[i]) - 16} && arr[..] == old(arr[..])[i := 0]
    ensures merged ==> i + 1 < nelem && old(arr[i + 1]) != 0 && arr[..] == old(arr[..])[i := 0][i + 1 := old(arr[i])]
                       && old(arr[i]) - 16 in m.live
                           && m.live ==
                           (old(m.live) - {old(arr[i + 1]) - 16})[old(arr[i]) - 16 := m.live[old(arr[i]) - 16]]
    ensures BodiesSame(old(m.mem), m.mem, m.live)
  {
    hide Tiled, Tiling.Aligned, Heads, Feet, IndexOk, TopOk, Partition, LiveOk, BodiesSame, InuseChunk, VictimKept,
        QueuesKept;
    ghost var mem0 := m.mem;
    var mem := arr[i];
    var p := mem - 16;
    HeapRealloc.LegalSize(m, p);
    LiveChecks(m, p);
    assert InuseChunk(m.mem, p, m.leastAddr);  // check_inuse_chunk
    var psize := ChunkSize(m.mem, p);
    arr[i] := 0;
    assert p >= m.leastAddr && Cinuse(m.mem, p) by { HeapRelease.InuseParts(m.mem, p, m.leastAddr); }  // RTCHECK
    var next := p + ChunkSize(m.mem, p);
    merged := false;
    if i + 1 < nelem && arr[i + 1] == next + 16 {
      merged := true;
      LiveChecks(m, next);
      var newsize := ChunkSize(m.mem, next) + psize;
      JoinNext(m, p, next, newsize);
      arr[i + 1] := p + 16;
      TopThere(m);
      HeapRelease.NoFree(m);
    } else {
      Release(m, p);
      DisposeChunk(m, p, psize);
    }
  }

  /** Blocks listed nowhere keep their words through one slot. */
  lemma RestKept(mem: Mem, mem': Mem, live0: Sizes, s0: seq<int>, live: Sizes, s: seq<int>, i: nat)
    requires BodiesSame(mem, mem', live) && SameRest(live0, s0, live, s, i)
    ensures BodiesSame(mem, mem', Without(live0, s0))
  {
    hide Kept;
    BodiesSameSub(mem, mem', live, Without(live0, s0));
  }

  lemma AllFreed(live0: Sizes, s0: seq<int>, live: Sizes, s: seq<int>, i: nat)
    requires SameRest(live0, s0, live, s, i) && i == |s|
    ensures live == Without(live0, s0)
  {
    forall a ensures Kept(a, s, i) { }
    hide Kept;
    var w := Without(live0, s0);
    forall a ensures (a in live <==> a in w) && (a in live && a in w ==> live[a] == w[a]) { }
    assert live.Keys == w.Keys;
  }

  /** However the blocks were merged, top is trimmed once, when it is larger than trim_check after all. */
  ghost predicate TrimmedAtEnd(a0: Accounts, a: Accounts, top: int, topsize: int, threshold: int) {
    var merged := topsize + a0.segSize - a.segSize;
    if top != 0 && merged > a0.trimCheck then Trimmed(a0, merged, a, topsize, 0, threshold) else a == a0
  }

  /** All that internal_bulk_free does to the chunks. */
  ghost predicate BulkFreedTo(v0: View, v: View, ptrs: seq<int>) {
    && v.live == Without(v0.live, ptrs) && v.top <= v0.top
    && VictimKept(v0.victim, v.top, v.victim) && QueueSteps(v0.bins, v.bins, v.binned, |ptrs|) && SameSystem(v0, v)
    && TrimmedAtEnd(v0.accounts, v.accounts, v.top, v.sys.topsize, v.threshold)
  }

  /** The loop over the slots. */
  method FreeSlots(m: Heap, arr: array<int>, nelem: nat)
    requires m.Valid() && nelem == arr.Length && Targets(m.live, arr[..], 0)
    modifies m`mem, m`smallmap, m`treemap, m`bins, m`binned, m`chunks, m`live, m`dvsize, m`dv, m`top, m`topsize, arr
    ensures m.Valid() && (m.top == 0 <==> old(m.top) == 0) && m.top <= old(m.top)
    ensures m.live == Without(old(m.live), old(arr[..])) && VictimKept(old(VictimOf(m)), m.top, VictimOf(m))
    ensures QueueSteps(old(m.bins), m.bins, m.binned, nelem)
    ensures forall j :: 0 <= j < nelem ==> arr[j] == 0
    ensures BodiesSame(old(m.mem), m.mem, m.live)
  {
    hide Tiled, Tiling.Aligned, Heads, Feet, IndexOk, TopOk, Partition, LiveOk, BodiesSame, Targets, SameRest,
        Without, BrkOk, VictimKept, Trimmed, Heap.Inv, QueuesKept, QueueSteps;
    ghost var mem0, live0, s0, rest := m.mem, m.live, arr[..], Without(m.live, arr[..]);
    ghost var v0, b0 := VictimOf(m), m.bins;
    HeapRelease.NoFree(m);
    StartRest(live0, s0);
    NoSteps(b0, m.binned);
    NothingWritten(m.mem, rest);
    for i := 0 to nelem
      invariant m.Valid() && (m.top == 0 <==> old(m.top) == 0) && m.top <= old(m.top)
      invariant VictimKept(v0, m.top, VictimOf(m)) && QueueSteps(b0, m.bins, m.binned, i)
      invariant SameRest(live0, s0, m.live, arr[..], i) && Targets(m.live, arr[..], i)
      invariant forall j :: 0 <= j < i ==> arr[j] == 0
      invariant BodiesSame(mem0, m.mem, rest)
    {
      ghost var memA, live1, s, b1, f1 := m.mem, m.live, arr[..], m.bins, m.binned;
      if arr[i] != 0 {
        SlotReady(live1, s, i);
        HeapRelease.LiveMeansTop(m, arr[i] - 16);
        ghost var v1, top1 := VictimOf(m), m.top;
        ghost var merged := FreeSlot(m, arr, nelem, i);
        KeptOn(m, v0, top1, v1);
        if merged {
          MergedOne(live0, s0, live1, m.live, s, arr[..], i, m.live[s[i] - 16]);
        } else {
          FreedOne(live0, s0, live1, m.live, s, arr[..], i);
        }
        RestKept(memA, m.mem, live0, s0, m.live, arr[..], i + 1);
        BodiesSameTrans(mem0, memA, m.mem, rest);
      } else {
        SkipNull(live0, s0, live1, s, i);
        HeapRelease.NoFree(m);
      }
      StepMore(b0, b1, f1, m.bins, m.binned, i);
    }
    AllFreed(live0, s0, m.live, arr[..], nelem);
  }

  /** if (should_trim(m, m->topsize)) sys_trim(m, 0). */
  method TrimAtEnd(m: Heap)
    requires m.Valid()
    modifies m`mem, m`top, m`topsize, m`trimCheck, m`segSize, m`footprint, m`curBrk
    ensures m.Valid() && m.top == old(m.top)
    ensures TrimmedAtEnd(old(AccountsOf(m)), AccountsOf(m), m.top, m.topsize, m.trimThreshold)
    ensures BodiesSame(old(m.mem), m.mem, m.live)
  {
    hide BodiesSame, Heap.Inv, Heap.Uninitialised, Trimmed;
    NothingWritten(m.mem, m.live);
    ghost var a0, merged := AccountsOf(m), m.topsize;
    if m.topsize > m.trimCheck {
      var done := SysTrim(m, 0);
      if m.top != 0 { EndTrimmed(a0, merged, m); }
    }
  }

  /** internal_bulk_free: every listed block is live no more and every slot is null. */
  method BulkFree(m: Heap, arr: array<int>, nelem: nat) returns (unfreed: int)
    requires m.Valid() && nelem == arr.Length && Targets(m.live, arr[..], 0)
    modifies m`mem, m`smallmap, m`treemap, m`bins, m`binned, m`chunks, m`live, m`dvsize, m`dv, m`top, m`topsize,
        m`releaseChecks, m`trimCheck, m`segSize, m`footprint, m`curBrk, arr
    ensures m.Valid() && unfreed == 0 && (m.top == 0 <==> old(m.top) == 0)
    ensures BulkFreedTo(old(ViewOf(m)), ViewOf(m), old(arr[..]))
    ensures m.live == Without(old(m.live), old(arr[..]))
    ensures forall j :: 0 <= j < nelem ==> arr[j] == 0
    ensures BodiesSame(old(m.mem), m.mem, m.live)
  {
    hide BodiesSame, Heap.Inv, Heap.Uninitialised, TrimmedAtEnd, VictimKept, Targets, Without, QueuesKept, QueueSteps;
    ghost var mem0 := m.mem;
    unfreed := 0;
    FreeSlots(m, arr, nelem);
    ghost var mem1 := m.mem;
    TrimAtEnd(m);
    BodiesSameTrans(mem0, mem1, m.mem, m.live);
  }

  lemma EndTrimmed(a0: Accounts, merged: int, m: Heap)
    requires m.top != 0 && merged > a0.trimCheck && Trimmed(a0, merged, AccountsOf(m), m.topsize, 0, m.trimThreshold)
    ensures TrimmedAtEnd(a0, AccountsOf(m), m.top, m.topsize, m.trimThreshold)
  {
  }

  lemma StartRest(live0: Sizes, s0: seq<int>)
    ensures SameRest(live0, s0, live0, s0, 0)
  {
  }

  lemma SlotReady(live: Sizes, s: seq<int>, i: nat)
    requires Targets(live, s, i) && i < |s| && s[i] != 0
    ensures s[i] - 16 in live
    ensures i + 1 < |s| && s[i + 1] != 0 ==> s[i + 1] - 16 in live && s[i + 1] != s[i]
  {
  }
}
