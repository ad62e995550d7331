/** What follows for histories: the free runs and top depend on the live blocks alone, so freeing undoes
    allocation and the order of frees does not matter (src/mm/malloc.c:4646-4676, 4708-4787, 5105-5145). */
module HeapHistory {
  import opened BinIndex
  import opened Memory
  import opened Tiling
  import opened Index
  import opened HeapLemmas
  import opened HeapState
  import opened HeapSteps
  import opened HeapReturns
  import opened HeapFree
  import opened HeapSys
  import opened HeapMalloc
  import opened HeapRelease
  import opened HeapBulk
  import HeapIalloc
  import HeapRealloc

  /** Two heaps that start at the same place and have the same live blocks have the same chunks, so
      the same free runs, and the same top, whatever the sequence of calls that led to each. */
  lemma SameLiveSameFree(m1: Heap, m2: Heap)
    requires m1.Inv(0, 0) && m2.Inv(0, 0) && m1.segBase == m2.segBase && m1.live == m2.live
    ensures m1.chunks == m2.chunks && m1.top == m2.top
  {
    hide Tiled, Tiling.Aligned, Heads, Feet, IndexOk, TopOk, Partition;
    Canonical(m1.chunks, m2.chunks, m1.segBase, m1.top, m2.top, m1.live);
  }

  /** The one chunk that covers the old dv is dv. */
  lemma SameCover(c: Chunks, base: int, top: int, v0: Victim, v1: Victim, v2: Victim)
    requires Tiled(c, base, top) && v0.size >= 0 && VictimKept(v0, top, v1) && VictimKept(v0, top, v2)
    requires v1.size != 0 ==> v1.at in c && c[v1.at].size == v1.size
    requires v2.size != 0 ==> v2.at in c && c[v2.at].size == v2.size
    ensures v1 == v2
  {
    if v0.size != 0 && v0.at < top { assert Before(c, v1.at, v2.at) && Before(c, v2.at, v1.at); }
  }

  lemma SameBinned(c: Chunks, f1: Sizes, f2: Sizes, dv: int, dvsize: int)
    requires Partition(c, f1, dv, dvsize, 0, 0) && Partition(c, f2, dv, dvsize, 0, 0) && 0 !in c
    ensures f1 == f2
  {
    forall a ensures a in f1 <==> a in f2 { }
    assert forall a :: a in f1 ==> f1[a] == f2[a];
    assert f1.Keys == f2.Keys;
  }

  /** With the same live blocks, and what is left of the same dv, two heaps have the same dv and the same chunks
      in their bins: every other free chunk, with its size. */
  lemma SameLiveSameBins(m1: Heap, m2: Heap, v0: Victim)
    requires m1.Inv(0, 0) && m2.Inv(0, 0) && m1.segBase == m2.segBase && m1.live == m2.live && v0.size >= 0
    requires VictimKept(v0, m1.top, VictimOf(m1)) && VictimKept(v0, m2.top, VictimOf(m2))
    ensures VictimOf(m1) == VictimOf(m2) && m1.binned == m2.binned
    ensures forall a :: a in m1.binned <==>
        a in m1.chunks && !m1.chunks[a].cin && !(m1.dvsize != 0 && a == m1.dv)
    ensures forall a :: a in m1.binned ==> m1.binned[a] == m1.chunks[a].size
  {
    hide Tiled, Tiling.Aligned, Heads, Feet, IndexOk, TopOk, LiveOk, VictimKept;
    SameLiveSameFree(m1, m2);
    NoZero(m1.chunks, m1.segBase, m1.top);
    SameCover(m1.chunks, m1.segBase, m1.top, v0, VictimOf(m1), VictimOf(m2));
    SameBinned(m1.chunks, m1.binned, m2.binned, m1.dv, m1.dvsize);
  }

  lemma SameChunks(m: Heap, c: Chunks, top: int, live: Sizes)
    requires m.Inv(0, 0) && m.live == live && Tiled(c, m.segBase, top) && LiveOk(c, live, 0)
    ensures m.chunks == c && m.top == top
  {
    hide Tiled, Tiling.Aligned, Heads, Feet, IndexOk, TopOk, Partition;
    Canonical(m.chunks, c, m.segBase, m.top, top, live);
  }

  /** free right after malloc: the free runs and top are back to what they were, whether the block came
      from a bin, a tree, dv, top or new memory. */
  method MallocThenFree(m: Heap, bytes: int)
    requires m.Valid() && m.top != 0 && 0 <= bytes < SIZE_RANGE
    modifies m
    ensures m.Valid() && m.live == old(m.live) && m.chunks == old(m.chunks) && m.top == old(m.top)
    ensures BodiesSame(old(m.mem), m.mem, m.live)
  {
    hide Tiled, Tiling.Aligned, Heads, Feet, IndexOk, TopOk, Partition, LiveOk, BodiesSame, NoSpace, Exhausted,
        ServedFrom, Denied, BrkOk;
    ghost var c, top, live0, mem0 := m.chunks, m.top, m.live, m.mem;
    var mem := Malloc(m, bytes);
    if mem != 0 {
      ghost var mem1 := m.mem;
      HeapIalloc.NewIsLive(m, live0, RequestSize(bytes), mem - 16);
      Free(m, mem);
      assert m.live == live0;
      SameChunks(m, c, top, live0);
      BodiesSameTrans(mem0, mem1, m.mem, live0);
    }
  }

  /** Two heaps with the same live blocks, one freeing a before b and the other b before a, end up
      with the same free runs and the same top. */
  method FreeInEitherOrder(m1: Heap, m2: Heap, a: int, b: int)
    requires m1 != m2 && m1.Valid() && m2.Valid() && m1.segBase == m2.segBase && m1.live == m2.live
    requires a != 0 && b != 0 && a != b && a - 16 in m1.live && b - 16 in m1.live
    modifies m1, m2
    ensures m1.Valid() && m2.Valid() && m1.live == m2.live == old(m1.live) - {a - 16} - {b - 16}
    ensures m1.chunks == m2.chunks && m1.top == m2.top
    ensures old(VictimOf(m1)) == old(VictimOf(m2)) ==> VictimOf(m1) == VictimOf(m2) && m1.binned == m2.binned
  {
    hide Tiled, Tiling.Aligned, Heads, Feet, IndexOk, TopOk, Partition, LiveOk, BodiesSame, BrkOk, VictimKept;
    ghost var live0 := m1.live;
    FreeTwo(m1, a, b);
    FreeTwo(m2, b, a);
    assert live0 - {a - 16} - {b - 16} == live0 - {b - 16} - {a - 16};
    SameLiveSameFree(m1, m2);
    if old(VictimOf(m1)) == old(VictimOf(m2)) { SameLiveSameBins(m1, m2, old(VictimOf(m1))); }
  }

  method FreeTwo(m: Heap, a: int, b: int)
    requires m.Valid() && a != 0 && b != 0 && a != b && a - 16 in m.live && b - 16 in m.live
    modifies m
    ensures m.Inv(0, 0) && m.top != 0 && m.live == old(m.live) - {a - 16} - {b - 16} && m.segBase == old(m.segBase)
    ensures VictimKept(old(VictimOf(m)), m.top, VictimOf(m)) && old(m.dvsize) >= 0
  {
    hide Heap.Inv, VictimKept;
    ghost var v0 := VictimOf(m);
    NoFree(m);
    Free(m, a);
    ghost var top1, v1 := m.top, VictimOf(m);
    Free(m, b);
    KeptOn(m, v0, top1, v1);
  }

  lemma WithoutStep(live: Sizes, s: seq<int>, i: nat)
    requires i < |s|
    ensures Without(live, s[..i + 1]) == if s[i] == 0 then Without(live, s[..i])
        else Without(live, s[..i]) - {s[i] - 16}
  {
    var t, u := s[..i + 1], s[..i];
    assert t == u + [s[i]];
    forall a ensures Kept(a, t, 0) <==> Kept(a, u, 0) && (s[i] == 0 || s[i] - 16 != a) {
      if Kept(a, t, 0) {
        forall j: nat {:trigger u[j]} | 0 <= j < |u| && u[j] != 0 ensures u[j] - 16 != a { assert t[j] == u[j]; }
        assert t[i] == s[i];
      }
      if Kept(a, u, 0) && (s[i] == 0 || s[i] - 16 != a) {
        forall j: nat {:trigger t[j]} | 0 <= j < |t|
            && t[j] != 0 ensures t[j] - 16 != a { if j < i { assert t[j] == u[j]; } }
      }
    }
    hide Kept;
    var w := if s[i] == 0 then Without(live, u) else Without(live, u) - {s[i] - 16};
    assert Without(live, t).Keys == w.Keys;
  }

  lemma StillLive(live: Sizes, s: seq<int>, i: nat)
    requires Targets(live, s, 0) && i < |s| && s[i] != 0
    ensures s[i] - 16 in Without(live, s[..i])
  {
    var u := s[..i];
    assert s[i] - 16 in live;
    forall j: nat {:trigger u[j]} | 0 <= j < |u|
        && u[j] != 0 ensures u[j] - 16 != s[i] - 16 { assert u[j] == s[j] && s[j] != s[i]; }
  }

  /** Freeing the listed blocks one by one. */
  method FreeAll(m: Heap, s: seq<int>)
    requires m.Valid() && Targets(m.live, s, 0)
    modifies m
    ensures m.Valid() && m.live == Without(old(m.live), s) && m.segBase == old(m.segBase)
        && (m.top == 0 <==> old(m.top) == 0)
    ensures VictimKept(old(VictimOf(m)), m.top, VictimOf(m)) && old(m.dvsize) >= 0
  {
    hide Tiled, Tiling.Aligned, Heads, Feet, IndexOk, TopOk, Partition, LiveOk, BodiesSame, BrkOk, Targets, Without,
        VictimKept;
    ghost var live0 := m.live;
    ghost var v0 := VictimOf(m);
    NoFree(m);
    assert s[..0] == [] && Without(live0, []) == live0 by { NoneListed(live0); }
    for i := 0 to |s|
      invariant m.Valid() && m.live == Without(live0, s[..i]) && m.segBase == old(m.segBase)
          && (m.top == 0 <==> old(m.top) == 0)
      invariant VictimKept(v0, m.top, VictimOf(m))
    {
      ghost var top1, v1 := m.top, VictimOf(m);
      WithoutStep(live0, s, i);
      if s[i] != 0 {
        StillLive(live0, s, i);
        LiveMeansTop(m, s[i] - 16);
      }
      Free(m, s[i]);
      if m.top != 0 { KeptOn(m, v0, top1, v1); } else { VictimNone(m, v0, top1, v1); }
    }
    assert s[..|s|] == s;
  }

  lemma VictimNone(m: Heap, v0: Victim, top1: int, v1: Victim)
    requires m.Valid() && m.top == 0 && top1 == 0 && VictimKept(v0, top1, v1) && VictimKept(v1, m.top, VictimOf(m))
        && v0.size >= 0
    ensures VictimKept(v0, m.top, VictimOf(m))
  {
  }

  lemma NoneListed(live: Sizes)
    ensures Without(live, []) == live
  {
  }

  /** bulk_free, which merges neighbours in the array first, leaves the same live blocks, free runs and
      top as freeing the same blocks one by one. */
  method BulkFreeAsSingles(m1: Heap, m2: Heap, arr: array<int>)
    requires m1 != m2 && m1.Valid() && m2.Valid() && m1.segBase == m2.segBase && m1.live == m2.live && m1.top != 0
        && m2.top != 0
    requires Targets(m1.live, arr[..], 0)
    modifies m1, m2, arr
    ensures m1.Valid() && m2.Valid() && m1.live == m2.live && m1.chunks == m2.chunks && m1.top == m2.top
    ensures old(VictimOf(m1)) == old(VictimOf(m2)) ==> VictimOf(m1) == VictimOf(m2) && m1.binned == m2.binned
  {
    hide Tiled, Tiling.Aligned, Heads, Feet, IndexOk, TopOk, Partition, LiveOk, BodiesSame, BrkOk, Targets, Without,
        VictimKept;
    var s := arr[..];
    var unfreed := BulkFree(m1, arr, arr.Length);
    FreeAll(m2, s);
    SameLiveSameFree(m1, m2);
    if old(VictimOf(m1)) == old(VictimOf(m2)) { SameLiveSameBins(m1, m2, old(VictimOf(m1))); }
  }

  /** Live blocks are aligned, large enough, inside the segment and apart from each other. */
  lemma LiveBlocks(m: Heap, p: int, q: int)
    requires m.Valid() && p in m.live && q in m.live
    ensures (p + 16) % 16 == 0 && m.live[p] % 16 == 0 && m.live[p] >= MIN_CHUNK_SIZE
    ensures m.segBase <= p && p + m.live[p] + m.topsize + TOP_FOOT <= m.segBase + m.segSize == m.curBrk
    ensures p != q ==> p + m.live[p] <= q || q + m.live[q] <= p
  {
    hide Tiled, Tiling.Aligned, Heads, Feet, IndexOk, Partition, LiveOk;
    LiveIsChunk(m.chunks, m.segBase, m.top, m.binned, m.dv, m.dvsize, 0, m.live, p);
    if p != q { HeapRealloc.Disjoint(m, p, q); }
  }
}
