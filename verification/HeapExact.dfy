/** The contracts of malloc and free leave nothing open: what they say the call does is a function of the heap the
    call finds (src/mm/malloc.c:4583-4797). */
module HeapExact {
  import opened BinIndex
  import opened Memory
  import opened Tries
  import opened TrieLinks
  import opened TrieQueues
  import opened Tiling
  import opened Index
  import opened HeapState
  import opened HeapSteps
  import opened HeapSys
  import opened HeapViews
  import opened HeapQueues
  import opened HeapFree
  import opened HeapMalloc
  import opened HeapRelease
  import opened HeapHistory
  import Bits
  import HeapRelink
  import HeapRealloc
  import opened HeapSearch

  // ----- queues -----

  /** In each queue wait the chunks of its size, each once. */
  ghost predicate QueuesOk(b: Bins, f: Sizes) {
    && |b.small| == NSMALLBINS && |b.trees| == NTREEBINS && WaitsAre(b, f)
    && forall i: nat, s {:trigger Waits(b, i, s)} :: InBin(i, s) ==> DistinctRing(Waits(b, i, s))
  }

  lemma OrderOnce(r: seq<int>)
    requires DistinctRing(r)
    ensures DistinctRing(Order(r))
  {
    forall j, k | 0 <= j < k < |Order(r)| ensures Order(r)[j] != Order(r)[k] { OrderDistinct(r, j, k); }
  }

  lemma {:induction false} QueueOnce(t: Tree, s: int)
    requires DistinctRings(t)
    ensures DistinctRing(Queue(t, s))
    decreases t
  {
    if t.Node? {
      if t.size == s { OrderOnce(t.ring); } else if s < t.mid { QueueOnce(t.left, s); } else { QueueOnce(t.right, s); }
    }
  }

  lemma SmallOnce(mem: Mem, marked: bool, i: nat, list: seq<int>, f: Sizes)
    requires SmallBin(mem, marked, i, list, f)
    ensures DistinctRing(list)
  {
    var r := [SmallBinAt(i)] + list;
    forall j, k | 0 <= j < k < |list| ensures list[j] != list[k] {
      assert r[j + 1] == list[j] && r[k + 1] == list[k];
    }
  }

  lemma WaitsOnce(mem: Mem, smallmap: nat, treemap: nat, b: Bins, f: Sizes, i: nat, s: int)
    requires IndexOk(mem, smallmap, treemap, b, f) && InBin(i, s)
    ensures DistinctRing(Waits(b, i, s))
  {
    hide Shape, Halved, Tries.Holds, Tries.Aligned, Queue, SmallBin, DistinctRing, DistinctRings;
    BinCounts(mem, smallmap, treemap, b, f);
    if s < MIN_LARGE_SIZE {
      SmallBinOf(mem, smallmap, b.small, f, i);
      SmallOnce(mem, Bits.Bit(smallmap, i), i, b.small[i], f);
    } else {
      TreeBinOf(mem, treemap, b.trees, f, i);
      LinksDistinct(mem, TreeBinAt(i), b.trees[i], i);
      QueueOnce(b.trees[i], s);
    }
  }

  lemma IndexQueues(mem: Mem, smallmap: nat, treemap: nat, b: Bins, f: Sizes)
    requires IndexOk(mem, smallmap, treemap, b, f)
    ensures QueuesOk(b, f)
  {
    hide IndexOk, InBin, Waits, DistinctRing, WaitsAre;
    BinCounts(mem, smallmap, treemap, b, f);
    Unmoved(mem, smallmap, treemap, b, f);
    forall i: nat, s {:trigger Waits(b, i, s)} | InBin(i, s) ensures DistinctRing(Waits(b, i, s)) {
      WaitsOnce(mem, smallmap, treemap, b, f, i, s);
    }
  }

  lemma JoinedMembers(w: seq<int>, s: int, x: int)
    ensures forall y :: y in Joined(w, s, x) <==> y in w || y == x
  {
    var q := Joined(w, s, x);
    assert q[if s < MIN_LARGE_SIZE then 0 else |w|] == x;
    forall y | y in w ensures y in q { }
  }

  lemma JoinedOnce(w: seq<int>, s: int, x: int)
    requires DistinctRing(Joined(w, s, x))
    ensures x !in w
  {
    var q := Joined(w, s, x);
    forall k | 0 <= k < |w| ensures w[k] != x {
      assert q[if s < MIN_LARGE_SIZE then k + 1 else k] == w[k];
      assert q[if s < MIN_LARGE_SIZE then 0 else |w|] == x;
    }
  }

  /** Two outcomes of one step on a queue with the same members are the same queue. */
  lemma SameQueue(q0: seq<int>, q1: seq<int>, q2: seq<int>, f: Sizes, s: int)
    requires QueueKept(q0, q1, f, s) && QueueKept(q0, q2, f, s) && DistinctRing(q1) && DistinctRing(q2)
    requires forall x :: x in q1 <==> x in q2
    ensures q1 == q2
  {
    hide DistinctRing, Joined, Still;
    var w := Still(q0, f, s);
    if q1 != w {
      var x :| q1 == Joined(w, s, x);
      JoinedMembers(w, s, x);
      JoinedOnce(w, s, x);
      assert x in q1 && x in q2;
    }
    if q2 != w {
      var y :| q2 == Joined(w, s, y);
      JoinedMembers(w, s, y);
      JoinedOnce(w, s, y);
      assert y in q2 && y in q1;
    }
  }

  /** ... and so are all queues. */
  lemma SameQueues(b0: Bins, b1: Bins, b2: Bins, f: Sizes, i: nat, s: int)
    requires QueuesKept(b0, b1, f) && QueuesKept(b0, b2, f) && QueuesOk(b1, f) && QueuesOk(b2, f) && InBin(i, s)
    ensures Waits(b1, i, s) == Waits(b2, i, s)
  {
    hide InBin, Waits, DistinctRing;
    forall x ensures x in Waits(b1, i, s) <==> x in Waits(b2, i, s) { }
    assert QueueKept(Waits(b0, i, s), Waits(b1, i, s), f, s) && QueueKept(Waits(b0, i, s), Waits(b2, i, s), f, s);
    SameQueue(Waits(b0, i, s), Waits(b1, i, s), Waits(b2, i, s), f, s);
  }

  /** The chunks of every size wait in the same order. */
  ghost predicate SameOrder(b1: Bins, b2: Bins) {
    forall i: nat, s {:trigger Waits(b1, i, s)} :: InBin(i, s) ==> Waits(b1, i, s) == Waits(b2, i, s)
  }

  lemma OrderSame(b0: Bins, b1: Bins, b2: Bins, f: Sizes)
    requires QueuesKept(b0, b1, f) && QueuesKept(b0, b2, f) && QueuesOk(b1, f) && QueuesOk(b2, f)
    ensures SameOrder(b1, b2)
  {
    hide InBin, Waits, QueuesKept, QueuesOk;
    forall i: nat, s {:trigger Waits(b1, i, s)} | InBin(i, s) ensures Waits(b1, i, s) == Waits(b2, i, s) {
      SameQueues(b0, b1, b2, f, i, s);
    }
  }

  // ----- malloc -----

  /** There is only one chunk a request can be served from. */
  lemma ServedOnce(v: View, nb: int, p: int, q: int)
    requires QueuesOk(v.bins, v.binned) && (forall a :: a in v.binned ==> 0 <= v.binned[a])
    requires ServedFrom(v.binned, v.victim.at, v.victim.size, v.top, v.sys.topsize, nb, p)
    requires ServedFrom(v.binned, v.victim.at, v.victim.size, v.top, v.sys.topsize, nb, q)
    requires (p in v.binned ==> InTurn(v.bins, v.binned[p], p)) && (q in v.binned ==> InTurn(v.bins, v.binned[q], q))
    ensures p == q
  {
    hide WaitsAre, DistinctRing, InTurn;
    if BestFit(v.binned, nb, p) && BestFit(v.binned, nb, q) {
      assert v.binned[p] == v.binned[q];
      FrontOnce(v.bins, v.binned[p], p, q);
    }
  }

  lemma FrontOnce(b: Bins, s: int, p: int, q: int)
    requires |b.trees| == NTREEBINS && s >= 0 && InTurn(b, s, p) && InTurn(b, s, q)
    ensures p == q
  {
    if s >= MIN_LARGE_SIZE {
      Pow2Small();
      var i := HeapRelink.BinFrom(s, 0);
      assert IsFront(Queue(b.trees[i], s), p) && IsFront(Queue(b.trees[i], s), q);
    }
  }

  /** Everything but the words of memory is the same. */
  ghost predicate SameView(v1: View, v2: View) {
    && v1.live == v2.live && v1.binned == v2.binned && v1.victim == v2.victim && v1.top == v2.top
    && v1.accounts == v2.accounts && SameSystem(v1, v2) && SameOrder(v1.bins, v2.bins)
  }

  /** malloc: the block, what is left of the free chunks and their order, and the accounts are a function of the heap
      before the call and the size. */
  lemma MallocDetermined(v0: View, v1: View, v2: View, nb: int, mem1: int, mem2: int)
    requires Allocated(v0, v1, nb, mem1) && Allocated(v0, v2, nb, mem2)
    requires QueuesOk(v0.bins, v0.binned) && (forall a :: a in v0.binned ==> 0 <= v0.binned[a])
    requires QueuesOk(v1.bins, v1.binned) && QueuesOk(v2.bins, v2.binned)
    ensures mem1 == mem2 && SameView(v1, v2)
  {
    hide QueuesOk, QueuesKept, InTurn, LeftBy, ServedFrom, Exhausted, Denied, Oversized, Increment, Grown, SameOrder;
    if mem1 != 0 {
      if !NothingFits(v0, nb) { ServedOnce(v0, nb, mem1 - 16, mem2 - 16); }
      OrderSame(v0.bins, v1.bins, v2.bins, v1.binned);
    } else {
      SelfOrder(v0.bins);
    }
  }

  lemma SelfOrder(b: Bins)
    ensures SameOrder(b, b)
  {
  }

  // ----- free -----

  /** The view of a well-formed heap whose segment starts at base. */
  ghost predicate Sound(v: View, base: int) {
    && QueuesOk(v.bins, v.binned) && base > 0
    && Tiled(v.chunks, base, v.top) && Tiling.Aligned(v.chunks) && LiveOk(v.chunks, v.live, 0)
    && Partition(v.chunks, v.binned, v.victim.at, v.victim.size, 0, 0)
    && v.sys.topsize + TOP_FOOT == base + v.accounts.segSize - v.top
  }

  lemma ViewSound(m: Heap)
    requires m.Inv(0, 0)
    ensures Sound(ViewOf(m), m.segBase) && forall a :: a in m.binned ==> 0 <= m.binned[a]
  {
    hide Tiled, Tiling.Aligned, Heads, Feet, IndexOk, Partition, LiveOk, QueuesOk;
    IndexQueues(m.mem, m.smallmap, m.treemap, m.bins, m.binned);
    SizesOf(m);
  }

  /** Every well-formed heap, the untouched one included, is as MallocDetermined asks. */
  lemma ValidQueues(m: Heap)
    requires m.Valid()
    ensures QueuesOk(m.bins, m.binned) && forall a :: a in m.binned ==> 0 <= m.binned[a]
  {
    hide Heap.Inv, Heap.Uninitialised, QueuesOk;
    if m.top == 0 { EmptyQueues(m); } else { ViewSound(m); }
  }

  lemma EmptyQueues(m: Heap)
    requires m.Uninitialised()
    ensures QueuesOk(m.bins, m.binned) && m.binned == map[]
  {
  }

  /** Two heaps that are alike give a request the same block, and are alike again. */
  method MallocAlike(m1: Heap, m2: Heap, bytes: int) returns (mem1: int, mem2: int)
    requires m1 != m2 && m1.Valid() && m2.Valid() && ViewOf(m1) == ViewOf(m2) && 0 <= bytes < SIZE_RANGE
    modifies m1, m2
    ensures m1.Valid() && m2.Valid() && mem1 == mem2 && SameView(ViewOf(m1), ViewOf(m2))
  {
    hide Heap.Valid, Heap.Inv, Allocated, QueuesOk, SameView, NoSpace;
    ghost var v0 := ViewOf(m1);
    ValidQueues(m1);
    mem1 := Malloc(m1, bytes);
    mem2 := Malloc(m2, bytes);
    ValidQueues(m1);
    ValidQueues(m2);
    MallocDetermined(v0, ViewOf(m1), ViewOf(m2), RequestSize(bytes), mem1, mem2);
  }

  /** The shape of the heap: chunks and top from the live blocks, dv and the bins from these and the old dv. */
  lemma ShapeDetermined(v0: View, v1: View, v2: View, base: int)
    requires Sound(v1, base) && Sound(v2, base) && v1.live == v2.live && v0.victim.size >= 0
    requires VictimKept(v0.victim, v1.top, v1.victim) && VictimKept(v0.victim, v2.top, v2.victim)
    ensures v1.chunks == v2.chunks && v1.top == v2.top && v1.victim == v2.victim && v1.binned == v2.binned
  {
    hide Tiled, Tiling.Aligned, LiveOk, VictimKept, QueuesOk;
    SameTiles(v1, v2, base);
    NoZero(v1.chunks, base, v1.top);
    SameCover(v1.chunks, base, v1.top, v0.victim, v1.victim, v2.victim);
    SameBinned(v1.chunks, v1.binned, v2.binned, v1.victim.at, v1.victim.size);
  }

  lemma SameTiles(v1: View, v2: View, base: int)
    requires Sound(v1, base) && Sound(v2, base) && v1.live == v2.live
    ensures v1.chunks == v2.chunks && v1.top == v2.top
  {
    hide Tiled, Tiling.Aligned, Partition, QueuesOk;
    Canonical(v1.chunks, v2.chunks, base, v1.top, v2.top, v1.live);
  }

  /** Trimming gives back the one number of pages that leaves less than a page to spare. */
  lemma TrimOnce(merged: int, n: int, k: int)
    requires n >= 0 && n % PAGE == 0 && merged - n <= TOP_FOOT + PAGE && (n > 0 ==> merged - n > TOP_FOOT)
    requires k >= 0 && k % PAGE == 0 && merged - k <= TOP_FOOT + PAGE && (k > 0 ==> merged - k > TOP_FOOT)
    ensures n == k
  {
    PageSum(n, k);
    if n > k { PageSum(n - k, 0); }
    if k > n { PageSum(k - n, 0); }
  }

  /** free: what is free afterwards, in which order it waits, and what is given back to the system are a function of
      the heap before the call and the block. */
  lemma FreeDetermined(v0: View, v1: View, v2: View, base: int, mem: int)
    requires Sound(v1, base) && Sound(v2, base) && v0.victim.size >= 0
    requires FreedTo(v0, v1, mem) && FreedTo(v0, v2, mem)
    ensures SameView(v1, v2) && v1.chunks == v2.chunks && v1.sys.topsize == v2.sys.topsize
  {
    hide Tiled, Tiling.Aligned, LiveOk, VictimKept, QueuesOk, QueuesKept, SameOrder, Partition;
    ShapeDetermined(v0, v1, v2, base);
    OrderSame(v0.bins, v1.bins, v2.bins, v1.binned);
    var merged := v1.sys.topsize + v0.accounts.segSize - v1.accounts.segSize;
    assert merged == v2.sys.topsize + v0.accounts.segSize - v2.accounts.segSize;
    if v1.top < v0.top && merged > v0.accounts.trimCheck {
      TrimOnce(merged, merged - v1.sys.topsize, merged - v2.sys.topsize);
    }
  }

  /** realloc where the block lies: the same. */
  lemma ResizeDetermined(v0: View, v1: View, v2: View, base: int, p0: int, nb: int, mem1: int, mem2: int)
    requires Sound(v1, base) && Sound(v2, base) && v0.victim.size >= 0
    requires HeapRealloc.InPlace(v0.chunks, v0.top, v0.sys.topsize, p0, nb)
    requires HeapRealloc.ReallocatedTo(v0, v1, p0, nb, mem1) && HeapRealloc.ReallocatedTo(v0, v2, p0, nb, mem2)
    ensures mem1 == mem2 && SameView(v1, v2) && v1.chunks == v2.chunks
  {
    hide Tiled, Tiling.Aligned, LiveOk, VictimKept, QueuesOk, QueuesKept, SameOrder, Partition,
        HeapRealloc.InPlace, HeapRealloc.SizeInPlace;
    SameTiles(v1, v2, base);
    NoZero(v1.chunks, base, v1.top);
    if v1.victim != v2.victim {
      SoundVictim(v1, base);
      SoundVictim(v2, base);
      SameCover(v1.chunks, base, v1.top, v0.victim, v1.victim, v2.victim);
    }
    BinnedSame(v1, v2, base);
    OrderSame(v0.bins, v1.bins, v2.bins, v1.binned);
  }

  lemma SoundVictim(v: View, base: int)
    requires Sound(v, base)
    ensures v.victim.size != 0 ==> v.victim.at in v.chunks && v.chunks[v.victim.at].size == v.victim.size
  {
    hide Tiled, Tiling.Aligned, LiveOk, QueuesOk;
  }

  lemma BinnedSame(v1: View, v2: View, base: int)
    requires Sound(v1, base) && Sound(v2, base) && v1.chunks == v2.chunks && v1.victim == v2.victim && v1.top == v2.top
    ensures v1.binned == v2.binned
  {
    hide Tiled, Tiling.Aligned, LiveOk, QueuesOk, Partition;
    NoZero(v1.chunks, base, v1.top);
    SameBinned(v1.chunks, v1.binned, v2.binned, v1.victim.at, v1.victim.size);
  }
}
