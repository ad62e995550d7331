/** The order in which chunks of one size are handed out: a small bin gives its newest chunk first, a tree bin the
    oldest of the size (src/mm/malloc.c:3545-3625, 3654-3775). */
module HeapQueues {
  import opened BinIndex
  import opened Memory
  import opened Tries
  import opened TrieLinks
  import opened TrieQueues
  import opened Index
  import Bits

  /** Bin i, a small one or a tree, is the one for chunks of size s. */
  ghost predicate InBin(i: nat, s: int) {
    if s < MIN_LARGE_SIZE then i < NSMALLBINS && s == SmallIndex2Size(i) else i < NTREEBINS && InTreeBin(i, s)
  }

  /** The chunks of size s in the order in which they will be handed out. */
  ghost function Waits(b: Bins, i: nat, s: int): seq<int> {
    if s < MIN_LARGE_SIZE then if i < |b.small| then b.small[i] else []
    else if i < |b.trees| then Queue(b.trees[i], s) else []
  }

  /** The queue with one more chunk. */
  function Joined(q: seq<int>, s: int, x: int): seq<int> { if s < MIN_LARGE_SIZE then [x] + q else q + [x] }

  /** What is left of a queue when its chunks that are no longer binned with size s are gone. */
  ghost function Still(q: seq<int>, f: Sizes, s: int): seq<int> {
    if q == [] then [] else (if q[0] in f && f[q[0]] == s then [q[0]] else []) + Still(q[1..], f, s)
  }

  /** Chunks left their queues, and the order of all others stayed. */
  ghost predicate Shrunk(b0: Bins, b: Bins, f: Sizes) {
    forall i: nat, s {:trigger Waits(b, i, s)} :: InBin(i, s) ==> Waits(b, i, s) == Still(Waits(b0, i, s), f, s)
  }

  /** x joined the queue of its size, and the other queues stayed. */
  ghost predicate Queued(b0: Bins, b: Bins, x: int, sx: int) {
    forall i: nat, s {:trigger Waits(b, i, s)} ::
      InBin(i, s) ==> Waits(b, i, s) == if s == sx then Joined(Waits(b0, i, s), s, x) else Waits(b0, i, s)
  }

  /** Chunks left their queues, at most one joined each, and the order of all others stayed. */
  ghost predicate QueuesKept(b0: Bins, b: Bins, f: Sizes) {
    forall i: nat, s {:trigger Waits(b, i, s)} :: InBin(i, s) ==> QueueKept(Waits(b0, i, s), Waits(b, i, s), f, s)
  }

  ghost predicate QueueKept(q0: seq<int>, q: seq<int>, f: Sizes, s: int) {
    q == Still(q0, f, s) || exists x {:trigger Joined(Still(q0, f, s), s, x)} :: q == Joined(Still(q0, f, s), s, x)
  }

  /** p left its queue, and the other queues stayed. */
  ghost predicate QueueLeft(b0: Bins, b: Bins, p: int) {
    forall i: nat, s {:trigger Waits(b, i, s)} :: InBin(i, s) ==> Leaves(Waits(b0, i, s), Waits(b, i, s), p)
  }

  ghost predicate Leaves(q0: seq<int>, q: seq<int>, p: int) {
    || q == q0 || q == TrieQueues.Without(q0, p)
    || exists k: nat :: k < |q0| && q0[k] == p && q == RemoveAt(q0, k)
  }

  /** In the queue of size s wait exactly the chunks binned with that size. */
  ghost predicate WaitsAre(b: Bins, f: Sizes) {
    forall i: nat, s, x {:trigger x in Waits(b, i, s)} :: InBin(i, s) ==> (x in Waits(b, i, s) <==> x in f && f[x] == s)
  }

  /** b and f are reached from b0 by n steps that each keep the order and let at most one chunk join each queue. */
  ghost predicate QueueSteps(b0: Bins, b: Bins, f: Sizes, n: nat) {
    exists bs: seq<Bins>, fs: seq<Sizes> :: StepsVia(bs, fs, b0, b, f, n)
  }

  ghost predicate StepsVia(bs: seq<Bins>, fs: seq<Sizes>, b0: Bins, b: Bins, f: Sizes, n: nat) {
    && |bs| == n + 1 && |fs| == n + 1 && bs[0] == b0 && bs[n] == b && fs[n] == f
    && forall k: nat {:trigger bs[k]} :: k < n ==> QueuesKept(bs[k], bs[k + 1], fs[k + 1])
  }

  lemma NoSteps(b: Bins, f: Sizes)
    ensures QueueSteps(b, b, f, 0)
  {
    assert StepsVia([b], [f], b, b, f, 0);
  }

  lemma StepMore(b0: Bins, b1: Bins, f1: Sizes, b: Bins, f: Sizes, n: nat)
    requires QueueSteps(b0, b1, f1, n) && QueuesKept(b1, b, f)
    ensures QueueSteps(b0, b, f, n + 1)
  {
    hide QueuesKept;
    var bs: seq<Bins>, fs: seq<Sizes> :| StepsVia(bs, fs, b0, b1, f1, n);
    var cs, gs := bs + [b], fs + [f];
    forall k: nat {:trigger cs[k]} | k < n + 1 ensures QueuesKept(cs[k], cs[k + 1], gs[k + 1]) {
      assert k < n ==> cs[k] == bs[k] && cs[k + 1] == bs[k + 1] && gs[k + 1] == fs[k + 1];
    }
    assert StepsVia(cs, gs, b0, b, f, n + 1);
  }

  lemma OneStep(b0: Bins, b: Bins, f: Sizes)
    requires QueuesKept(b0, b, f)
    ensures QueueSteps(b0, b, f, 1)
  {
    NoSteps(b0, f);
    StepMore(b0, b0, f, b, f, 0);
  }

  // ----- queues and the chunks in them -----

  /** Exactly the binned chunks of size s wait in its queue. */
  lemma WaitsHold(mem: Mem, smallmap: nat, treemap: nat, b: Bins, f: Sizes, i: nat, s: int, x: int)
    requires IndexOk(mem, smallmap, treemap, b, f) && InBin(i, s)
    ensures x in Waits(b, i, s) <==> x in f && f[x] == s
  {
    hide Shape, Halved, Holds, Tries.Aligned, Queue, SmallBins, TreeBins;
    if s < MIN_LARGE_SIZE {
      SmallCount(mem, smallmap, b.small, f);
      SmallBinOf(mem, smallmap, b.small, f, i);
      assert x in Members(b.small[i]) <==> x in b.small[i];
    } else {
      TreeCount(mem, treemap, b.trees, f);
      TreeBinOf(mem, treemap, b.trees, f, i);
      QueueHolds(b.trees[i], f, Lo(i), Lo(i) + Bits.Pow2(Exp(i)), s, x);
    }
  }

  lemma SmallCount(mem: Mem, smallmap: nat, small: seq<seq<int>>, f: Sizes)
    requires SmallBins(mem, smallmap, small, f)
    ensures |small| == NSMALLBINS
  {
  }

  lemma TreeCount(mem: Mem, treemap: nat, trees: seq<Tree>, f: Sizes)
    requires TreeBins(mem, treemap, trees, f)
    ensures |trees| == NTREEBINS
  {
  }

  lemma StillFirst(q: seq<int>, f: Sizes, s: int)
    requires q != []
    ensures q[0] in f && f[q[0]] == s ==> Still(q, f, s) == [q[0]] + Still(q[1..], f, s)
    ensures !(q[0] in f && f[q[0]] == s) ==> Still(q, f, s) == Still(q[1..], f, s)
  {
    assert [] + Still(q[1..], f, s) == Still(q[1..], f, s);
  }

  lemma {:induction false} StillAll(q: seq<int>, f: Sizes, s: int)
    requires forall x :: x in q ==> x in f && f[x] == s
    ensures Still(q, f, s) == q
  {
    if q != [] {
      var h := q[0];
      assert h in q;
      StillAll(q[1..], f, s);
      StillFirst(q, f, s);
      assert q == [q[0]] + q[1..];
    }
  }

  lemma {:induction false} StillSame(q: seq<int>, f: Sizes, f': Sizes, s: int)
    requires forall x :: x in q ==> ((x in f && f[x] == s) <==> (x in f' && f'[x] == s))
    ensures Still(q, f, s) == Still(q, f', s)
  {
    if q != [] {
      var h := q[0];
      assert h in q;
      StillSame(q[1..], f, f', s);
      StillFirst(q, f, s);
      StillFirst(q, f', s);
    }
  }

  lemma {:induction false} StillWithout(q: seq<int>, p: int, f: Sizes, s: int)
    requires !(p in f && f[p] == s)
    ensures Still(TrieQueues.Without(q, p), f, s) == Still(q, f, s)
  {
    if q != [] && q[0] != p {
      StillWithout(q[1..], p, f, s);
      assert TrieQueues.Without(q, p)[1..] == TrieQueues.Without(q[1..], p);
    }
  }

  lemma {:induction false} StillRemoved(q: seq<int>, k: nat, f: Sizes, s: int)
    requires k < |q| && !(q[k] in f && f[q[k]] == s)
    ensures Still(RemoveAt(q, k), f, s) == Still(q, f, s)
  {
    if k == 0 {
      assert RemoveAt(q, 0) == q[1..];
    } else {
      StillRemoved(q[1..], k - 1, f, s);
      assert RemoveAt(q, k)[1..] == RemoveAt(q[1..], k - 1);
    }
  }

  /** First those still in f, then those still in f'. */
  lemma {:induction false} StillTwice(q: seq<int>, f: Sizes, f': Sizes, s: int)
    requires forall x :: x in q && x in f' && f'[x] == s ==> x in f && f[x] == s
    ensures Still(Still(q, f, s), f', s) == Still(q, f', s)
  {
    if q != [] {
      var h := q[0];
      assert h in q;
      StillTwice(q[1..], f, f', s);
      StillFirst(q, f, s);
      StillFirst(q, f', s);
      var r := Still(q[1..], f, s);
      if q[0] in f && f[q[0]] == s {
        StillFirst([q[0]] + r, f', s);
        assert ([q[0]] + r)[1..] == r;
      }
    }
  }

  // ----- steps and their composition -----

  /** x left its queue. */
  lemma LeftQueue(mem: Mem, smallmap: nat, treemap: nat, b0: Bins, b: Bins, f: Sizes, p: int)
    requires IndexOk(mem, smallmap, treemap, b, f) && p !in f
    requires QueueLeft(b0, b, p)
    ensures Shrunk(b0, b, f)
  {
    hide IndexOk, InBin, Waits, Still;
    forall i: nat, s {:trigger Waits(b, i, s)} | InBin(i, s) ensures Waits(b, i, s) == Still(Waits(b0, i, s), f, s) {
      var q0, q := Waits(b0, i, s), Waits(b, i, s);
      assert Leaves(q0, q, p);
      forall x | x in q ensures x in f && f[x] == s { WaitsHold(mem, smallmap, treemap, b, f, i, s, x); }
      StillAll(q, f, s);
      if q == TrieQueues.Without(q0, p) {
        StillWithout(q0, p, f, s);
      } else if q != q0 {
        var k: nat :| k < |q0| && q0[k] == p && q == RemoveAt(q0, k);
        StillRemoved(q0, k, f, s);
      }
    }
  }

  lemma BinCounts(mem: Mem, smallmap: nat, treemap: nat, b: Bins, f: Sizes)
    requires IndexOk(mem, smallmap, treemap, b, f)
    ensures |b.small| == NSMALLBINS && |b.trees| == NTREEBINS
  {
  }

  /** unlink_small_chunk. */
  lemma SmallLeft(b0: Bins, b: Bins, j: nat, k: nat)
    requires j < |b0.small| && k < |b0.small[j]| && b == b0.(small := b0.small[j := RemoveAt(b0.small[j], k)])
    ensures QueueLeft(b0, b, b0.small[j][k])
  {
    hide RemoveAt, InTreeBin;
  }

  /** unlink_large_chunk. */
  lemma LargeLeft(mem: Mem, smallmap: nat, treemap: nat, b0: Bins, b: Bins, f: Sizes, j: nat, p: int)
    requires IndexOk(mem, smallmap, treemap, b0, f) && j < |b0.trees| && j < NTREEBINS && p in f && InTreeBin(j, f[p])
    requires b == b0.(trees := b0.trees[j := RemoveT(b0.trees[j], p)])
    ensures QueueLeft(b0, b, p)
  {
    hide Shape, Halved, Holds, Tries.Aligned, Queue, TreeBins, InTreeBin, RemoveT, DistinctRings;
    BinCounts(mem, smallmap, treemap, b0, f);
    TreeBinOf(mem, treemap, b0.trees, f, j);
    LinksDistinct(mem, TreeBinAt(j), b0.trees[j], j);
    forall i: nat, s {:trigger Waits(b, i, s)} | InBin(i, s) ensures Leaves(Waits(b0, i, s), Waits(b, i, s), p) {
      if i == j && s >= MIN_LARGE_SIZE { RemoveLeaves(b0.trees[j], f, p, Lo(j), Lo(j) + Bits.Pow2(Exp(j)), s); }
    }
  }

  /** insert_small_chunk. */
  lemma SmallQueued(b0: Bins, b: Bins, p: int, sp: int)
    requires 0 <= sp < MIN_LARGE_SIZE && sp % 8 == 0 && SmallIndex(sp) < |b0.small|
    requires b == b0.(small := b0.small[SmallIndex(sp) := [p] + b0.small[SmallIndex(sp)]])
    ensures Queued(b0, b, p, sp)
  {
    hide InTreeBin;
  }

  /** insert_large_chunk. */
  lemma LargeQueued(mem: Mem, smallmap: nat, treemap: nat, b0: Bins, b: Bins, f: Sizes, j: nat, p: int, sp: int)
    requires IndexOk(mem, smallmap, treemap, b0, f) && j < |b0.trees| && j < NTREEBINS && InTreeBin(j, sp)
        && sp >= MIN_LARGE_SIZE
    requires b == b0.(trees := b0.trees[j := InsertT(b0.trees[j], p, sp, Lo(j), Exp(j))])
    ensures Queued(b0, b, p, sp)
  {
    hide Shape, Halved, Holds, Tries.Aligned, Queue, TreeBins, InsertT;
    BinCounts(mem, smallmap, treemap, b0, f);
    TreeBinOf(mem, treemap, b0.trees, f, j);
    forall i: nat, s {:trigger Waits(b, i, s)} | InBin(i, s)
      ensures Waits(b, i, s) == if s == sp then Joined(Waits(b0, i, s), s, p) else Waits(b0, i, s)
    {
      if i == j && s >= MIN_LARGE_SIZE {
        InsertJoins(b0.trees[j], p, sp, Lo(j), Exp(j), Lo(j) + Bits.Pow2(Exp(j)), s);
      } else if s == sp {
        TreeBinsOrdered(i, j, s, s);
      }
    }
  }

  /** Nothing moved. */
  lemma Unmoved(mem: Mem, smallmap: nat, treemap: nat, b: Bins, f: Sizes)
    requires IndexOk(mem, smallmap, treemap, b, f)
    ensures Shrunk(b, b, f) && QueuesKept(b, b, f) && WaitsAre(b, f)
  {
    hide IndexOk, InBin, Waits, Still;
    forall i: nat, s, x {:trigger x in Waits(b, i, s)} | InBin(i, s)
      ensures x in Waits(b, i, s) <==> x in f && f[x] == s
    {
      WaitsHold(mem, smallmap, treemap, b, f, i, s, x);
    }
    forall i: nat, s {:trigger Waits(b, i, s)} | InBin(i, s) ensures Waits(b, i, s) == Still(Waits(b, i, s), f, s) {
      forall x | x in Waits(b, i, s) ensures x in f && f[x] == s {
        WaitsHold(mem, smallmap, treemap, b, f, i, s, x);
      }
      StillAll(Waits(b, i, s), f, s);
    }
  }

  lemma ShrunkKept(b0: Bins, b: Bins, f: Sizes)
    requires Shrunk(b0, b, f)
    ensures QueuesKept(b0, b, f)
  {
    hide InBin, Waits, Still;
  }

  ghost predicate Within(f: Sizes, f': Sizes) { forall x :: x in f' ==> x in f && f[x] == f'[x] }

  lemma ShrunkTwice(b0: Bins, b1: Bins, f1: Sizes, b2: Bins, f2: Sizes)
    requires Shrunk(b0, b1, f1) && Shrunk(b1, b2, f2) && Within(f1, f2)
    ensures Shrunk(b0, b2, f2)
  {
    hide InBin, Waits, Still;
    forall i: nat, s {:trigger Waits(b2, i, s)} | InBin(i, s)
      ensures Waits(b2, i, s) == Still(Waits(b0, i, s), f2, s)
    {
      assert Waits(b1, i, s) == Still(Waits(b0, i, s), f1, s);
      StillTwice(Waits(b0, i, s), f1, f2, s);
    }
  }

  /** Some left, then x, which had not been waiting there before, joined. */
  lemma ShrunkQueued(b0: Bins, f0: Sizes, b1: Bins, f1: Sizes, b2: Bins, x: int, sx: int)
    requires Shrunk(b0, b1, f1) && Queued(b1, b2, x, sx) && x !in f1
    requires WaitsAre(b0, f0) && !(x in f0 && f0[x] == sx)
    ensures QueuesKept(b0, b2, f1[x := sx])
  {
    hide InBin, Waits, Still;
    var f2 := f1[x := sx];
    forall i: nat, s {:trigger Waits(b2, i, s)} | InBin(i, s)
      ensures QueueKept(Waits(b0, i, s), Waits(b2, i, s), f2, s)
    {
      assert Waits(b1, i, s) == Still(Waits(b0, i, s), f1, s);
      assert s == sx ==> x !in Waits(b0, i, s);
      StillSame(Waits(b0, i, s), f1, f2, s);
    }
  }

  /** p left for good, then the queues went on. */
  lemma ShrunkThen(b0: Bins, f0: Sizes, b1: Bins, p: int, b2: Bins, f2: Sizes)
    requires Shrunk(b0, b1, f0 - {p}) && QueuesKept(b1, b2, f2) && WaitsAre(b0, f0) && p !in f2
    ensures QueuesKept(b0, b2, f2)
  {
    hide InBin, Waits, Still;
    forall i: nat, s {:trigger Waits(b2, i, s)} | InBin(i, s)
      ensures QueueKept(Waits(b0, i, s), Waits(b2, i, s), f2, s)
    {
      var f1 := f0 - {p};
      assert Waits(b1, i, s) == Still(Waits(b0, i, s), f1, s);
      assert QueueKept(Waits(b1, i, s), Waits(b2, i, s), f2, s);
      StillTwice(Waits(b0, i, s), f1, f2, s);
    }
  }
}
