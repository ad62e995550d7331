/** Circular doubly linked lists threaded through chunk words: a small bin with its header, or the
    chunks of one size in a tree bin (src/mm/malloc.c:3586-3705, 3707-3757). */
module Rings {
  import opened Memory

  function Succ(j: nat, n: nat): nat { if j + 1 >= n then 0 else j + 1 }

  function Pred(j: nat, n: nat): int { if j == 0 then n - 1 else j - 1 }

  /** Addresses far enough apart that the fd word of one is never the bk word of another. */
  ghost predicate Spread(r: seq<int>) {
    forall j, k :: 0 <= j < k < |r| ==> r[j] != r[k] && r[j] != r[k] + 8 && r[k] != r[j] + 8
  }

  /** r, in fd order, is one ring: fd leads to the successor and bk to the predecessor. */
  ghost predicate Ring(mem: Mem, r: seq<int>) {
    && |r| > 0
    && Spread(r)
    && (forall j :: 0 <= j < |r| ==> Rd(mem, r[j] + FD) == r[Succ(j, |r|)])
    && (forall j :: 0 <= j < |r| ==> Rd(mem, r[j] + BK) == r[Pred(j, |r|)])
  }

  /** The ring after x is linked in behind its first member. */
  function Inserted(r: seq<int>, x: int): seq<int>
    requires |r| > 0
  {
    [r[0], x] + r[1..]
  }

  /** The ring without its k-th member; when that was the first, its bk neighbour becomes first. */
  function Removed(r: seq<int>, k: nat): seq<int>
    requires k < |r| && |r| > 1
  {
    if k == 0 then [r[|r| - 1]] + r[1..|r| - 1] else r[..k] + r[k + 1..]
  }

  /** mem' differs from mem, on the links of r, by x linked in after r[0]. */
  ghost predicate LinkedIn(mem: Mem, mem': Mem, r: seq<int>, x: int)
    requires |r| > 0
  {
    && Rd(mem', x + FD) == r[Succ(0, |r|)]
    && Rd(mem', x + BK) == r[0]
    && (forall o :: 0 <= o < |r| ==> Rd(mem', r[o] + FD) == if o == 0 then x else Rd(mem, r[o] + FD))
    && (forall o :: 0 <= o < |r| ==> Rd(mem', r[o] + BK) == if o == Succ(0, |r|) then x else Rd(mem, r[o] + BK))
  }

  /** mem' differs from mem, on the links of r, by b and f linked to each other. */
  ghost predicate Bypassed(mem: Mem, mem': Mem, r: seq<int>, b: int, f: int) {
    && (forall o :: 0 <= o < |r| ==> Rd(mem', r[o] + FD) == if r[o] == b then f else Rd(mem, r[o] + FD))
    && (forall o :: 0 <= o < |r| ==> Rd(mem', r[o] + BK) == if r[o] == f then b else Rd(mem, r[o] + BK))
  }

  lemma RingFrame(mem: Mem, mem': Mem, r: seq<int>)
    requires Ring(mem, r)
    requires forall j :: 0 <= j < |r| ==>
        Rd(mem', r[j] + FD) == Rd(mem, r[j] + FD) && Rd(mem', r[j] + BK) == Rd(mem, r[j] + BK)
    ensures Ring(mem', r)
  {
  }

  lemma Singleton(mem: Mem, x: int)
    requires Rd(mem, x + FD) == x && Rd(mem, x + BK) == x
    ensures Ring(mem, [x])
  {
  }

  lemma SpreadPair(r: seq<int>, i: nat, j: nat)
    requires Spread(r) && i < |r| && j < |r|
    ensures i != j ==> r[i] != r[j] && r[i] != r[j] + 8 && r[j] != r[i] + 8
  {
  }

  // ----- linking in -----

  /** r' is r with x put at position 1. */
  ghost predicate PutSecond(r: seq<int>, r': seq<int>, x: int) {
    && |r| > 0 && |r'| == |r| + 1
    && r'[0] == r[0] && r'[1] == x
    && forall j :: 2 <= j < |r'| ==> r'[j] == r[j - 1]
  }

  lemma InsertedFd(mem: Mem, mem': Mem, r: seq<int>, r': seq<int>, x: int, j: nat)
    requires Ring(mem, r) && LinkedIn(mem, mem', r, x) && PutSecond(r, r', x) && j < |r'|
    ensures Rd(mem', r'[j] + FD) == r'[Succ(j, |r'|)]
  {
    if j >= 2 {
      assert r'[j] == r[j - 1] && Rd(mem, r[j - 1] + FD) == r[Succ(j - 1, |r|)];
    }
  }

  lemma InsertedBk(mem: Mem, mem': Mem, r: seq<int>, r': seq<int>, x: int, j: nat)
    requires Ring(mem, r) && LinkedIn(mem, mem', r, x) && PutSecond(r, r', x) && j < |r'|
    ensures Rd(mem', r'[j] + BK) == r'[Pred(j, |r'|)]
  {
    if j >= 2 {
      assert r'[j] == r[j - 1] && Rd(mem, r[j - 1] + BK) == r[Pred(j - 1, |r|)];
    } else if j == 0 {
      assert Rd(mem, r[0] + BK) == r[Pred(0, |r|)];
    }
  }

  lemma SpreadPutSecond(r: seq<int>, r': seq<int>, x: int)
    requires PutSecond(r, r', x) && Spread(r)
    requires forall j :: 0 <= j < |r| ==> r[j] != x && r[j] != x + 8 && x != r[j] + 8
    ensures Spread(r')
  {
    forall j, k | 0 <= j < k < |r'| ensures r'[j] != r'[k] && r'[j] != r'[k] + 8 && r'[k] != r'[j] + 8 {
      if j != 1 && k != 1 {
        SpreadPair(r, if j == 0 then 0 else j - 1, k - 1);
      }
    }
  }

  /** Linking x in after the first member of a ring gives the ring with x second. */
  lemma InsertRing(mem: Mem, mem': Mem, r: seq<int>, r': seq<int>, x: int)
    requires Ring(mem, r) && LinkedIn(mem, mem', r, x) && PutSecond(r, r', x)
    requires forall j :: 0 <= j < |r| ==> r[j] != x && r[j] != x + 8 && x != r[j] + 8
    ensures Ring(mem', r')
  {
    SpreadPutSecond(r, r', x);
    forall j | 0 <= j < |r'| ensures Rd(mem', r'[j] + FD) == r'[Succ(j, |r'|)] {
      InsertedFd(mem, mem', r, r', x, j);
    }
    forall j | 0 <= j < |r'| ensures Rd(mem', r'[j] + BK) == r'[Pred(j, |r'|)] {
      InsertedBk(mem, mem', r, r', x, j);
    }
  }

  // ----- unlinking -----

  /** Where the j-th member of Removed(r, k) was in r, for a ring of n. */
  function WasAt(k: nat, j: nat, n: nat): int {
    if k == 0 then (if j == 0 then n - 1 else j) else if j < k then j else j + 1
  }

  /** r' is r without its k-th member, in the order of Removed. */
  ghost predicate TakenOut(r: seq<int>, r': seq<int>, k: nat) {
    && |r| > 1 && k < |r| && |r'| == |r| - 1
    && forall j :: 0 <= j < |r'| ==> 0 <= WasAt(k, j, |r|) < |r| && r'[j] == r[WasAt(k, j, |r|)]
  }

  lemma RemovedTakesOut(r: seq<int>, k: nat)
    requires k < |r| && |r| > 1
    ensures TakenOut(r, Removed(r, k), k)
  {
  }

  lemma SpreadTakenOut(r: seq<int>, r': seq<int>, k: nat)
    requires TakenOut(r, r', k) && Spread(r)
    ensures Spread(r')
  {
    forall i, j | 0 <= i < j < |r'| ensures r'[i] != r'[j] && r'[i] != r'[j] + 8 && r'[j] != r'[i] + 8 {
      SpreadPair(r, WasAt(k, i, |r|), WasAt(k, j, |r|));
    }
  }

  /** Positions around the removed member close up. */
  lemma WasAtNext(k: nat, j: nat, n: nat)
    requires n > 1 && k < n && j < n - 1
    ensures WasAt(k, Succ(j, n - 1), n) == if WasAt(k, j, n) == Pred(k, n) then Succ(k, n) else Succ(WasAt(k, j, n), n)
    ensures WasAt(k, Pred(j, n - 1), n) == if WasAt(k, j, n) == Succ(k, n) then Pred(k, n) else Pred(WasAt(k, j, n), n)
  {
  }

  lemma BypassedAt(mem: Mem, mem': Mem, r: seq<int>, k: nat, o: nat)
    requires Ring(mem, r) && |r| > 1 && k < |r| && o < |r|
    requires Bypassed(mem, mem', r, r[Pred(k, |r|)], r[Succ(k, |r|)])
    ensures Rd(mem', r[o] + FD) == if o == Pred(k, |r|) then r[Succ(k, |r|)] else r[Succ(o, |r|)]
    ensures Rd(mem', r[o] + BK) == if o == Succ(k, |r|) then r[Pred(k, |r|)] else r[Pred(o, |r|)]
  {
    SpreadPair(r, o, Pred(k, |r|));
    SpreadPair(r, o, Succ(k, |r|));
    assert Rd(mem, r[o] + FD) == r[Succ(o, |r|)] && Rd(mem, r[o] + BK) == r[Pred(o, |r|)];
  }

  lemma RemovedLinks(mem: Mem, mem': Mem, r: seq<int>, r': seq<int>, k: nat, j: nat)
    requires Ring(mem, r) && TakenOut(r, r', k) && j < |r'|
    requires Bypassed(mem, mem', r, r[Pred(k, |r|)], r[Succ(k, |r|)])
    ensures Rd(mem', r'[j] + FD) == r'[Succ(j, |r'|)] && Rd(mem', r'[j] + BK) == r'[Pred(j, |r'|)]
  {
    WasAtNext(k, j, |r|);
    BypassedAt(mem, mem', r, k, WasAt(k, j, |r|));
  }

  /** Bypassing the k-th member of a ring gives the ring without it. */
  lemma RemoveRing(mem: Mem, mem': Mem, r: seq<int>, r': seq<int>, k: nat)
    requires Ring(mem, r) && TakenOut(r, r', k)
    requires Bypassed(mem, mem', r, r[Pred(k, |r|)], r[Succ(k, |r|)])
    ensures Ring(mem', r')
  {
    SpreadTakenOut(r, r', k);
    forall j | 0 <= j < |r'| ensures Rd(mem', r'[j] + FD) == r'[Succ(j, |r'|)]
        && Rd(mem', r'[j] + BK) == r'[Pred(j, |r'|)] {
      RemovedLinks(mem, mem', r, r', k, j);
    }
  }

  /** b and f are the neighbours of the k-th member; they coincide only in a ring of at most two. */
  lemma Neighbours(mem: Mem, r: seq<int>, k: nat)
    requires Ring(mem, r) && k < |r|
    ensures Rd(mem, r[k] + FD) == r[Succ(k, |r|)] && Rd(mem, r[k] + BK) == r[Pred(k, |r|)]
    ensures Rd(mem, r[Succ(k, |r|)] + BK) == r[k] && Rd(mem, r[Pred(k, |r|)] + FD) == r[k]
    ensures r[Pred(k, |r|)] == r[Succ(k, |r|)] <==> |r| <= 2
    ensures r[k] == r[Succ(k, |r|)] <==> |r| == 1
    ensures r[k] == r[Pred(k, |r|)] <==> |r| == 1
  {
    var n := |r|;
    SpreadPair(r, Pred(k, n), Succ(k, n));
    SpreadPair(r, k, Succ(k, n));
    SpreadPair(r, k, Pred(k, n));
    assert Pred(Succ(k, n), n) == k && Succ(Pred(k, n), n) == k;
  }
}
