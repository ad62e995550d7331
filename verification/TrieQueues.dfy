/** A tree bin as a map from sizes to queues: a freed chunk joins the end of the queue of its size, and
    the chunk a search returns is the front of one (src/mm/malloc.c:3677-3701, 3718-3723, 4459-4488). */
module TrieQueues {
  import opened Rings
  import opened Tries

  function Reversed(r: seq<int>): (q: seq<int>)
    ensures |q| == |r|
  {
    if r == [] then [] else Reversed(r[1..]) + [r[0]]
  }

  lemma {:induction false} ReversedAt(r: seq<int>, k: nat)
    requires k < |r|
    ensures Reversed(r)[k] == r[|r| - 1 - k]
  {
    if k < |r| - 1 { ReversedAt(r[1..], k); }
  }

  /** The chunks of a ring in the order they came: the node itself, then backwards around the ring. */
  function Order(r: seq<int>): (q: seq<int>)
    ensures |q| == |r|
  {
    if r == [] then [] else [r[0]] + Reversed(r[1..])
  }

  /** The place in the order of the j-th member of a ring of n. */
  function Place(j: nat, n: nat): int { if j == 0 then 0 else n - j }

  lemma OrderAt(r: seq<int>, j: nat)
    requires j < |r|
    ensures 0 <= Place(j, |r|) < |r| && Order(r)[Place(j, |r|)] == r[j]
  {
    if j > 0 { ReversedAt(r[1..], |r| - 1 - j); }
  }

  lemma OrderFrom(r: seq<int>, k: nat)
    requires k < |r|
    ensures 0 <= Place(k, |r|) < |r| && Order(r)[k] == r[Place(k, |r|)]
  {
    OrderAt(r, Place(k, |r|));
  }

  /** A new chunk is linked in behind the node, which puts it last. */
  lemma JoinsLast(r: seq<int>, x: int)
    requires |r| > 0
    ensures Order(Inserted(r, x)) == Order(r) + [x]
  {
    assert Inserted(r, x)[1..] == [x] + r[1..];
    assert ([x] + r[1..])[1..] == r[1..];
  }

  function DropAt(q: seq<int>, k: nat): seq<int>
    requires k < |q|
  {
    q[..k] + q[k + 1..]
  }

  /** Unlinking a member takes it out of the order and leaves the others as they are. */
  lemma LeavesOrder(r: seq<int>, k: nat)
    requires k < |r| && |r| > 1
    ensures 0 <= Place(k, |r|) < |r| && Order(Removed(r, k)) == DropAt(Order(r), Place(k, |r|))
  {
    hide Order, Removed;
    var r', n := Removed(r, k), |r|;
    OrderAt(r, k);
    RemovedTakesOut(r, k);
    forall j | 0 <= j < n - 1 ensures Order(r')[j] == DropAt(Order(r), Place(k, n))[j] {
      OrderFrom(r', j);
      OrderFrom(r, if j < Place(k, n) then j else j + 1);
    }
    assert |Order(r')| == n - 1;
  }

  /** The chunks of size s, the oldest first. */
  function Queue(t: Tree, s: int): seq<int> {
    if t.Nil? then []
    else if t.size == s then Order(t.ring)
    else if s < t.mid then Queue(t.left, s)
    else Queue(t.right, s)
  }

  lemma {:induction false} NoQueue(t: Tree, s: int)
    requires !HasSize(t, s)
    ensures Queue(t, s) == []
  {
    if t.Node? { if s < t.mid { NoQueue(t.left, s); } else { NoQueue(t.right, s); } }
  }

  lemma {:induction false} InReversed(r: seq<int>, a: int)
    ensures a in Reversed(r) <==> a in r
  {
    if r != [] {
      InReversed(r[1..], a);
      assert r == [r[0]] + r[1..];
    }
  }

  lemma InOrder(r: seq<int>, a: int)
    ensures a in Order(r) <==> a in r
  {
    if r != [] {
      InReversed(r[1..], a);
      assert r == [r[0]] + r[1..];
    }
  }

  /** Each chunk waits in the queue of its size, and nowhere else. */
  lemma {:induction false} QueueHolds(t: Tree, f: map<int, int>, lo: int, hi: int, s: int, a: int)
    requires Shape(t, lo, hi) && Holds(t, f)
    ensures a in Queue(t, s) <==> a in Nodes(t) && a in f && f[a] == s
    decreases t
  {
    if t.Node? {
      InOrder(t.ring, a);
      QueueHolds(t.left, f, lo, t.mid, s, a);
      QueueHolds(t.right, f, t.mid, hi, s, a);
      if a in Nodes(t.left) { HoldsAt(t.left, f, a); SizeInRange(t.left, lo, t.mid, f[a]); }
      if a in Nodes(t.right) { HoldsAt(t.right, f, a); SizeInRange(t.right, t.mid, hi, f[a]); }
    }
  }

  /** insert_large_chunk: x joins the queue of its size last; the other queues stay. */
  lemma {:induction false} InsertJoins(t: Tree, x: int, s: int, lo: int, e: nat, hi: int, s': int)
    requires Shape(t, lo, hi) && Halved(t, lo, e)
    ensures Queue(InsertT(t, x, s, lo, e), s') == if s' == s then Queue(t, s) + [x] else Queue(t, s')
    decreases t
  {
    if t.Node? {
      if t.size == s {
        JoinsLast(t.ring, x);
      } else if s < t.mid {
        InsertJoins(t.left, x, s, lo, e - 1, t.mid, s');
      } else {
        InsertJoins(t.right, x, s, t.mid, e - 1, hi, s');
      }
    }
  }

  /** The leaf that replaces a removed node takes its queue along. */
  lemma {:induction false} DropQueue(t: Tree, lo: int, hi: int, s: int)
    requires t.Node? && Shape(t, lo, hi)
    ensures Queue(DropLeaf(t), s) == if s == RightLeaf(t).size then [] else Queue(t, s)
    ensures Queue(t, RightLeaf(t).size) == Order(RightLeaf(t).ring)
    decreases t
  {
    LeafSize(t, lo, hi);
    if t.right.Node? {
      LeafSize(t.right, t.mid, hi);
      DropQueue(t.right, t.mid, hi, s);
    } else if t.left.Node? {
      LeafSize(t.left, lo, t.mid);
      DropQueue(t.left, lo, t.mid, s);
    }
    if s == RightLeaf(t).size { NoQueue(DropLeaf(t), s); }
  }

  /** The queue without x. */
  function Without(q: seq<int>, x: int): seq<int> {
    if q == [] then [] else if q[0] == x then q[1..] else [q[0]] + Without(q[1..], x)
  }

  lemma {:induction false} WithoutAt(q: seq<int>, k: nat)
    requires k < |q| && forall j :: 0 <= j < k ==> q[j] != q[k]
    ensures Without(q, q[k]) == DropAt(q, k)
  {
    if k > 0 {
      WithoutAt(q[1..], k - 1);
      assert DropAt(q, k) == [q[0]] + DropAt(q[1..], k - 1);
    }
  }

  lemma OrderDistinct(r: seq<int>, i: nat, j: nat)
    requires DistinctRing(r) && i < j < |r|
    ensures Order(r)[i] != Order(r)[j]
  {
    OrderFrom(r, i);
    OrderFrom(r, j);
  }

  lemma RingWithout(r: seq<int>, x: int)
    requires x in r && |r| > 1 && DistinctRing(r)
    ensures Order(Removed(r, IndexOf(r, x))) == Without(Order(r), x)
  {
    var k := IndexOf(r, x);
    var p := Place(k, |r|);
    LeavesOrder(r, k);
    OrderAt(r, k);
    forall j | 0 <= j < p ensures Order(r)[j] != Order(r)[p] { OrderDistinct(r, j, p); }
    WithoutAt(Order(r), p);
  }

  lemma HereQueue(t: Tree, x: int, lo: int, hi: int, s: int)
    requires t.Node? && x in t.ring && Shape(t, lo, hi) && DistinctRing(t.ring)
    ensures Queue(RemoveHere(t, x), s) == if s == t.size then Without(Queue(t, s), x) else Queue(t, s)
  {
    NoQueue(t.left, t.size);
    NoQueue(t.right, t.size);
    if |t.ring| > 1 {
      RingWithout(t.ring, x);
    } else {
      assert t.ring == [x] && Order([x]) == [x];
      if t.right.Node? {
        LeafSize(t.right, t.mid, hi);
        DropQueue(t.right, t.mid, hi, s);
      } else if t.left.Node? {
        LeafSize(t.left, lo, t.mid);
        DropQueue(t.left, lo, t.mid, s);
      }
    }
  }

  /** unlink_large_chunk: x leaves its queue; the order of all others stays, also when a leaf takes the
      place of an inner node. */
  lemma {:induction false} RemoveLeaves(t: Tree, f: map<int, int>, x: int, lo: int, hi: int, s: int)
    requires x in Nodes(t) && Shape(t, lo, hi) && Holds(t, f) && DistinctRings(t)
    ensures x in f && Queue(RemoveT(t, x), s) == if s == f[x] then Without(Queue(t, s), x) else Queue(t, s)
    decreases t
  {
    HoldsAt(t, f, x);
    if x in t.ring {
      HereQueue(t, x, lo, hi, s);
    } else if x in Nodes(t.left) {
      HoldsAt(t.left, f, x);
      SizeInRange(t.left, lo, t.mid, f[x]);
      RemoveLeaves(t.left, f, x, lo, t.mid, s);
    } else {
      HoldsAt(t.right, f, x);
      SizeInRange(t.right, t.mid, hi, f[x]);
      RemoveLeaves(t.right, f, x, t.mid, hi, s);
    }
  }
}
