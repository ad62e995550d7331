/** The bitwise tries that index large free chunks by size (src/mm/malloc.c:2348-2387, 3656-3793),
    as values: a node holds the ring of chunks of one size, and `mid` is the size that divides its
    left subtree from its right one. */
module Tries {
  import opened Bits
  import opened Rings

  datatype Tree = Nil | Node(ring: seq<int>, size: int, mid: int, left: Tree, right: Tree)

  function Root(t: Tree): int {
    if t.Nil? || |t.ring| == 0 then 0 else t.ring[0]
  }

  function Members(ring: seq<int>): (m: set<int>)
    ensures forall a :: a in m <==> a in ring
  {
    if ring == [] then {} else {ring[0]} + Members(ring[1..])
  }

  function Nodes(t: Tree): set<int> {
    if t.Nil? then {} else Members(t.ring) + Nodes(t.left) + Nodes(t.right)
  }

  predicate HasSize(t: Tree, s: int) {
    t.Node? && (t.size == s || HasSize(t.left, s) || HasSize(t.right, s))
  }

  /** t is a trie for the sizes in [lo, hi): sizes below mid go left, the others right, and each
      size occurs at one node only. */
  ghost predicate Shape(t: Tree, lo: int, hi: int)
    decreases t
  {
    t.Node? ==>
      && |t.ring| > 0
      && lo <= t.size < hi && lo <= t.mid <= hi
      && !HasSize(t.left, t.size) && !HasSize(t.right, t.size)
      && Shape(t.left, lo, t.mid)
      && Shape(t.right, t.mid, hi)
  }

  /** The dividing sizes are those of a bitwise trie over [lo, lo + 2^e): each halves its interval,
      and an interval of 16 bytes, which holds one multiple of 16 only, is not divided further. */
  ghost predicate Halved(t: Tree, lo: int, e: nat)
    decreases t
  {
    t.Node? ==>
      && e >= 4
      && t.mid == lo + Pow2(e - 1)
      && (e == 4 ==> t.left.Nil? && t.right.Nil?)
      && Halved(t.left, lo, e - 1)
      && Halved(t.right, t.mid, e - 1)
  }

  ghost predicate OneSize(ring: seq<int>, f: map<int, int>, s: int) {
    forall a :: a in ring ==> a in f && f[a] == s
  }

  /** Every chunk sits at the node of its own size, where f gives the sizes. */
  ghost predicate Holds(t: Tree, f: map<int, int>) {
    t.Node? ==> OneSize(t.ring, f, t.size) && Holds(t.left, f) && Holds(t.right, f)
  }

  lemma {:induction false} SizeInRange(t: Tree, lo: int, hi: int, s: int)
    requires Shape(t, lo, hi) && HasSize(t, s)
    ensures lo <= s < hi
    decreases t
  {
    if t.size != s {
      if HasSize(t.left, s) { SizeInRange(t.left, lo, t.mid, s); } else { SizeInRange(t.right, t.mid, hi, s); }
    }
  }

  lemma {:induction false} HoldsAt(t: Tree, f: map<int, int>, a: int)
    requires Holds(t, f) && a in Nodes(t)
    ensures a in f && HasSize(t, f[a])
  {
    if a !in t.ring {
      if a in Nodes(t.left) { HoldsAt(t.left, f, a); } else { HoldsAt(t.right, f, a); }
    }
  }

  lemma {:induction false} HoldsFrame(t: Tree, f: map<int, int>, f': map<int, int>)
    requires Holds(t, f)
    requires forall a :: a in Nodes(t) ==> a in f ==> a in f' && f'[a] == f[a]
    ensures Holds(t, f')
  {
    if t.Node? {
      HoldsFrame(t.left, f, f');
      HoldsFrame(t.right, f, f');
    }
  }

  function Max(a: nat, b: nat): nat { if a > b then a else b }

  function Height(t: Tree): nat {
    if t.Nil? then 0 else 1 + Max(Height(t.left), Height(t.right))
  }

  /** A trie over an interval of 2^e bytes is at most e - 3 nodes deep. */
  lemma {:induction false} HeightBound(t: Tree, lo: int, e: nat)
    requires Halved(t, lo, e)
    ensures Height(t) <= (if e < 4 then 0 else e - 3)
    decreases t
  {
    if t.Node? {
      HeightBound(t.left, lo, e - 1);
      HeightBound(t.right, t.mid, e - 1);
    }
  }

  // ----- insertion -----

  /** insert_large_chunk on values: x of size s joins the ring of its size, or becomes a new leaf. */
  function InsertT(t: Tree, x: int, s: int, lo: int, e: nat): Tree
    decreases t
  {
    if t.Nil? then Node([x], s, lo + (if e == 0 then 0 else Pow2(e - 1)), Nil, Nil)
    else if |t.ring| == 0 || e == 0 then t
    else if t.size == s then t.(ring := Inserted(t.ring, x))
    else if s < t.mid then t.(left := InsertT(t.left, x, s, lo, e - 1))
    else t.(right := InsertT(t.right, x, s, t.mid, e - 1))
  }

  lemma InInserted(r: seq<int>, x: int)
    requires |r| > 0
    ensures forall a :: a in Inserted(r, x) <==> a in r || a == x
  {
    var r' := Inserted(r, x);
    assert r == [r[0]] + r[1..];
    assert r' == [r[0]] + [x] + r[1..];
  }

  lemma MembersInserted(r: seq<int>, x: int)
    requires |r| > 0
    ensures Members(Inserted(r, x)) == Members(r) + {x}
  {
    InInserted(r, x);
  }

  lemma {:induction false} InsertSizes(t: Tree, x: int, s: int, lo: int, e: nat, s': int)
    requires HasSize(InsertT(t, x, s, lo, e), s')
    ensures HasSize(t, s') || s' == s
    decreases t
  {
    if t.Node? && |t.ring| > 0 && e > 0 && t.size != s {
      if s < t.mid {
        if HasSize(InsertT(t.left, x, s, lo, e - 1), s') { InsertSizes(t.left, x, s, lo, e - 1, s'); }
      } else {
        if HasSize(InsertT(t.right, x, s, t.mid, e - 1), s') { InsertSizes(t.right, x, s, t.mid, e - 1, s'); }
      }
    }
  }

  /** Insertion keeps the trie a trie over the same interval. */
  lemma {:induction false} InsertShape(t: Tree, x: int, s: int, lo: int, hi: int, e: nat)
    requires Shape(t, lo, hi) && lo <= s < hi
    requires Halved(t, lo, e) && hi == lo + Pow2(e)
    ensures Shape(InsertT(t, x, s, lo, e), lo, hi)
    decreases t
  {
    if t.Node? && t.size != s {
      if s < t.mid {
        InsertShape(t.left, x, s, lo, t.mid, e - 1);
        if HasSize(InsertT(t.left, x, s, lo, e - 1), t.size) { InsertSizes(t.left, x, s, lo, e - 1, t.size); }
      } else {
        InsertShape(t.right, x, s, t.mid, hi, e - 1);
        if HasSize(InsertT(t.right, x, s, t.mid, e - 1), t.size) { InsertSizes(t.right, x, s, t.mid, e - 1, t.size); }
      }
    }
  }

  /** ... with the same dividing sizes ... */
  lemma {:induction false} InsertHalved(t: Tree, x: int, s: int, lo: int, hi: int, e: nat)
    requires Shape(t, lo, hi) && Aligned(t) && s % 16 == 0 && lo <= s < hi
    requires Halved(t, lo, e) && hi == lo + Pow2(e) && e >= 4 && lo % 16 == 0
    ensures Halved(InsertT(t, x, s, lo, e), lo, e)
    ensures Aligned(InsertT(t, x, s, lo, e))
    decreases t
  {
    if t.Node? && t.size != s {
      Narrow(lo, e, s, t.size);
      if s < t.mid {
        InsertHalved(t.left, x, s, lo, t.mid, e - 1);
      } else {
        InsertHalved(t.right, x, s, t.mid, hi, e - 1);
      }
    }
  }

  ghost predicate Aligned(t: Tree) {
    t.Node? ==> t.size % 16 == 0 && Aligned(t.left) && Aligned(t.right)
  }

  /** Two different multiples of 16 cannot share an interval of 16, and halves stay aligned. */
  lemma Narrow(lo: int, e: nat, s: int, s': int)
    requires lo % 16 == s % 16 == s' % 16 == 0 && s != s'
    requires lo <= s < lo + Pow2(e) && lo <= s' < lo + Pow2(e) && e >= 4
    ensures e > 4 && (lo + Pow2(e - 1)) % 16 == 0
  {
    assert Pow2(4) == 16;
    if e > 4 { Pow2Add(4, e - 5); }
  }

  /** ... and adds exactly x, at the node of its size. */
  lemma {:induction false} InsertHolds(t: Tree, f: map<int, int>, x: int, s: int, lo: int, hi: int, e: nat)
    requires Shape(t, lo, hi) && Halved(t, lo, e) && Holds(t, f) && x in f && f[x] == s
    ensures Holds(InsertT(t, x, s, lo, e), f)
    ensures Nodes(InsertT(t, x, s, lo, e)) == Nodes(t) + {x}
    decreases t
  {
    hide Pow2, Inserted;
    if t.Node? {
      if t.size == s {
        InInserted(t.ring, x);
        MembersInserted(t.ring, x);
      } else if s < t.mid {
        InsertHolds(t.left, f, x, s, lo, t.mid, e - 1);
      } else {
        InsertHolds(t.right, f, x, s, t.mid, hi, e - 1);
      }
    }
  }

  // ----- removal -----

  /** The leaf reached by going right where possible and left otherwise. */
  function RightLeaf(t: Tree): (q: Tree)
    requires t.Node?
    ensures q.Node?
  {
    if t.right.Node? then RightLeaf(t.right) else if t.left.Node? then RightLeaf(t.left) else t
  }

  /** The trie without that leaf. */
  function DropLeaf(t: Tree): Tree
    requires t.Node?
  {
    if t.right.Node? then t.(right := DropLeaf(t.right))
    else if t.left.Node? then t.(left := DropLeaf(t.left))
    else Nil
  }

  function IndexOf(r: seq<int>, x: int): (k: nat)
    requires x in r
    ensures k < |r| && r[k] == x
  {
    if r[0] == x then 0 else 1 + IndexOf(r[1..], x)
  }

  /** unlink_large_chunk on values, at the node holding x: x leaves its ring, or, when it was alone,
      its place is taken by the rightmost leaf below it. */
  function RemoveHere(t: Tree, x: int): Tree
    requires t.Node? && x in t.ring
  {
    if |t.ring| > 1 then t.(ring := Removed(t.ring, IndexOf(t.ring, x)))
    else if t.right.Node? then
      var q := RightLeaf(t.right);
      Node(q.ring, q.size, t.mid, t.left, DropLeaf(t.right))
    else if t.left.Node? then
      var q := RightLeaf(t.left);
      Node(q.ring, q.size, t.mid, DropLeaf(t.left), t.right)
    else Nil
  }

  function RemoveT(t: Tree, x: int): Tree {
    if t.Nil? then t
    else if x in t.ring then RemoveHere(t, x)
    else if x in Nodes(t.left) then t.(left := RemoveT(t.left, x))
    else t.(right := RemoveT(t.right, x))
  }

  lemma {:induction false} DropSizes(t: Tree, s: int)
    requires t.Node? && HasSize(DropLeaf(t), s)
    ensures HasSize(t, s)
  {
    if t.right.Node? {
      if t.size != s && !HasSize(t.left, s) { DropSizes(t.right, s); }
    } else if t.left.Node? {
      if t.size != s { DropSizes(t.left, s); }
    }
  }

  lemma {:induction false} LeafSize(t: Tree, lo: int, hi: int)
    requires t.Node? && Shape(t, lo, hi)
    ensures lo <= RightLeaf(t).size < hi && HasSize(t, RightLeaf(t).size)
    ensures |RightLeaf(t).ring| > 0
    ensures !HasSize(DropLeaf(t), RightLeaf(t).size)
    decreases t
  {
    if t.right.Node? {
      LeafSize(t.right, t.mid, hi);
      if HasSize(t.left, RightLeaf(t.right).size) { SizeInRange(t.left, lo, t.mid, RightLeaf(t.right).size); }
    } else if t.left.Node? {
      LeafSize(t.left, lo, t.mid);
    }
  }

  lemma {:induction false} DropShape(t: Tree, lo: int, hi: int)
    requires t.Node? && Shape(t, lo, hi)
    ensures Shape(DropLeaf(t), lo, hi)
    decreases t
  {
    if t.right.Node? {
      DropShape(t.right, t.mid, hi);
      if HasSize(DropLeaf(t.right), t.size) { DropSizes(t.right, t.size); }
    } else if t.left.Node? {
      DropShape(t.left, lo, t.mid);
      if HasSize(DropLeaf(t.left), t.size) { DropSizes(t.left, t.size); }
    }
  }

  lemma {:induction false} DropHalved(t: Tree, lo: int, e: nat)
    requires t.Node? && Halved(t, lo, e) && Aligned(t)
    ensures Halved(DropLeaf(t), lo, e) && Aligned(DropLeaf(t)) && RightLeaf(t).size % 16 == 0
    decreases t
  {
    if t.right.Node? {
      DropHalved(t.right, t.mid, e - 1);
    } else if t.left.Node? {
      DropHalved(t.left, lo, e - 1);
    }
  }

  lemma {:induction false} DropHolds(t: Tree, f: map<int, int>)
    requires t.Node? && Holds(t, f)
    ensures Holds(DropLeaf(t), f) && OneSize(RightLeaf(t).ring, f, RightLeaf(t).size)
    ensures Nodes(t) == Nodes(DropLeaf(t)) + Members(RightLeaf(t).ring)
  {
    if t.right.Node? {
      DropHolds(t.right, f);
    } else if t.left.Node? {
      DropHolds(t.left, f);
    }
  }

  lemma {:induction false} RemoveSizes(t: Tree, x: int, s: int)
    requires HasSize(RemoveT(t, x), s)
    requires x in Nodes(t)
    ensures HasSize(t, s)
  {
    if x in t.ring {
      if |t.ring| == 1 {
        if t.right.Node? {
          LeafSizeIn(t.right);
          if HasSize(DropLeaf(t.right), s) { DropSizes(t.right, s); }
        } else if t.left.Node? {
          LeafSizeIn(t.left);
          if HasSize(DropLeaf(t.left), s) { DropSizes(t.left, s); }
        }
      }
    } else if x in Nodes(t.left) {
      if t.size != s && !HasSize(t.right, s) { RemoveSizes(t.left, x, s); }
    } else {
      if t.size != s && !HasSize(t.left, s) { RemoveSizes(t.right, x, s); }
    }
  }

  lemma {:induction false} LeafSizeIn(t: Tree)
    requires t.Node?
    ensures HasSize(t, RightLeaf(t).size)
  {
    if t.right.Node? { LeafSizeIn(t.right); } else if t.left.Node? { LeafSizeIn(t.left); }
  }

  lemma RemoveHereShape(t: Tree, x: int, lo: int, hi: int)
    requires t.Node? && x in t.ring && Shape(t, lo, hi)
    ensures Shape(RemoveHere(t, x), lo, hi)
  {
    if |t.ring| == 1 {
      if t.right.Node? {
        LeafSize(t.right, t.mid, hi);
        DropShape(t.right, t.mid, hi);
        if HasSize(t.left, RightLeaf(t.right).size) { SizeInRange(t.left, lo, t.mid, RightLeaf(t.right).size); }
      } else if t.left.Node? {
        LeafSize(t.left, lo, t.mid);
        DropShape(t.left, lo, t.mid);
      }
    }
  }

  /** Removal keeps the trie a trie over the same interval. */
  lemma {:induction false} RemoveShape(t: Tree, x: int, lo: int, hi: int)
    requires Shape(t, lo, hi) && x in Nodes(t)
    ensures Shape(RemoveT(t, x), lo, hi)
    decreases t
  {
    if x in t.ring {
      RemoveHereShape(t, x, lo, hi);
    } else if x in Nodes(t.left) {
      RemoveShape(t.left, x, lo, t.mid);
      if HasSize(RemoveT(t.left, x), t.size) { RemoveSizes(t.left, x, t.size); }
    } else {
      RemoveShape(t.right, x, t.mid, hi);
      if HasSize(RemoveT(t.right, x), t.size) { RemoveSizes(t.right, x, t.size); }
    }
  }

  lemma RemoveHereHalved(t: Tree, x: int, lo: int, e: nat)
    requires Halved(t, lo, e) && Aligned(t) && t.Node? && x in t.ring
    ensures Halved(RemoveHere(t, x), lo, e) && Aligned(RemoveHere(t, x))
  {
    hide Pow2, DropLeaf, RightLeaf;
    if t.right.Node? {
      DropHalved(t.right, t.mid, e - 1);
    } else if t.left.Node? {
      DropHalved(t.left, lo, e - 1);
    }
  }

  lemma {:induction false} RemoveHalved(t: Tree, x: int, lo: int, e: nat)
    requires Halved(t, lo, e) && Aligned(t) && x in Nodes(t)
    ensures Halved(RemoveT(t, x), lo, e) && Aligned(RemoveT(t, x))
    decreases t
  {
    hide Pow2, DropLeaf, RightLeaf, RemoveHere;
    if x in t.ring {
      RemoveHereHalved(t, x, lo, e);
    } else if x in Nodes(t.left) {
      RemoveHalved(t.left, x, lo, e - 1);
    } else {
      RemoveHalved(t.right, x, t.mid, e - 1);
    }
  }

  /** No address occurs twice in a ring. */
  ghost predicate DistinctRing(r: seq<int>) {
    forall j, k :: 0 <= j < k < |r| ==> r[j] != r[k]
  }

  ghost predicate DistinctRings(t: Tree) {
    t.Node? ==> DistinctRing(t.ring) && DistinctRings(t.left) && DistinctRings(t.right)
  }

  lemma InRemoved(r: seq<int>, x: int)
    requires x in r && |r| > 1 && DistinctRing(r)
    ensures forall a :: a in Removed(r, IndexOf(r, x)) <==> a in r && a != x
  {
    var k := IndexOf(r, x);
    var r' := Removed(r, k);
    forall a | a in r && a != x ensures a in r' {
      var j :| 0 <= j < |r| && r[j] == a;
      if k == 0 {
        if j == |r| - 1 { assert r'[0] == a; } else { assert r'[j] == a; }
      } else {
        assert r'[if j < k then j else j - 1] == a;
      }
    }
    forall a | a in r' ensures a in r && a != x {
      var j :| 0 <= j < |r'| && r'[j] == a;
      RemovedTakesOut(r, k);
      assert r[WasAt(k, j, |r|)] == a && WasAt(k, j, |r|) != k;
    }
  }

  lemma RemoveHereHolds(t: Tree, f: map<int, int>, x: int)
    requires t.Node? && x in t.ring && Holds(t, f) && DistinctRings(t)
    ensures Holds(RemoveHere(t, x), f)
    ensures Nodes(RemoveHere(t, x)) + {x} == Nodes(t)
  {
    hide DropLeaf, RightLeaf, Removed, IndexOf;
    if |t.ring| > 1 {
      MembersRemoved(t.ring, x);
    } else {
      OnlyOne(t.ring, x);
      if t.right.Node? { DropHolds(t.right, f); } else if t.left.Node? { DropHolds(t.left, f); }
    }
  }

  lemma MembersRemoved(r: seq<int>, x: int)
    requires x in r && |r| > 1 && DistinctRing(r)
    ensures Members(Removed(r, IndexOf(r, x))) + {x} == Members(r)
    ensures forall a :: a in Removed(r, IndexOf(r, x)) ==> a in r
  {
    hide Members, Removed, IndexOf;
    InRemoved(r, x);
    var r' := Removed(r, IndexOf(r, x));
    forall a ensures a in Members(r') + {x} <==> a in Members(r) {
      assert a in r' <==> a in r && a != x;
    }
  }

  lemma OnlyOne(r: seq<int>, x: int)
    requires x in r && |r| <= 1
    ensures r == [x] && Members(r) == {x}
  {
  }

  /** A chunk of the ring is in neither subtree. */
  lemma NotBelow(t: Tree, f: map<int, int>, x: int, lo: int, hi: int)
    requires t.Node? && x in t.ring && Holds(t, f) && Shape(t, lo, hi)
    ensures x !in Nodes(t.left) && x !in Nodes(t.right)
  {
    if x in Nodes(t.left) { HoldsAt(t.left, f, x); }
    if x in Nodes(t.right) { HoldsAt(t.right, f, x); }
  }

  lemma NotBothSides(t: Tree, f: map<int, int>, x: int, lo: int, hi: int)
    requires t.Node? && Holds(t, f) && Shape(t, lo, hi)
    ensures !(x in Nodes(t.left) && x in Nodes(t.right))
  {
    if x in Nodes(t.left) && x in Nodes(t.right) {
      HoldsAt(t.left, f, x);
      HoldsAt(t.right, f, x);
      SizeInRange(t.left, lo, t.mid, f[x]);
      SizeInRange(t.right, t.mid, hi, f[x]);
    }
  }

  lemma RemoveHereNodes(t: Tree, f: map<int, int>, x: int, lo: int, hi: int)
    requires t.Node? && x in t.ring && Holds(t, f) && Shape(t, lo, hi) && DistinctRings(t)
    ensures Nodes(RemoveHere(t, x)) == Nodes(t) - {x}
  {
    NotBelow(t, f, x, lo, hi);
    RemoveHereHolds(t, f, x);
    if |t.ring| > 1 {
      InRemoved(t.ring, x);
    } else {
      if t.right.Node? { DropHolds(t.right, f); } else if t.left.Node? { DropHolds(t.left, f); }
    }
  }

  /** Removal takes out exactly x; every other chunk stays at the node of its size. */
  lemma {:induction false} RemoveHolds(t: Tree, f: map<int, int>, x: int, lo: int, hi: int)
    requires x in Nodes(t) && Holds(t, f) && Shape(t, lo, hi) && DistinctRings(t)
    ensures Holds(RemoveT(t, x), f)
    ensures Nodes(RemoveT(t, x)) == Nodes(t) - {x}
    decreases t
  {
    if x in t.ring {
      RemoveHereHolds(t, f, x);
      RemoveHereNodes(t, f, x, lo, hi);
    } else {
      NotBothSides(t, f, x, lo, hi);
      if x in Nodes(t.left) {
        RemoveHolds(t.left, f, x, lo, t.mid);
      } else {
        RemoveHolds(t.right, f, x, t.mid, hi);
      }
    }
  }
}
