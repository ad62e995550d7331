/** Tries as they lie in memory: child, parent and index words of the chunks, and the ring of each
    node (src/mm/malloc.c:2389-2402), with the effect of the link writes of insert_large_chunk and
    unlink_large_chunk on the trie represented. */
module TrieLinks {
  import opened Memory
  import opened Rings
  import opened Tries

  /** The words of one tree node: children, parent, bin index, and a ring whose other members have
      no parent and no children. */
  ghost predicate NodeLinks(mem: Mem, par: int, ring: seq<int>, left: int, right: int, i: int) {
    && Ring(mem, ring)
    && Rd(mem, ring[0] + CHILD0) == left
    && Rd(mem, ring[0] + CHILD1) == right
    && Rd(mem, ring[0] + PARENT) == par
    && (forall k :: 0 <= k < |ring| ==> Rd(mem, ring[k] + INDEX) == i)
    && (forall k :: 1 <= k < |ring| ==> Chained(mem, ring[k]))
  }

  /** A chunk that hangs on a ring without being the node itself. */
  ghost predicate Chained(mem: Mem, a: int) {
    Rd(mem, a + PARENT) == 0 && Rd(mem, a + CHILD0) == 0 && Rd(mem, a + CHILD1) == 0
  }

  ghost predicate Links(mem: Mem, par: int, t: Tree, i: int)
    decreases t
  {
    t.Node? ==>
      && NodeLinks(mem, par, t.ring, Root(t.left), Root(t.right), i)
      && Links(mem, t.ring[0], t.left, i)
      && Links(mem, t.ring[0], t.right, i)
  }

  /** The tree words of every chunk of s are the same. */
  ghost predicate TreeSame(mem: Mem, mem': Mem, s: set<int>) {
    forall a, w {:trigger a in s, Rd(mem', w)} :: a in s && a + FD <= w <= a + INDEX ==> Rd(mem', w) == Rd(mem, w)
  }

  /** ... save possibly the words u, v and z. */
  ghost predicate TreeSameBut(mem: Mem, mem': Mem, s: set<int>, u: int, v: int, z: int) {
    forall a, w {:trigger a in s, Rd(mem', w)} ::
      a in s && a + FD <= w <= a + INDEX && w != u && w != v && w != z ==> Rd(mem', w) == Rd(mem, w)
  }

  /** Chunks far enough apart for their tree words not to overlap. */
  ghost predicate Apart(s: set<int>) {
    forall a, b {:trigger a in s, b in s} :: a in s && b in s && a < b ==> a + 64 <= b
  }

  /** No chunk occurs at two nodes. */
  ghost predicate Disjoint(t: Tree) {
    t.Node? ==>
      && |t.ring| > 0
      && Members(t.ring) !! Nodes(t.left) && Members(t.ring) !! Nodes(t.right) && Nodes(t.left) !! Nodes(t.right)
      && Disjoint(t.left) && Disjoint(t.right)
  }

  lemma {:induction false} ShapeDisjoint(t: Tree, f: map<int, int>, lo: int, hi: int)
    requires Shape(t, lo, hi) && Holds(t, f)
    ensures Disjoint(t)
    decreases t
  {
    if t.Node? {
      forall x | x in t.ring ensures x !in Nodes(t.left) && x !in Nodes(t.right) { NotBelow(t, f, x, lo, hi); }
      forall x ensures !(x in Nodes(t.left) && x in Nodes(t.right)) { NotBothSides(t, f, x, lo, hi); }
      ShapeDisjoint(t.left, f, lo, t.mid);
      ShapeDisjoint(t.right, f, t.mid, hi);
    }
  }

  lemma {:induction false} LinksDistinct(mem: Mem, par: int, t: Tree, i: int)
    requires Links(mem, par, t, i)
    ensures DistinctRings(t)
    decreases t
  {
    if t.Node? {
      LinksDistinct(mem, t.ring[0], t.left, i);
      LinksDistinct(mem, t.ring[0], t.right, i);
    }
  }

  lemma RootIn(t: Tree)
    requires t.Node? && |t.ring| > 0
    ensures Root(t) in Members(t.ring) && Root(t) in Nodes(t)
  {
    assert t.ring[0] in t.ring;
  }

  // ----- frames -----

  /** A node keeps its links when only its child words and its parent word are written. */
  lemma NodeFrame(mem: Mem, mem': Mem, par: int, par': int, ring: seq<int>, left: int, right: int, left': int,
      right': int, i: int)
    requires NodeLinks(mem, par, ring, left, right, i)
    requires TreeSameBut(mem, mem', Members(ring), ring[0] + PARENT, ring[0] + CHILD0, ring[0] + CHILD1)
    requires Apart(Members(ring))
    requires Rd(mem', ring[0] + PARENT) == par' && Rd(mem', ring[0] + CHILD0) == left'
        && Rd(mem', ring[0] + CHILD1) == right'
    ensures NodeLinks(mem', par', ring, left', right', i)
  {
    assert ring[0] in Members(ring);
    forall k | 0 <= k < |ring|
      ensures Rd(mem', ring[k] + FD) == Rd(mem, ring[k] + FD) && Rd(mem', ring[k] + BK) == Rd(mem, ring[k] + BK)
      ensures Rd(mem', ring[k] + INDEX) == Rd(mem, ring[k] + INDEX)
      ensures k > 0 ==> Chained(mem', ring[k])
    {
      assert ring[k] in Members(ring);
      if k > 0 { SpreadPair(ring, 0, k); }
    }
    RingFrame(mem, mem', ring);
  }

  lemma {:induction false} LinksFrame(mem: Mem, mem': Mem, par: int, t: Tree, i: int)
    requires Links(mem, par, t, i) && Apart(Nodes(t))
    requires TreeSame(mem, mem', Nodes(t))
    ensures Links(mem', par, t, i)
    decreases t
  {
    if t.Node? {
      RootIn(t);
      NodeFrame(mem, mem', par, par, t.ring, Root(t.left), Root(t.right), Root(t.left), Root(t.right), i);
      LinksFrame(mem, mem', t.ring[0], t.left, i);
      LinksFrame(mem, mem', t.ring[0], t.right, i);
    }
  }

  /** Only the parent word of the root changed: the trie now hangs under par'. */
  lemma Reparent(mem: Mem, mem': Mem, par: int, par': int, t: Tree, i: int)
    requires Links(mem, par, t, i) && Apart(Nodes(t)) && Disjoint(t)
    requires TreeSameBut(mem, mem', Nodes(t), Root(t) + PARENT, Root(t) + PARENT, Root(t) + PARENT)
    requires t.Node? ==> Rd(mem', Root(t) + PARENT) == par'
    ensures Links(mem', par', t, i)
  {
    if t.Node? {
      RootIn(t);
      NodeFrame(mem, mem', par, par', t.ring, Root(t.left), Root(t.right), Root(t.left), Root(t.right), i);
      LinksFrame(mem, mem', t.ring[0], t.left, i);
      LinksFrame(mem, mem', t.ring[0], t.right, i);
    }
  }

  /** Words written inside chunks a and b leave the chunks of t alone. */
  lemma SameElsewhere(mem: Mem, mem': Mem, s: set<int>, t: set<int>, a: int, w: int, b: int, v: int)
    requires TreeSameBut(mem, mem', s, w, v, v) && Apart(s) && t <= s
    requires a in s && a !in t && a + FD <= w <= a + INDEX
    requires b in s && b !in t && b + FD <= v <= b + INDEX
    ensures TreeSame(mem, mem', t)
  {
  }

  lemma ApartSub(s: set<int>, t: set<int>)
    requires Apart(s) && t <= s
    ensures Apart(t)
  {
  }

  // ----- insertion -----

  /** Where insert_large_chunk stops: at the node of the same size, or at an empty child slot. */
  datatype Spot = Same(node: int) | Vacant(node: int, slot: int)

  function SpotOf(t: Tree, s: int): Spot
    requires t.Node?
  {
    if t.size == s then Same(Root(t))
    else if s < t.mid then
      if t.left.Nil? then Vacant(Root(t), Root(t) + CHILD0) else SpotOf(t.left, s)
    else
      if t.right.Nil? then Vacant(Root(t), Root(t) + CHILD1) else SpotOf(t.right, s)
  }

  /** The chunk x as insert_large_chunk leaves it. */
  ghost predicate PlantedChunk(mem': Mem, x: int, fd: int, bk: int, par: int, i: int) {
    && Rd(mem', x + FD) == fd && Rd(mem', x + BK) == bk
    && Rd(mem', x + CHILD0) == 0 && Rd(mem', x + CHILD1) == 0
    && Rd(mem', x + PARENT) == par && Rd(mem', x + INDEX) == i
  }

  /** The words mem' has after x was linked in at the spot, everything else in t's chunks unchanged. */
  ghost predicate Planted(mem: Mem, mem': Mem, spot: Spot, x: int, i: int, nodes: set<int>) {
    match spot
    case Same(n) =>
      var f := Rd(mem, n + FD);
      && TreeSameBut(mem, mem', nodes, n + FD, f + BK, f + BK)
      && Rd(mem', n + FD) == x && Rd(mem', f + BK) == x
      && PlantedChunk(mem', x, f, n, 0, i)
    case Vacant(n, slot) =>
      && TreeSameBut(mem, mem', nodes, slot, slot, slot)
      && Rd(mem', slot) == x
      && PlantedChunk(mem', x, x, x, n, i)
  }

  lemma RingFdIn(mem: Mem, ring: seq<int>)
    requires Ring(mem, ring)
    ensures Rd(mem, ring[0] + FD) in Members(ring)
  {
    assert ring[Succ(0, |ring|)] in ring;
  }

  lemma RingOf(mem: Mem, par: int, t: Tree, i: int)
    requires Links(mem, par, t, i) && t.Node?
    ensures Ring(mem, t.ring) && |t.ring| > 0
  {
  }

  lemma {:induction false} SpotIn(mem: Mem, par: int, t: Tree, i: int, s: int)
    requires Links(mem, par, t, i) && t.Node?
    ensures SpotOf(t, s).node in Nodes(t)
    ensures SpotOf(t, s).Same? ==> Rd(mem, SpotOf(t, s).node + FD) in Nodes(t)
    ensures SpotOf(t, s).Vacant? ==> var sp := SpotOf(t, s); sp.slot == sp.node + CHILD0 || sp.slot == sp.node + CHILD1
    decreases t
  {
    hide NodeLinks, Ring, Members;
    RingOf(mem, par, t, i);
    RootIn(t);
    if t.size == s {
      RingFdIn(mem, t.ring);
    } else if s < t.mid {
      if t.left.Node? { SpotIn(mem, t.ring[0], t.left, i, s); }
    } else {
      if t.right.Node? { SpotIn(mem, t.ring[0], t.right, i, s); }
    }
  }

  /** Writing link words of the ring keeps the tree words of its members. */
  lemma TreeWordsKept(mem: Mem, mem': Mem, ring: seq<int>, f: int, b: int, a: int)
    requires Apart(Members(ring)) && f in Members(ring) && b in Members(ring) && a in Members(ring)
    requires TreeSameBut(mem, mem', Members(ring), b + FD, f + BK, f + BK)
    ensures Rd(mem', a + CHILD0) == Rd(mem, a + CHILD0) && Rd(mem', a + CHILD1) == Rd(mem, a + CHILD1)
    ensures Rd(mem', a + PARENT) == Rd(mem, a + PARENT) && Rd(mem', a + INDEX) == Rd(mem, a + INDEX)
  {
  }

  lemma PlantSameTails(mem: Mem, mem': Mem, par: int, ring: seq<int>, left: int, right: int, x: int, i: int, j: nat)
    requires NodeLinks(mem, par, ring, left, right, i)
    requires Apart(Members(ring)) && 1 <= j < |ring|
    requires Planted(mem, mem', Same(ring[0]), x, i, Members(ring))
    ensures Chained(mem', ring[j]) && Rd(mem', ring[j] + INDEX) == i
  {
    hide Ring, Members, TreeSameBut;
    RingFdIn(mem, ring);
    PlantSameKeeps(mem, mem', ring, Rd(mem, ring[0] + FD), j);
    assert Chained(mem, ring[j]) && Rd(mem, ring[j] + INDEX) == i;
  }

  lemma MemberAt(ring: seq<int>, k: nat)
    requires k < |ring|
    ensures ring[k] in Members(ring)
  {
  }

  lemma PlantSameKeeps(mem: Mem, mem': Mem, ring: seq<int>, f: int, k: nat)
    requires |ring| > 0 && f in Members(ring) && Apart(Members(ring)) && k < |ring|
    requires TreeSameBut(mem, mem', Members(ring), ring[0] + FD, f + BK, f + BK)
    ensures var a := ring[k];
            && Rd(mem', a + CHILD0) == Rd(mem, a + CHILD0) && Rd(mem', a + CHILD1) == Rd(mem, a + CHILD1)
            && Rd(mem', a + PARENT) == Rd(mem, a + PARENT) && Rd(mem', a + INDEX) == Rd(mem, a + INDEX)
  {
    MemberAt(ring, 0);
    MemberAt(ring, k);
    TreeWordsKept(mem, mem', ring, f, ring[0], ring[k]);
  }

  lemma PlantSameHead(mem: Mem, mem': Mem, par: int, ring: seq<int>, left: int, right: int, x: int, i: int)
    requires NodeLinks(mem, par, ring, left, right, i)
    requires Apart(Members(ring))
    requires Planted(mem, mem', Same(ring[0]), x, i, Members(ring))
    ensures Rd(mem', ring[0] + CHILD0) == left && Rd(mem', ring[0] + CHILD1) == right
    ensures Rd(mem', ring[0] + PARENT) == par && Rd(mem', ring[0] + INDEX) == i
  {
    RingFdIn(mem, ring);
    PlantSameKeeps(mem, mem', ring, Rd(mem, ring[0] + FD), 0);
    assert Rd(mem, ring[0] + INDEX) == i;
  }

  lemma PlantSameRing(mem: Mem, mem': Mem, ring: seq<int>, r': seq<int>, x: int, i: int)
    requires Ring(mem, ring) && PutSecond(ring, r', x)
    requires Apart(Members(ring) + {x}) && x !in ring
    requires Planted(mem, mem', Same(ring[0]), x, i, Members(ring))
    ensures Ring(mem', r')
  {
    ApartSub(Members(ring) + {x}, Members(ring));
    LinkedInSame(mem, mem', ring, x, i);
    forall j | 0 <= j < |ring| ensures ring[j] != x && ring[j] != x + 8 && x != ring[j] + 8 {
      assert ring[j] in ring && ring[j] in Members(ring) + {x} && x in Members(ring) + {x};
    }
    InsertRing(mem, mem', ring, r', x);
  }

  lemma PlantSameWords(mem: Mem, mem': Mem, par: int, ring: seq<int>, r': seq<int>, left: int, right: int, x: int,
      i: int, k: nat)
    requires NodeLinks(mem, par, ring, left, right, i) && PutSecond(ring, r', x)
    requires Apart(Members(ring)) && Planted(mem, mem', Same(ring[0]), x, i, Members(ring)) && 1 <= k < |r'|
    ensures Rd(mem', r'[k] + INDEX) == i && Chained(mem', r'[k])
  {
    if k >= 2 { PlantSameTails(mem, mem', par, ring, left, right, x, i, k - 1); }
  }

  /** The node of x's own size: x is linked in right after the node. */
  lemma PlantSame(mem: Mem, mem': Mem, par: int, ring: seq<int>, r': seq<int>, left: int, right: int, x: int, i: int)
    requires NodeLinks(mem, par, ring, left, right, i) && PutSecond(ring, r', x)
    requires Apart(Members(ring) + {x}) && x !in ring
    requires Planted(mem, mem', Same(ring[0]), x, i, Members(ring))
    ensures NodeLinks(mem', par, r', left, right, i)
  {
    ApartSub(Members(ring) + {x}, Members(ring));
    PlantSameRing(mem, mem', ring, r', x, i);
    PlantSameHead(mem, mem', par, ring, left, right, x, i);
    forall k | 1 <= k < |r'| ensures Rd(mem', r'[k] + INDEX) == i && Chained(mem', r'[k]) {
      PlantSameWords(mem, mem', par, ring, r', left, right, x, i, k);
    }
  }

  lemma LinkedInSame(mem: Mem, mem': Mem, ring: seq<int>, x: int, i: int)
    requires Ring(mem, ring) && Apart(Members(ring))
    requires Planted(mem, mem', Same(ring[0]), x, i, Members(ring))
    ensures LinkedIn(mem, mem', ring, x)
  {
    var n, f := ring[0], ring[Succ(0, |ring|)];
    assert Rd(mem, n + FD) == f;
    assert n in Members(ring) && f in Members(ring);
    forall o | 0 <= o < |ring|
      ensures Rd(mem', ring[o] + FD) == (if o == 0 then x else Rd(mem, ring[o] + FD))
      ensures Rd(mem', ring[o] + BK) == (if o == Succ(0, |ring|) then x else Rd(mem, ring[o] + BK))
    {
      assert ring[o] in Members(ring);
      SpreadPair(ring, 0, o);
      SpreadPair(ring, o, Succ(0, |ring|));
    }
  }

  /** The words of the spot lie in the node's chunk and, for Same, in its successor's. */
  lemma SpotElsewhere(mem: Mem, mem': Mem, spot: Spot, x: int, i: int, nodes: set<int>, t: set<int>)
    requires Planted(mem, mem', spot, x, i, nodes) && Apart(nodes) && t <= nodes
    requires spot.node in nodes && spot.node !in t
    requires spot.Same? ==> Rd(mem, spot.node + FD) in nodes && Rd(mem, spot.node + FD) !in t
    requires spot.Vacant? ==> spot.slot == spot.node + CHILD0 || spot.slot == spot.node + CHILD1
    ensures TreeSame(mem, mem', t)
  {
    if spot.Same? {
      SameElsewhere(mem, mem', nodes, t, spot.node, spot.node + FD, Rd(mem, spot.node + FD),
          Rd(mem, spot.node + FD) + BK);
    } else {
      SameElsewhere(mem, mem', nodes, t, spot.node, spot.slot, spot.node, spot.slot);
    }
  }

  lemma PlantedSub(mem: Mem, mem': Mem, spot: Spot, x: int, i: int, nodes: set<int>, t: set<int>)
    requires Planted(mem, mem', spot, x, i, nodes) && t <= nodes
    ensures Planted(mem, mem', spot, x, i, t)
  {
  }

  lemma LeafLinks(mem: Mem, x: int, par: int, s: int, mid: int, i: int)
    requires PlantedChunk(mem, x, x, x, par, i)
    ensures Links(mem, par, Node([x], s, mid, Nil, Nil), i)
  {
    Singleton(mem, x);
  }

  lemma PlantHereBelow(mem: Mem, mem': Mem, par: int, t: Tree, sub: Tree, x: int, i: int)
    requires t.Node? && Links(mem, par, t, i) && Disjoint(t) && Apart(Nodes(t))
    requires Planted(mem, mem', Same(Root(t)), x, i, Nodes(t))
    requires sub == t.left || sub == t.right
    ensures Links(mem', t.ring[0], sub, i)
  {
    hide Links, NodeLinks, Ring, Nodes, Members, Disjoint, Apart, Planted;
    Parts(t);
    ChildLinks(mem, par, t, i);
    RingOf(mem, par, t, i);
    RootIn(t);
    RingFdIn(mem, t.ring);
    SpotElsewhere(mem, mem', Same(Root(t)), x, i, Nodes(t), Nodes(sub));
    ApartSub(Nodes(t), Nodes(sub));
    LinksFrame(mem, mem', t.ring[0], sub, i);
  }

  lemma PlantHereNode(mem: Mem, mem': Mem, par: int, t: Tree, x: int, i: int)
    requires t.Node? && Links(mem, par, t, i) && Apart(Nodes(t) + {x}) && x !in Nodes(t)
    requires Planted(mem, mem', Same(Root(t)), x, i, Nodes(t))
    ensures NodeLinks(mem', par, Inserted(t.ring, x), Root(t.left), Root(t.right), i)
  {
    ApartSub(Nodes(t) + {x}, Members(t.ring) + {x});
    PlantedSub(mem, mem', Same(Root(t)), x, i, Nodes(t), Members(t.ring));
    PlantSame(mem, mem', par, t.ring, Inserted(t.ring, x), Root(t.left), Root(t.right), x, i);
  }

  lemma PlantHere(mem: Mem, mem': Mem, par: int, t: Tree, x: int, i: int)
    requires t.Node? && Links(mem, par, t, i) && Disjoint(t) && Apart(Nodes(t) + {x}) && x !in Nodes(t)
    requires Planted(mem, mem', Same(Root(t)), x, i, Nodes(t))
    ensures Links(mem', par, t.(ring := Inserted(t.ring, x)), i)
  {
    ApartSub(Nodes(t) + {x}, Nodes(t));
    PlantHereNode(mem, mem', par, t, x, i);
    PlantHereBelow(mem, mem', par, t, t.left, x, i);
    PlantHereBelow(mem, mem', par, t, t.right, x, i);
  }

  lemma SameBut(mem: Mem, mem': Mem, s: set<int>, t: set<int>, u: int, v: int, z: int)
    requires TreeSame(mem, mem', s) && t <= s
    ensures TreeSameBut(mem, mem', t, u, v, z)
  {
  }

  lemma SameSub(mem: Mem, mem': Mem, s: set<int>, t: set<int>, w: int, u: int, v: int, z: int)
    requires TreeSameBut(mem, mem', s, w, w, w) && t <= s
    requires w == u || w == v || w == z
    ensures TreeSameBut(mem, mem', t, u, v, z)
  {
  }

  /** A node none of whose words changed. */
  lemma NodeKept(mem: Mem, mem': Mem, par: int, t: Tree, i: int)
    requires t.Node? && Links(mem, par, t, i) && Apart(Members(t.ring))
    requires TreeSame(mem, mem', Members(t.ring))
    ensures NodeLinks(mem', par, t.ring, Root(t.left), Root(t.right), i)
  {
    RootIn(t);
    SameBut(mem, mem', Members(t.ring), Members(t.ring), t.ring[0] + PARENT, t.ring[0] + CHILD0, t.ring[0] + CHILD1);
    NodeFrame(mem, mem', par, par, t.ring, Root(t.left), Root(t.right), Root(t.left), Root(t.right), i);
  }

  /** A node one of whose child words changed. */
  lemma NodeChild(mem: Mem, mem': Mem, par: int, t: Tree, slot: int, child: int, i: int)
    requires t.Node? && Links(mem, par, t, i) && Apart(Members(t.ring))
    requires slot == Root(t) + CHILD0 || slot == Root(t) + CHILD1
    requires TreeSameBut(mem, mem', Members(t.ring), slot, slot, slot) && Rd(mem', slot) == child
    ensures NodeLinks(mem', par, t.ring,
                      if slot == Root(t) + CHILD0 then child else Root(t.left),
                      if slot == Root(t) + CHILD1 then child else Root(t.right), i)
  {
    RootIn(t);
    SameSub(mem, mem', Members(t.ring), Members(t.ring), slot, t.ring[0] + PARENT, t.ring[0] + CHILD0,
        t.ring[0] + CHILD1);
    NodeFrame(mem, mem', par, par, t.ring, Root(t.left), Root(t.right),
              if slot == Root(t) + CHILD0 then child else Root(t.left),
              if slot == Root(t) + CHILD1 then child else Root(t.right), i);
  }

  /** The vacant child slot of this node. */
  lemma PlantLeaf(mem: Mem, mem': Mem, par: int, t: Tree, x: int, s: int, mid: int, slot: int, i: int)
    requires t.Node? && Links(mem, par, t, i) && Disjoint(t) && Apart(Nodes(t))
    requires Planted(mem, mem', Vacant(Root(t), slot), x, i, Nodes(t))
    requires (slot == Root(t) + CHILD0 && t.left.Nil?) || (slot == Root(t) + CHILD1 && t.right.Nil?)
    ensures Links(mem', par, if slot == Root(t) + CHILD0 then t.(left := Node([x], s, mid, Nil, Nil))
                             else t.(right := Node([x], s, mid, Nil, Nil)), i)
  {
    RootIn(t);
    ApartSub(Nodes(t), Members(t.ring));
    SameSub(mem, mem', Nodes(t), Members(t.ring), slot, slot, slot, slot);
    NodeChild(mem, mem', par, t, slot, x, i);
    LeafLinks(mem', x, Root(t), s, mid, i);
    var other := if slot == Root(t) + CHILD0 then t.right else t.left;
    SpotElsewhere(mem, mem', Vacant(Root(t), slot), x, i, Nodes(t), Nodes(other));
    ApartSub(Nodes(t), Nodes(other));
    LinksFrame(mem, mem', t.ring[0], other, i);
  }

  /** A node's ring and its subtrees hold different chunks. */
  lemma Parts(t: Tree)
    requires t.Node? && Disjoint(t)
    ensures |t.ring| > 0 && Members(t.ring) !! Nodes(t.left) && Members(t.ring) !! Nodes(t.right)
        && Nodes(t.left) !! Nodes(t.right)
    ensures Members(t.ring) <= Nodes(t) && Nodes(t.left) <= Nodes(t) && Nodes(t.right) <= Nodes(t)
    ensures Disjoint(t.left) && Disjoint(t.right)
  {
  }

  lemma ChildLinks(mem: Mem, par: int, t: Tree, i: int)
    requires t.Node? && Links(mem, par, t, i)
    ensures NodeLinks(mem, par, t.ring, Root(t.left), Root(t.right), i) && |t.ring| > 0 && Root(t) == t.ring[0]
    ensures Links(mem, t.ring[0], t.left, i) && Links(mem, t.ring[0], t.right, i)
  {
  }

  /** The spot lies in subtree `sub`: this node and the other subtree are untouched. */
  lemma PlantBelow(mem: Mem, mem': Mem, par: int, t: Tree, sub: Tree, other: Tree, spot: Spot, x: int, s: int, i: int)
    requires t.Node? && Links(mem, par, t, i) && Disjoint(t) && Apart(Nodes(t))
    requires (sub == t.left && other == t.right) || (sub == t.right && other == t.left)
    requires sub.Node? && spot == SpotOf(sub, s)
    requires Planted(mem, mem', spot, x, i, Nodes(t))
    ensures NodeLinks(mem', par, t.ring, Root(t.left), Root(t.right), i)
    ensures Links(mem', t.ring[0], other, i)
  {
    hide Links, NodeLinks, Nodes, Members, Disjoint, Apart, Planted, SpotOf, TreeSame, Root;
    Parts(t);
    ChildLinks(mem, par, t, i);
    SpotIn(mem, t.ring[0], sub, i, s);
    SpotElsewhere(mem, mem', spot, x, i, Nodes(t), Members(t.ring));
    SpotElsewhere(mem, mem', spot, x, i, Nodes(t), Nodes(other));
    ApartSub(Nodes(t), Members(t.ring));
    ApartSub(Nodes(t), Nodes(other));
    NodeKept(mem, mem', par, t, i);
    LinksFrame(mem, mem', t.ring[0], other, i);
  }

  function WithChild(t: Tree, left: bool, sub: Tree): Tree
    requires t.Node?
  {
    if left then t.(left := sub) else t.(right := sub)
  }

  lemma PutChild(mem: Mem, mem': Mem, par: int, t: Tree, left: bool, sub': Tree, i: int)
    requires t.Node?
    requires NodeLinks(mem', par, t.ring, Root(t.left), Root(t.right), i)
    requires Links(mem', t.ring[0], if left then t.right else t.left, i)
    requires Links(mem', t.ring[0], sub', i)
    requires Root(sub') == Root(if left then t.left else t.right)
    ensures Links(mem', par, WithChild(t, left, sub'), i)
  {
  }

  lemma InsertDeeper(mem: Mem, mem': Mem, par: int, t: Tree, left: bool, sub': Tree, x: int, s: int, i: int)
    requires t.Node? && Links(mem, par, t, i) && Disjoint(t) && Apart(Nodes(t))
    requires var sub := if left then t.left else t.right;
             && sub.Node? && Planted(mem, mem', SpotOf(sub, s), x, i, Nodes(t))
             && Links(mem', t.ring[0], sub', i) && Root(sub') == Root(sub)
    ensures Links(mem', par, WithChild(t, left, sub'), i)
  {
    var sub, other := if left then t.left else t.right, if left then t.right else t.left;
    PlantBelow(mem, mem', par, t, sub, other, SpotOf(sub, s), x, s, i);
    PutChild(mem, mem', par, t, left, sub', i);
  }

  /** The writes of insert_large_chunk at the spot turn the represented trie into InsertT of it. */
  lemma {:induction false} InsertLinks(mem: Mem, mem': Mem, par: int, t: Tree, x: int, s: int, i: int, lo: int, e: nat)
    requires t.Node? && Links(mem, par, t, i) && Disjoint(t) && Apart(Nodes(t) + {x}) && x !in Nodes(t)
    requires Halved(t, lo, e)
    requires Planted(mem, mem', SpotOf(t, s), x, i, Nodes(t))
    ensures Links(mem', par, InsertT(t, x, s, lo, e), i)
    ensures Root(InsertT(t, x, s, lo, e)) == Root(t)
    decreases t
  {
    hide NodeLinks, Nodes, Members, Apart, Planted;
    Parts(t);
    ChildLinks(mem, par, t, i);
    if t.size == s {
      PlantHere(mem, mem', par, t, x, i);
    } else {
      ApartSub(Nodes(t) + {x}, Nodes(t));
      var left := s < t.mid;
      var sub := if left then t.left else t.right;
      var lo' := if left then lo else t.mid;
      if sub.Nil? {
        PlantLeaf(mem, mem', par, t, x, s, InsertT(sub, x, s, lo', e - 1).mid,
            Root(t) + (if left then CHILD0 else CHILD1), i);
      } else {
        PlantedSub(mem, mem', SpotOf(sub, s), x, i, Nodes(t), Nodes(sub));
        ApartSub(Nodes(t) + {x}, Nodes(sub) + {x});
        InsertLinks(mem, mem', t.ring[0], sub, x, s, i, lo', e - 1);
        InsertDeeper(mem, mem', par, t, left, InsertT(sub, x, s, lo', e - 1), x, s, i);
      }
    }
  }

  // ----- removal -----

  /** The word that leads to the rightmost leaf of c, where rp leads to c itself. */
  function LeafSlot(c: Tree, rp: int): int
    requires c.Node?
  {
    if c.right.Node? then LeafSlot(c.right, Root(c) + CHILD1)
    else if c.left.Node? then LeafSlot(c.left, Root(c) + CHILD0)
    else rp
  }

  function LeafOwner(c: Tree): int
    requires c.Node?
  {
    if c.right.Node? then (if c.right.right.Node? || c.right.left.Node? then LeafOwner(c.right) else Root(c))
    else if c.left.Node? then (if c.left.right.Node? || c.left.left.Node? then LeafOwner(c.left) else Root(c))
    else Root(c)
  }

  predicate IsLeaf(c: Tree) { c.Node? && c.left.Nil? && c.right.Nil? }

  /** The slot is a child word of a node that stays when the leaf is dropped. */
  lemma {:induction false} LeafSlotIn(c: Tree, rp: int)
    requires c.Node? && !IsLeaf(c) && Disjoint(c)
    ensures LeafOwner(c) in Nodes(DropLeaf(c))
    ensures LeafSlot(c, rp) == LeafOwner(c) + CHILD0 || LeafSlot(c, rp) == LeafOwner(c) + CHILD1
  {
    RootIn(c);
    if c.right.Node? {
      if !IsLeaf(c.right) { LeafSlotIn(c.right, Root(c) + CHILD1); }
    } else {
      if !IsLeaf(c.left) { LeafSlotIn(c.left, Root(c) + CHILD0); }
    }
  }

  lemma {:induction false} DropNodes(c: Tree)
    requires c.Node?
    ensures Nodes(DropLeaf(c)) <= Nodes(c)
    ensures Members(RightLeaf(c).ring) <= Nodes(c)
  {
    if c.right.Node? { DropNodes(c.right); } else if c.left.Node? { DropNodes(c.left); }
  }

  lemma {:induction false} DropDisjoint(c: Tree)
    requires c.Node? && Disjoint(c)
    ensures Disjoint(DropLeaf(c)) && Nodes(DropLeaf(c)) !! Members(RightLeaf(c).ring)
  {
    if c.right.Node? {
      DropNodes(c.right);
      DropDisjoint(c.right);
    } else if c.left.Node? {
      DropNodes(c.left);
      DropDisjoint(c.left);
    }
  }

  /** The leaf's ring, seen as a node without children. */
  lemma {:induction false} LeafNode(mem: Mem, par: int, c: Tree, i: int) returns (p: int)
    requires c.Node? && Links(mem, par, c, i)
    ensures NodeLinks(mem, p, RightLeaf(c).ring, 0, 0, i)
    decreases c
  {
    if c.right.Node? { p := LeafNode(mem, c.ring[0], c.right, i); }
    else if c.left.Node? { p := LeafNode(mem, c.ring[0], c.left, i); }
    else { p := par; }
  }

  lemma {:induction false} LeafSlotValue(mem: Mem, par: int, c: Tree, i: int, rp: int)
    requires c.Node? && Links(mem, par, c, i) && Rd(mem, rp) == Root(c)
    ensures Rd(mem, LeafSlot(c, rp)) == Root(RightLeaf(c))
    decreases c
  {
    if c.right.Node? { LeafSlotValue(mem, c.ring[0], c.right, i, Root(c) + CHILD1); }
    else if c.left.Node? { LeafSlotValue(mem, c.ring[0], c.left, i, Root(c) + CHILD0); }
  }

  lemma DropHereOther(mem: Mem, mem': Mem, par: int, c: Tree, left: bool, slot: int, i: int)
    requires c.Node? && Links(mem, par, c, i) && Disjoint(c) && Apart(Nodes(c))
    requires slot == Root(c) + (if left then CHILD0 else CHILD1)
    requires TreeSameBut(mem, mem', Members(c.ring) + Nodes(if left then c.right else c.left), slot, slot, slot)
    ensures Links(mem', c.ring[0], if left then c.right else c.left, i)
  {
    var other := if left then c.right else c.left;
    var s := Members(c.ring) + Nodes(other);
    RootIn(c);
    ApartSub(Nodes(c), s);
    ApartSub(Nodes(c), Nodes(other));
    SameElsewhere(mem, mem', s, Nodes(other), Root(c), slot, Root(c), slot);
    LinksFrame(mem, mem', c.ring[0], other, i);
  }

  /** This node's child on the leaf's side was the leaf itself. */
  lemma DropHere(mem: Mem, mem': Mem, par: int, c: Tree, left: bool, slot: int, i: int)
    requires c.Node? && Links(mem, par, c, i) && Disjoint(c) && Apart(Nodes(c))
    requires slot == Root(c) + (if left then CHILD0 else CHILD1)
    requires TreeSameBut(mem, mem', Members(c.ring) + Nodes(if left then c.right else c.left), slot, slot, slot)
    requires Rd(mem', slot) == 0
    ensures Links(mem', par, WithChild(c, left, Nil), i)
  {
    DropHereOther(mem, mem', par, c, left, slot, i);
    RootIn(c);
    ApartSub(Nodes(c), Members(c.ring));
    SameSub(mem, mem', Members(c.ring) + Nodes(if left then c.right else c.left), Members(c.ring), slot, slot, slot,
        slot);
    NodeChild(mem, mem', par, c, slot, 0, i);
  }

  /** The leaf is further down, in the child `left` or right, which became sub'. */
  lemma DropBelow(mem: Mem, mem': Mem, par: int, c: Tree, left: bool, sub': Tree, slot: int, owner: int, i: int)
    requires c.Node? && Links(mem, par, c, i) && Disjoint(c) && Apart(Nodes(c))
    requires var sub := if left then c.left else c.right;
             && Nodes(sub') <= Nodes(sub) && owner in Nodes(sub') && Root(sub') == Root(sub)
             && Links(mem', c.ring[0], sub', i)
    requires slot == owner + CHILD0 || slot == owner + CHILD1
    requires var c' := WithChild(c, left, sub'); TreeSameBut(mem, mem', Nodes(c'), slot, slot, slot)
    ensures Links(mem', par, WithChild(c, left, sub'), i)
  {
    var c' := WithChild(c, left, sub');
    var other := if left then c.right else c.left;
    ApartSub(Nodes(c), Nodes(c'));
    ApartSub(Nodes(c), Members(c.ring));
    ApartSub(Nodes(c), Nodes(other));
    SameElsewhere(mem, mem', Nodes(c'), Members(c.ring), owner, slot, owner, slot);
    SameElsewhere(mem, mem', Nodes(c'), Nodes(other), owner, slot, owner, slot);
    NodeKept(mem, mem', par, c, i);
    LinksFrame(mem, mem', c.ring[0], other, i);
    PutChild(mem, mem', par, c, left, sub', i);
  }

  /** Clearing the word that leads to the rightmost leaf drops it from the represented trie. */
  lemma {:induction false} DropLinks(mem: Mem, mem': Mem, par: int, c: Tree, i: int, rp: int)
    requires c.Node? && Links(mem, par, c, i) && Disjoint(c) && Apart(Nodes(c))
    requires !IsLeaf(c) ==>
        TreeSameBut(mem, mem', Nodes(DropLeaf(c)), LeafSlot(c, rp), LeafSlot(c, rp), LeafSlot(c, rp))
        && Rd(mem', LeafSlot(c, rp)) == 0
    ensures Links(mem', par, DropLeaf(c), i)
    ensures !IsLeaf(c) ==> Root(DropLeaf(c)) == Root(c)
    decreases c
  {
    if !IsLeaf(c) {
      var left := c.right.Nil?;
      var sub := if left then c.left else c.right;
      var slot := LeafSlot(c, rp);
      if IsLeaf(sub) {
        assert Nodes(DropLeaf(c)) == Members(c.ring) + Nodes(if left then c.right else c.left);
        DropHere(mem, mem', par, c, left, slot, i);
      } else {
        var rp' := Root(c) + (if left then CHILD0 else CHILD1);
        LeafSlotIn(sub, rp');
        DropNodes(sub);
        ApartSub(Nodes(c), Nodes(sub));
        SameSub(mem, mem', Nodes(DropLeaf(c)), Nodes(DropLeaf(sub)), slot, slot, slot, slot);
        DropLinks(mem, mem', c.ring[0], sub, i, rp');
        DropBelow(mem, mem', par, c, left, DropLeaf(sub), slot, LeafOwner(sub), i);
      }
    }
  }

  /** The ring `ring` without children takes over a node's parent and the subtrees l and r. */
  lemma ReplaceNode(mem: Mem, mem': Mem, p0: int, x: int, par: int, ring: seq<int>, l: Tree, r: Tree, s: int,
      mid: int, i: int)
    requires NodeLinks(mem, p0, ring, 0, 0, i) && Apart(Members(ring))
    requires Links(mem, x, l, i) && Apart(Nodes(l)) && Disjoint(l)
    requires Links(mem, x, r, i) && Apart(Nodes(r)) && Disjoint(r)
    requires TreeSameBut(mem, mem', Members(ring), ring[0] + PARENT, ring[0] + CHILD0, ring[0] + CHILD1)
    requires TreeSameBut(mem, mem', Nodes(l), Root(l) + PARENT, Root(l) + PARENT, Root(l) + PARENT)
    requires TreeSameBut(mem, mem', Nodes(r), Root(r) + PARENT, Root(r) + PARENT, Root(r) + PARENT)
    requires Rd(mem', ring[0] + PARENT) == par && Rd(mem', ring[0] + CHILD0) == Root(l)
        && Rd(mem', ring[0] + CHILD1) == Root(r)
    requires l.Node? ==> Rd(mem', Root(l) + PARENT) == ring[0]
    requires r.Node? ==> Rd(mem', Root(r) + PARENT) == ring[0]
    ensures Links(mem', par, Node(ring, s, mid, l, r), i)
  {
    NodeFrame(mem, mem', p0, par, ring, 0, 0, Root(l), Root(r), i);
    Reparent(mem, mem', x, ring[0], l, i);
    Reparent(mem, mem', x, ring[0], r, i);
  }

  lemma BypassSame(mem: Mem, mem': Mem, ring: seq<int>, k: nat)
    requires Ring(mem, ring) && |ring| > 1 && k < |ring| && Apart(Members(ring))
    requires var f, b := ring[Succ(k, |ring|)], ring[Pred(k, |ring|)];
             && TreeSameBut(mem, mem', Members(ring), b + FD, f + BK, f + BK)
             && Rd(mem', f + BK) == b && Rd(mem', b + FD) == f
    ensures Bypassed(mem, mem', ring, ring[Pred(k, |ring|)], ring[Succ(k, |ring|)])
  {
    hide Ring, Members;
    var f, b := ring[Succ(k, |ring|)], ring[Pred(k, |ring|)];
    assert f in Members(ring) && b in Members(ring);
    forall o | 0 <= o < |ring|
      ensures Rd(mem', ring[o] + FD) == (if ring[o] == b then f else Rd(mem, ring[o] + FD))
      ensures Rd(mem', ring[o] + BK) == (if ring[o] == f then b else Rd(mem, ring[o] + BK))
    {
      assert ring[o] in Members(ring);
    }
  }

  ghost predicate BypassWords(mem: Mem, mem': Mem, ring: seq<int>, k: nat)
    requires |ring| > 1 && k < |ring|
  {
    var f, b := ring[Succ(k, |ring|)], ring[Pred(k, |ring|)];
    && TreeSameBut(mem, mem', Members(ring), b + FD, f + BK, f + BK)
    && Rd(mem', f + BK) == b && Rd(mem', b + FD) == f
  }

  lemma BypassRing(mem: Mem, mem': Mem, ring: seq<int>, r': seq<int>, k: nat)
    requires Ring(mem, ring) && Apart(Members(ring)) && TakenOut(ring, r', k) && BypassWords(mem, mem', ring, k)
    ensures Ring(mem', r')
  {
    BypassSame(mem, mem', ring, k);
    RemoveRing(mem, mem', ring, r', k);
  }

  lemma BypassKeeps(mem: Mem, mem': Mem, ring: seq<int>, k: nat, j: nat)
    requires Apart(Members(ring)) && |ring| > 1 && k < |ring| && BypassWords(mem, mem', ring, k) && j < |ring|
    ensures var a := ring[j];
            && Rd(mem', a + CHILD0) == Rd(mem, a + CHILD0) && Rd(mem', a + CHILD1) == Rd(mem, a + CHILD1)
            && Rd(mem', a + PARENT) == Rd(mem, a + PARENT) && Rd(mem', a + INDEX) == Rd(mem, a + INDEX)
  {
    MemberAt(ring, j);
    MemberAt(ring, Succ(k, |ring|));
    MemberAt(ring, Pred(k, |ring|));
    TreeWordsKept(mem, mem', ring, ring[Succ(k, |ring|)], ring[Pred(k, |ring|)], ring[j]);
  }

  lemma BypassTail(mem: Mem, mem': Mem, par: int, ring: seq<int>, left: int, right: int, i: int, k: nat, j: nat)
    requires NodeLinks(mem, par, ring, left, right, i) && Apart(Members(ring))
    requires |ring| > 1 && k < |ring| && BypassWords(mem, mem', ring, k) && 1 <= j < |ring|
    ensures Chained(mem', ring[j]) && Rd(mem', ring[j] + INDEX) == i
  {
    BypassKeeps(mem, mem', ring, k, j);
    assert Chained(mem, ring[j]) && Rd(mem, ring[j] + INDEX) == i;
  }

  /** The first member was bypassed: the new first member has no parent and no children yet. */
  lemma HeadRemoved(mem: Mem, mem': Mem, par: int, ring: seq<int>, r': seq<int>, left: int, right: int, i: int)
    requires NodeLinks(mem, par, ring, left, right, i) && Apart(Members(ring))
    requires TakenOut(ring, r', 0) && BypassWords(mem, mem', ring, 0)
    ensures NodeLinks(mem', 0, r', 0, 0, i)
  {
    BypassRing(mem, mem', ring, r', 0);
    forall k | 0 <= k < |r'| ensures Chained(mem', r'[k]) && Rd(mem', r'[k] + INDEX) == i {
      BypassTail(mem, mem', par, ring, left, right, i, 0, WasAt(0, k, |ring|));
    }
  }

  lemma BypassHead(mem: Mem, mem': Mem, par: int, ring: seq<int>, left: int, right: int, i: int, k: nat)
    requires NodeLinks(mem, par, ring, left, right, i) && Apart(Members(ring))
    requires |ring| > 1 && k < |ring| && BypassWords(mem, mem', ring, k)
    ensures Rd(mem', ring[0] + CHILD0) == left && Rd(mem', ring[0] + CHILD1) == right
    ensures Rd(mem', ring[0] + PARENT) == par && Rd(mem', ring[0] + INDEX) == i
  {
    BypassKeeps(mem, mem', ring, k, 0);
    assert Rd(mem, ring[0] + INDEX) == i;
  }

  /** A chained member, ring[k] with k > 0, was bypassed: the node loses just that chunk. */
  lemma ChainRemoved(mem: Mem, mem': Mem, par: int, ring: seq<int>, r': seq<int>, left: int, right: int, i: int, k: nat)
    requires NodeLinks(mem, par, ring, left, right, i) && Apart(Members(ring)) && k >= 1
    requires TakenOut(ring, r', k) && BypassWords(mem, mem', ring, k)
    ensures NodeLinks(mem', par, r', left, right, i)
  {
    BypassRing(mem, mem', ring, r', k);
    BypassHead(mem, mem', par, ring, left, right, i, k);
    forall j | 1 <= j < |r'| ensures Chained(mem', r'[j]) && Rd(mem', r'[j] + INDEX) == i {
      BypassTail(mem, mem', par, ring, left, right, i, k, WasAt(k, j, |ring|));
    }
  }

  // ----- the path from the root to the node of x -----

  /** The node whose ring holds x. */
  function Find(t: Tree, x: int): Tree
    requires x in Nodes(t)
  {
    if x in t.ring then t else if x in Nodes(t.left) then Find(t.left, x) else Find(t.right, x)
  }

  /** The word that leads to that node, where rp leads to t. */
  function SlotFor(t: Tree, x: int, rp: int): int
    requires x in Nodes(t)
  {
    if x in t.ring then rp
    else if x in Nodes(t.left) then SlotFor(t.left, x, Root(t) + CHILD0)
    else SlotFor(t.right, x, Root(t) + CHILD1)
  }

  /** The parent of that node, where par is the parent of t. */
  function ParFor(t: Tree, x: int, par: int): int
    requires x in Nodes(t)
  {
    if x in t.ring then par
    else if x in Nodes(t.left) then ParFor(t.left, x, Root(t))
    else ParFor(t.right, x, Root(t))
  }

  lemma {:induction false} FindLinks(mem: Mem, par: int, t: Tree, x: int, i: int)
    requires x in Nodes(t) && Links(mem, par, t, i) && Disjoint(t)
    ensures var u := Find(t, x);
            && u.Node? && x in u.ring && Links(mem, ParFor(t, x, par), u, i) && Nodes(u) <= Nodes(t) && Disjoint(u)
    decreases t
  {
    if x !in t.ring {
      if x in Nodes(t.left) { FindLinks(mem, t.ring[0], t.left, x, i); }
          else { FindLinks(mem, t.ring[0], t.right, x, i); }
    }
  }

  lemma SlotAtChild(mem: Mem, par: int, t: Tree, left: bool, i: int)
    requires t.Node? && Links(mem, par, t, i) && Disjoint(t)
    requires (if left then t.left else t.right).Node?
    ensures var u := if left then t.left else t.right;
            && Root(t) in Nodes(t) && Root(t) !in Nodes(u) && Root(u) in Nodes(u)
            && Rd(mem, Root(t) + (if left then CHILD0 else CHILD1)) == Root(u)
  {
    hide Links, Nodes, Members, Disjoint, Ring, Root;
    Parts(t);
    ChildLinks(mem, par, t, i);
    var u := if left then t.left else t.right;
    Parts(u);
    RootIn(t);
    RootIn(u);
  }

  /** Below the root the node hangs in a child slot of its parent, which is in the trie and not below the node. */
  lemma {:induction false} SlotIn(mem: Mem, par: int, t: Tree, x: int, i: int, rp: int)
    requires x in Nodes(t) && x !in t.ring && Links(mem, par, t, i) && Disjoint(t)
    ensures ParFor(t, x, par) in Nodes(t) && ParFor(t, x, par) !in Nodes(Find(t, x))
    ensures SlotFor(t, x, rp) == ParFor(t, x, par) + CHILD0 || SlotFor(t, x, rp) == ParFor(t, x, par) + CHILD1
    ensures Rd(mem, SlotFor(t, x, rp)) == Root(Find(t, x))
    ensures Root(Find(t, x)) in Nodes(t.left) + Nodes(t.right)
    decreases t
  {
    var left := x in Nodes(t.left);
    var sub := if left then t.left else t.right;
    SlotAtChild(mem, par, t, left, i);
    if x !in sub.ring {
      SlotIn(mem, t.ring[0], sub, x, i, Root(t) + (if left then CHILD0 else CHILD1));
    }
  }

  /** Words in a node of `sub` outside u leave t's ring and the other subtree alone. */
  lemma SpineFrame(mem: Mem, mem': Mem, par: int, t: Tree, other: Tree, s: set<int>, p: int, slot: int, i: int)
    requires t.Node? && Links(mem, par, t, i) && Apart(Nodes(t)) && s <= Nodes(t)
    requires other == t.left || other == t.right
    requires Nodes(other) <= s && p in s && p !in Nodes(other)
    requires slot == p + CHILD0 || slot == p + CHILD1
    requires TreeSameBut(mem, mem', s, slot, slot, slot)
    ensures Links(mem', t.ring[0], other, i)
  {
    ApartSub(Nodes(t), s);
    ApartSub(Nodes(t), Nodes(other));
    SameElsewhere(mem, mem', s, Nodes(other), p, slot, p, slot);
    LinksFrame(mem, mem', t.ring[0], other, i);
  }

  lemma SpineKept(mem: Mem, mem': Mem, par: int, t: Tree, s: set<int>, p: int, slot: int, i: int)
    requires t.Node? && Links(mem, par, t, i) && Apart(Nodes(t)) && s <= Nodes(t)
    requires Members(t.ring) <= s && p in s && p !in Members(t.ring)
    requires slot == p + CHILD0 || slot == p + CHILD1
    requires TreeSameBut(mem, mem', s, slot, slot, slot)
    ensures NodeLinks(mem', par, t.ring, Root(t.left), Root(t.right), i)
  {
    ApartSub(Nodes(t), s);
    ApartSub(Nodes(t), Members(t.ring));
    SameElsewhere(mem, mem', s, Members(t.ring), p, slot, p, slot);
    NodeKept(mem, mem', par, t, i);
  }

  /** x is in the ring of this node's child `left` or right, which became sub'. */
  lemma SpineChild(mem: Mem, mem': Mem, par: int, t: Tree, left: bool, sub': Tree, slot: int, i: int)
    requires t.Node? && Links(mem, par, t, i) && Disjoint(t) && Apart(Nodes(t))
    requires slot == Root(t) + (if left then CHILD0 else CHILD1)
    requires Links(mem', t.ring[0], sub', i) && Root(sub') == Rd(mem', slot)
    requires TreeSameBut(mem, mem', Nodes(t) - Nodes(if left then t.left else t.right), slot, slot, slot)
    ensures Links(mem', par, WithChild(t, left, sub'), i)
  {
    var s := Nodes(t) - Nodes(if left then t.left else t.right);
    RootIn(t);
    SpineFrame(mem, mem', par, t, if left then t.right else t.left, s, Root(t), slot, i);
    ApartSub(Nodes(t), Members(t.ring));
    SameSub(mem, mem', s, Members(t.ring), slot, slot, slot, slot);
    NodeChild(mem, mem', par, t, slot, Root(sub'), i);
  }

  /** x is further below, and the root of the child stays. */
  lemma SpineBelow(mem: Mem, mem': Mem, par: int, t: Tree, left: bool, x: int, sub': Tree, slot: int, i: int)
    requires t.Node? && Links(mem, par, t, i) && Disjoint(t) && Apart(Nodes(t)) && x !in t.ring
    requires var sub := if left then t.left else t.right;
             && x in Nodes(sub) && x !in sub.ring && Links(mem', t.ring[0], sub', i)
             && slot == SlotFor(sub, x, Root(t) + (if left then CHILD0 else CHILD1))
             && Root(sub') == Root(sub)
             && TreeSameBut(mem, mem', Nodes(t) - Nodes(Find(sub, x)), slot, slot, slot)
    ensures Links(mem', par, WithChild(t, left, sub'), i)
  {
    var sub, other := if left then t.left else t.right, if left then t.right else t.left;
    var s := Nodes(t) - Nodes(Find(sub, x));
    FindLinks(mem, t.ring[0], sub, x, i);
    SlotIn(mem, t.ring[0], sub, x, i, Root(t) + (if left then CHILD0 else CHILD1));
    SpineFrame(mem, mem', par, t, other, s, ParFor(sub, x, t.ring[0]), slot, i);
    SpineKept(mem, mem', par, t, s, ParFor(sub, x, t.ring[0]), slot, i);
    PutChild(mem, mem', par, t, left, sub', i);
  }

  /** When the node of x became RemoveHere of it, and the word leading to it was updated, the whole
      trie became RemoveT of it. */
  lemma {:induction false} RemoveLinks(mem: Mem, mem': Mem, par: int, t: Tree, x: int, i: int, rp: int)
    requires x in Nodes(t) && Links(mem, par, t, i) && Disjoint(t) && Apart(Nodes(t))
    requires var u := Find(t, x);
             && u.Node? && x in u.ring
             && Links(mem', ParFor(t, x, par), RemoveHere(u, x), i)
             && (x !in t.ring ==>
                 TreeSameBut(mem, mem', Nodes(t) - Nodes(u), SlotFor(t, x, rp), SlotFor(t, x, rp), SlotFor(t, x, rp))
                                  && Rd(mem', SlotFor(t, x, rp)) == Root(RemoveHere(u, x)))
    ensures Links(mem', par, RemoveT(t, x), i)
    ensures x !in t.ring ==> Root(RemoveT(t, x)) == Root(t)
    decreases t
  {
    if x !in t.ring {
      var left := x in Nodes(t.left);
      var sub := if left then t.left else t.right;
      var rp' := Root(t) + (if left then CHILD0 else CHILD1);
      var slot := SlotFor(sub, x, rp');
      assert Find(t, x) == Find(sub, x) && SlotFor(t, x, rp) == slot && ParFor(t, x, par) == ParFor(sub, x, t.ring[0]);
      ApartSub(Nodes(t), Nodes(sub));
      if x in sub.ring {
        SpineChild(mem, mem', par, t, left, RemoveHere(sub, x), slot, i);
      } else {
        SameSub(mem, mem', Nodes(t) - Nodes(Find(t, x)), Nodes(sub) - Nodes(Find(sub, x)), slot, slot, slot, slot);
        RemoveLinks(mem, mem', t.ring[0], sub, x, i, rp');
        SpineBelow(mem, mem', par, t, left, x, RemoveT(sub, x), slot, i);
      }
    }
  }
}
