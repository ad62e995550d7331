/** The second half of unlink_large_chunk: the replacement takes over the place of x in its bin
    (src/mm/malloc.c:3736-3775), and the whole operation. */
module HeapRelink {
  import opened Bits
  import opened BinIndex
  import opened Memory
  import opened Tries
  import opened TrieLinks
  import opened Index
  import opened HeapState
  import opened HeapBins
  import opened HeapUnlink

  lemma HeirPlaces(mem: Mem, par: int, u: Tree, x: int, i: int, f: Sizes, least: int, slot: int)
    requires UnlinkState(mem, par, u, x, i, f, least) && AwayFrom(slot, Nodes(u)) && RestOf(u, x).ring != []
    ensures AdoptPlaces(RestOf(u, x), x, slot, Nodes(u))
  {
    MemberAt(u.ring, IndexOf(u.ring, x));
    if |u.ring| > 1 {
      RestInRing(u, x);
    } else {
      assert u.ring == [x];
      if u.right.Node? { RestRight(u, x); } else if u.left.Node? { RestLeft(u, x); }
    }
  }

  /** Both steps on the node itself: x's place is taken by the heir, or by nothing. */
  ghost predicate Relinked(mem: Mem, mem': Mem, par: int, u: Tree, x: int, i: int, slot: int)
    requires u.Node? && x in u.ring
  {
    && InsideBut(mem, mem', Nodes(u), slot)
    && Links(mem', par, RemoveHere(u, x), i) && Rd(mem', slot) == Root(RemoveHere(u, x))
  }

  lemma InsideAfterSlot(mem: Mem, mem1: Mem, s: set<int>, slot: int, v: int)
    requires Inside(mem, mem1, s)
    ensures InsideBut(mem, mem1[slot := v], s, slot)
  {
    var mem2 := mem1[slot := v];
    forall w {:trigger Rd(mem2, w)} | w != slot && AwayFrom(w, s) ensures Rd(mem2, w) == Rd(mem, w) {
      assert Rd(mem1, w) == Rd(mem, w);
    }
  }

  lemma InsideAfterAdopt(mem: Mem, mem1: Mem, mem2: Mem, q: Rest, par: int, slot: int, s: set<int>)
    requires Inside(mem, mem1, s) && q.ring != [] && RestParts(q, s)
    requires AdoptWords(mem1, mem2, q.ring[0], Root(q.left), Root(q.right), par, slot)
    ensures InsideBut(mem, mem2, s, slot)
  {
    RootsIn(q, s);
    var r, c0, c1 := q.ring[0], Root(q.left), Root(q.right);
    forall w {:trigger Rd(mem2, w)} | w != slot && AwayFrom(w, s) ensures Rd(mem2, w) == Rd(mem, w) {
      assert w != r + PARENT && w != r + CHILD0 && w != r + CHILD1;
      assert c0 != 0 ==> w != c0 + PARENT;
      assert c1 != 0 ==> w != c1 + PARENT;
      assert Rd(mem1, w) == Rd(mem, w);
    }
  }

  /** x stood alone without children: its slot is simply cleared. */
  lemma RelinkedNone(mem: Mem, mem1: Mem, par: int, u: Tree, x: int, i: int, slot: int)
    requires u.Node? && x in u.ring && x == Root(u) && DetachedTo(mem, mem1, par, u, x, i, 0) && RestOf(u, x).ring == []
    requires (forall a :: a in Nodes(u) ==> a > 0) && Disjoint(u)
    ensures Relinked(mem, mem1[slot := 0], par, u, x, i, slot)
  {
    RestMakesTree(u, x);
    InsideAfterSlot(mem, mem1, Nodes(u), slot, 0);
    EmptyRest(u, x);
  }

  lemma EmptyRest(u: Tree, x: int)
    requires u.Node? && x in u.ring && RestOf(u, x).ring == [] && Disjoint(u)
    ensures RemoveHere(u, x) == Nil
  {
    if |u.ring| > 1 {
    } else if u.right.Node? {
      LeafRing(u.right);
    } else if u.left.Node? {
      LeafRing(u.left);
    }
  }

  lemma {:induction false} LeafRing(t: Tree)
    requires t.Node? && Disjoint(t)
    ensures |RightLeaf(t).ring| > 0
  {
    if t.right.Node? { LeafRing(t.right); } else if t.left.Node? { LeafRing(t.left); }
  }

  lemma RelinkedHeir(mem: Mem, mem1: Mem, par: int, u: Tree, x: int, i: int, f: Sizes, least: int, slot: int)
    requires UnlinkState(mem, par, u, x, i, f, least) && x == Root(u) && RestOf(u, x).ring != []
    requires DetachedTo(mem, mem1, par, u, x, i, Heir(RestOf(u, x))) && AwayFrom(slot, Nodes(u))
    ensures var r := Heir(RestOf(u, x)); Relinked(mem, Adopt(mem1[slot := r], x, r, par), par, u, x, i, slot)
  {
    var q := RestOf(u, x);
    var mem2 := Adopt(mem1[slot := Heir(q)], x, Heir(q), par);
    HeirPlaces(mem, par, u, x, i, f, least, slot);
    AdoptEffect(mem1, q, x, par, slot, Nodes(u), i);
    InsideAfterAdopt(mem, mem1, mem2, q, par, slot, Nodes(u));
    Adopted(mem1, mem2, q, x, par, slot, Nodes(u), u.mid, i);
    RestMakesTree(u, x);
  }

  // ----- the program -----

  /** The chunks C0 and C1 are no addresses below least_addr. */
  ghost predicate ChildrenAbove(mem: Mem, x: int, r: int, xp: int, least: int) {
    && (Rd(mem[r + PARENT := xp], x + CHILD0) != 0 ==> Rd(mem[r + PARENT := xp], x + CHILD0) >= least)
    && (Rd(AdoptFirst(mem, x, r, xp), x + CHILD1) != 0 ==> Rd(AdoptFirst(mem, x, r, xp), x + CHILD1) >= least)
  }

  /** R->parent = XP; if ((C0 = X->child[0]) != 0) ...; if ((C1 = X->child[1]) != 0) ... */
  method AdoptChildren(m: Heap, x: int, r: int, xp: int)
    modifies m`mem
    requires ChildrenAbove(m.mem, x, r, xp, m.leastAddr)
    ensures m.mem == Adopt(old(m.mem), x, r, xp)
  {
    m.mem := m.mem[r + PARENT := xp];
    var c0 := Rd(m.mem, x + CHILD0);
    if c0 != 0 {
      assert c0 >= m.leastAddr;  // RTCHECK
      m.mem := m.mem[r + CHILD0 := c0];
      m.mem := m.mem[c0 + PARENT := r];
    }
    var c1 := Rd(m.mem, x + CHILD1);
    if c1 != 0 {
      assert c1 >= m.leastAddr;  // RTCHECK
      m.mem := m.mem[r + CHILD1 := c1];
      m.mem := m.mem[c1 + PARENT := r];
    }
  }

  lemma BinWord(mem: Mem, mem1: Mem, t: Tree, x: int, i: nat, s: set<int>)
    requires x in Nodes(t) && SlotOk(mem, t, x, i) && x == Root(Find(t, x)) && Rd(mem, TreeBinAt(i)) == Root(t)
        && i < NTREEBINS
    requires Inside(mem, mem1, s) && forall a :: a in s ==> a >= HEAP_FLOOR
    ensures x == Rd(mem1, TreeBinAt(i)) <==> x in t.ring
  {
    assert AwayFrom(TreeBinAt(i), s);
  }

  lemma ParentWord(mem: Mem, mem1: Mem, nodes: set<int>, s: set<int>, par: int)
    requires Apart(nodes) && s <= nodes && par in nodes && par !in s && Inside(mem, mem1, s)
    ensures Rd(mem1, par + CHILD0) == Rd(mem, par + CHILD0)
  {
    SlotAway(nodes, s, par, par + CHILD0);
  }

  /** The word that led to x: the bin's, when X == *H, or a child word of XP. */
  ghost predicate SlotIs(mem1: Mem, x: int, h: int, xp: int, slot: int, least: int) {
    && slot == (if x == Rd(mem1, h) then h else if Rd(mem1, xp + CHILD0) == x then xp + CHILD0 else xp + CHILD1)
    && (x != Rd(mem1, h) ==> xp >= least)
  }

  lemma SlotTests(mem: Mem, mem1: Mem, t: Tree, x: int, i: nat, f: Sizes, least: int)
    requires Located(mem, t, x, i, f, least) && x == Root(Find(t, x)) && Inside(mem, mem1, Nodes(Find(t, x)))
    ensures SlotIs(mem1, x, TreeBinAt(i), ParFor(t, x, TreeBinAt(i)), SlotFor(t, x, TreeBinAt(i)), least)
    ensures x == Rd(mem1, TreeBinAt(i)) <==> x in t.ring
  {
    LocatedSlot(mem, t, x, i, f, least);
    FindLinks(mem, TreeBinAt(i), t, x, i);
    BinWord(mem, mem1, t, x, i, Nodes(Find(t, x)));
    if x !in t.ring { ParentWord(mem, mem1, Nodes(t), Nodes(Find(t, x)), ParFor(t, x, TreeBinAt(i))); }
  }

  /** if (X == *H) ... else if (XP->child[0] == X) ... else ... */
  method PutHeir(m: Heap, x: int, xp: int, r: int, ghost i: nat, ghost slot: int)
    requires i < NTREEBINS && m.treemap < WORD_RANGE && Rd(m.mem, x + INDEX) == i
    requires SlotIs(m.mem, x, TreeBinAt(i), xp, slot, m.leastAddr)
    modifies m`mem, m`treemap
    ensures m.mem == old(m.mem)[slot := r]
    ensures if x == Rd(old(m.mem), TreeBinAt(i)) && r == 0 then m.treemap == Clear(old(m.treemap), i)
        else m.treemap == old(m.treemap)
  {
    var h := TreeBinAt(Rd(m.mem, x + INDEX));
    if x == Rd(m.mem, h) {
      m.mem := m.mem[h := r];
      if r == 0 { m.treemap := Clear(m.treemap, Rd(m.mem, x + INDEX)); }
    } else {
      assert xp >= m.leastAddr;  // RTCHECK(ok_address(M, XP))
      if Rd(m.mem, xp + CHILD0) == x {
        m.mem := m.mem[xp + CHILD0 := r];
      } else {
        m.mem := m.mem[xp + CHILD1 := r];
      }
    }
  }

  lemma {:induction false} BinFrom(s: int, j: nat) returns (i: nat)
    requires j < NTREEBINS && MinSize(j) <= s
    ensures i < NTREEBINS && InTreeBin(i, s)
    decreases NTREEBINS - j
  {
    if j + 1 == NTREEBINS || s < MinSize(j + 1) { i := j; } else { i := BinFrom(s, j + 1); }
  }

  /** A large binned chunk is in the trie of its size range. */
  lemma InItsTree(mem: Mem, smallmap: nat, treemap: nat, bins: Bins, f: Sizes, least: int, x: int) returns (i: nat)
    requires BinsOk(mem, smallmap, treemap, bins, f, least) && x in f && f[x] >= MIN_LARGE_SIZE
    ensures i < NTREEBINS && InTreeBin(i, f[x]) && Located(mem, bins.trees[i], x, i, f, least) && Bit(treemap, i)
    ensures forall a :: a in Nodes(bins.trees[i]) ==> f[a] >= 64
  {
    assert MinSize(0) == 256 by { Pow2Small(); }
    i := BinFrom(f[x], 0);
    TreeBinOf(mem, treemap, bins.trees, f, i);
    LocatedIn(mem, Bit(treemap, i), bins.trees[i], x, i, f, least);
  }

  lemma LocatedIn(mem: Mem, on: bool, t: Tree, x: int, i: nat, f: Sizes, least: int)
    requires i < NTREEBINS && TreeBin(mem, on, i, t, f) && Spaced(f) && x in f && InTreeBin(i, f[x])
    requires forall a :: a in f ==> a >= least
    ensures on && Located(mem, t, x, i, f, least)
    ensures forall a :: a in Nodes(t) ==> f[a] >= 64
  {
    TreeNodesLarge(t, i, f);
    ShapeDisjoint(t, f, Lo(i), Lo(i) + Pow2(Exp(i)));
    ApartNodes(f, Nodes(t));
  }

  lemma ApartNodes(f: Sizes, nodes: set<int>)
    requires Spaced(f) && forall a :: a in nodes ==> a in f && f[a] >= MIN_LARGE_SIZE
    ensures Apart(nodes)
  {
  }

  lemma ParentWordOf(mem: Mem, par: int, u: Tree, x: int, i: int)
    requires u.Node? && x in u.ring && Links(mem, par, u, i)
    ensures Rd(mem, x + PARENT) == if x == Root(u) then par else 0
  {
    if x != Root(u) {
      var k := IndexOf(u.ring, x);
      assert Chained(mem, u.ring[k]);
    }
  }

  /** x->parent is null exactly when x is chained to another node of its size. */
  lemma ParentOf(mem: Mem, t: Tree, x: int, i: nat, f: Sizes, least: int)
    requires Located(mem, t, x, i, f, least)
    ensures var par := ParFor(t, x, TreeBinAt(i));
            Rd(mem, x + PARENT) == (if x == Root(Find(t, x)) then par else 0) && par != 0
  {
    FindLinks(mem, TreeBinAt(i), t, x, i);
    ParentWordOf(mem, ParFor(t, x, TreeBinAt(i)), Find(t, x), x, i);
    LocatedSlot(mem, t, x, i, f, least);
  }

  /** The bit of the bin goes exactly when its trie became empty. */
  lemma UnlinkedMap(map0: nat, map1: nat, i: nat, t: Tree, x: int, empty: bool)
    requires i < 32 && map0 < WORD_RANGE && Bit(map0, i) && x in Nodes(t)
    requires empty <==> x in t.ring && RemoveHere(t, x) == Nil
    requires map1 == if empty then Clear(map0, i) else map0
    ensures MapChanged(map0, map1, i, RemoveT(t, x).Node?)
  {
    ClearedMap(map0, i);
    MarkedMap(map0, i);
  }

  lemma ChildrenOf(mem1: Mem, par: int, u: Tree, x: int, i: int, slot: int, s: set<int>, least: int)
    requires u.Node? && x in u.ring
    requires AdoptPlaces(RestOf(u, x), x, slot, s) && RestLinks(mem1, RestOf(u, x), x, i)
    requires forall a :: a in s ==> a >= least
    ensures var r := Heir(RestOf(u, x)); ChildrenAbove(mem1[slot := r], x, r, par, least) && r >= least && r != 0
  {
    var q := RestOf(u, x);
    var r := Heir(q);
    AdoptDistinct(q, x, slot, s);
    ChildReads(mem1, x, r, par, slot, Root(q.left), Root(q.right));
  }

  lemma ChildReads(mem1: Mem, x: int, r: int, par: int, slot: int, c0: int, c1: int)
    requires Rd(mem1, x + CHILD0) == c0 && Rd(mem1, x + CHILD1) == c1
    requires (r + 64 <= x || x + 64 <= r) && !(x + FD <= slot <= x + INDEX)
    requires c0 != 0 ==> c0 + 64 <= x || x + 64 <= c0
    ensures Rd(mem1[slot := r][r + PARENT := par], x + CHILD0) == c0
    ensures Rd(AdoptFirst(mem1[slot := r], x, r, par), x + CHILD1) == c1
  {
  }

  /** if (XP != 0) { ... } */
  method Relink(m: Heap, x: int, xp: int, r: int, ghost mem0: Mem, ghost t: Tree, ghost u: Tree, ghost i: nat)
    requires Located(mem0, t, x, i, m.binned, m.leastAddr) && u == Find(t, x) && x == Root(u)
        && xp == ParFor(t, x, TreeBinAt(i))
    requires UnlinkState(mem0, xp, u, x, i, m.binned, m.leastAddr) && DetachedTo(mem0, m.mem, xp, u, x, i, r)
    requires m.treemap < WORD_RANGE
    modifies m`mem, m`treemap
    ensures Relinked(mem0, m.mem, xp, u, x, i, SlotFor(t, x, TreeBinAt(i)))
    ensures m.treemap == if x in t.ring && RemoveHere(t, x) == Nil then Clear(old(m.treemap), i) else old(m.treemap)
  {
    ghost var mem1, slot := m.mem, SlotFor(t, x, TreeBinAt(i));
    SlotTests(mem0, mem1, t, x, i, m.binned, m.leastAddr);
    PutHeir(m, x, xp, r, i, slot);
    HeirOrNone(mem0, mem1, t, u, x, i, m.binned, m.leastAddr, xp, slot, r);
    if r != 0 {
      assert r >= m.leastAddr;  // RTCHECK(ok_address(M, R))
      AdoptChildren(m, x, r, xp);
    }
  }

  lemma HeirOrNone(mem0: Mem, mem1: Mem, t: Tree, u: Tree, x: int, i: nat, f: Sizes, least: int, par: int, slot: int,
      r: int)
    requires Located(mem0, t, x, i, f, least) && u == Find(t, x) && x == Root(u) && par == ParFor(t, x, TreeBinAt(i))
        && slot == SlotFor(t, x, TreeBinAt(i))
    requires UnlinkState(mem0, par, u, x, i, f, least) && DetachedTo(mem0, mem1, par, u, x, i, r)
    ensures r == 0 ==> Relinked(mem0, mem1[slot := 0], par, u, x, i, slot)
    ensures r != 0 ==> r >= least && ChildrenAbove(mem1[slot := r], x, r, par, least)
    ensures r != 0 ==> Relinked(mem0, Adopt(mem1[slot := r], x, r, par), par, u, x, i, slot)
    ensures r == 0 <==> RemoveHere(u, x) == Nil
    ensures x in t.ring ==> u == t
  {
    LocatedSlot(mem0, t, x, i, f, least);
    if RestOf(u, x).ring == [] {
      RelinkedNone(mem0, mem1, par, u, x, i, slot);
      EmptyRest(u, x);
    } else {
      HeirPlaces(mem0, par, u, x, i, f, least, slot);
      ChildrenOf(mem1, par, u, x, i, slot, Nodes(u), least);
      RelinkedHeir(mem0, mem1, par, u, x, i, f, least, slot);
      RestMakesTree(u, x);
    }
  }

  /** x was chained: its slot and the node's place are untouched. */
  lemma ChainedRelinked(mem0: Mem, mem1: Mem, t: Tree, u: Tree, x: int, i: nat, f: Sizes, least: int, par: int, r: int)
    requires Located(mem0, t, x, i, f, least) && u == Find(t, x) && u.Node? && x in u.ring && x != Root(u)
        && par == ParFor(t, x, TreeBinAt(i))
    requires DetachedTo(mem0, mem1, par, u, x, i, r)
    ensures Relinked(mem0, mem1, par, u, x, i, SlotFor(t, x, TreeBinAt(i)))
    ensures !(x in t.ring && RemoveHere(t, x) == Nil)
  {
    LocatedSlot(mem0, t, x, i, f, least);
    FindLinks(mem0, TreeBinAt(i), t, x, i);
  }

  /** Unlink a chunk from the tree of its size range. */
  method UnlinkLargeChunk(m: Heap, x: int) returns (ghost i: nat)
    requires BinsOk(m.mem, m.smallmap, m.treemap, m.bins, m.binned, m.leastAddr) && x in m.binned
        && m.binned[x] >= MIN_LARGE_SIZE
    modifies m`mem, m`treemap, m`bins, m`binned
    ensures m.binned == old(m.binned) - {x}
    ensures IndexOk(m.mem, m.smallmap, m.treemap, m.bins, m.binned)
    ensures LinksOnly(old(m.mem), m.mem, old(m.binned))
    ensures i < NTREEBINS && InTreeBin(i, old(m.binned)[x])
    ensures m.bins == old(m.bins).(trees := old(m.bins.trees)[i := RemoveT(old(m.bins.trees)[i], x)])
  {
    i := InItsTree(m.mem, m.smallmap, m.treemap, m.bins, m.binned, m.leastAddr, x);
    ghost var mem0, map0, t := m.mem, m.treemap, m.bins.trees[i];
    UnlinkFromTree(m, x, t, i);
    ghost var bins' := m.bins.(trees := m.bins.trees[i := RemoveT(t, x)]);
    IndexRemoveTree(mem0, m.mem, m.smallmap, map0, m.treemap, m.bins, m.binned, m.binned - {x}, x, i);
    m.bins := bins';
    m.binned := m.binned - {x};
  }

  method UnlinkFromTree(m: Heap, x: int, ghost t: Tree, ghost i: nat)
    requires Located(m.mem, t, x, i, m.binned, m.leastAddr) && (forall a :: a in Nodes(t) ==> m.binned[a] >= 64)
    requires m.treemap < WORD_RANGE && Bit(m.treemap, i)
    modifies m`mem, m`treemap
    ensures Links(m.mem, TreeBinAt(i), RemoveT(t, x), i) && Rd(m.mem, TreeBinAt(i)) == Root(RemoveT(t, x))
    ensures OnlyIn(old(m.mem), m.mem, Nodes(t), m.binned, TreeBinAt(i), TreeBinAt(i))
    ensures MapChanged(old(m.treemap), m.treemap, i, RemoveT(t, x).Node?)
  {
    hide OnlyIn, MapChanged, RemoveHere, RemoveT, Relinked, UnlinkState, Bit;
    ghost var mem0, map0, u, par := m.mem, m.treemap, Find(t, x), ParFor(t, x, TreeBinAt(i));
    LocatedNode(m.mem, t, x, i, m.binned, m.leastAddr);
    ParentOf(m.mem, t, x, i, m.binned, m.leastAddr);
    var xp := Rd(m.mem, x + PARENT);
    var r := Detach(m, x, par, u, i);
    if xp != 0 {
      Relink(m, x, xp, r, mem0, t, u, i);
    } else {
      ChainedRelinked(mem0, m.mem, t, u, x, i, m.binned, m.leastAddr, par, r);
    }
    UnlinkedTrie(mem0, m.mem, t, x, i, m.binned, m.leastAddr);
    UnlinkedOnly(mem0, m.mem, t, x, i, m.binned, m.leastAddr);
    UnlinkedMap(map0, m.treemap, i, t, x, x in t.ring && RemoveHere(t, x) == Nil);
  }
}
