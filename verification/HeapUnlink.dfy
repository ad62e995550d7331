/** unlink_large_chunk (src/mm/malloc.c:3707-3793). */
module HeapUnlink {
  import opened BinIndex
  import opened Memory
  import opened Rings
  import opened Tries
  import opened TrieLinks
  import opened Index
  import opened HeapState
  import HeapTrees

  /** What is left of the node of x once the first step has run: the ring that replaces it (empty
      when nothing does), without children yet, and the two subtrees still hanging under x. */
  datatype Rest = Rest(ring: seq<int>, size: int, left: Tree, right: Tree)

  function RestOf(u: Tree, x: int): Rest
    requires u.Node? && x in u.ring
  {
    if |u.ring| > 1 then Rest(Removed(u.ring, IndexOf(u.ring, x)), u.size, u.left, u.right)
    else if u.right.Node? then Rest(RightLeaf(u.right).ring, RightLeaf(u.right).size, u.left, DropLeaf(u.right))
    else if u.left.Node? then Rest(RightLeaf(u.left).ring, RightLeaf(u.left).size, DropLeaf(u.left), u.right)
    else Rest([], 0, Nil, Nil)
  }

  lemma RestMakesTree(u: Tree, x: int)
    requires u.Node? && x in u.ring
    ensures var q := RestOf(u, x);
            if |u.ring| == 1 && u.left.Nil? && u.right.Nil? then RemoveHere(u, x) == Nil && q.ring == []
            else RemoveHere(u, x) == Node(q.ring, q.size, u.mid, q.left, q.right)
  {
  }

  ghost predicate RestNodes(q: Rest, u: Tree, x: int) {
    && Members(q.ring) <= Nodes(u) && Nodes(q.left) <= Nodes(u) && Nodes(q.right) <= Nodes(u)
    && x !in Members(q.ring) && x !in Nodes(q.left) && x !in Nodes(q.right)
    && Members(q.ring) !! Nodes(q.left) && Members(q.ring) !! Nodes(q.right) && Nodes(q.left) !! Nodes(q.right)
    && Disjoint(q.left) && Disjoint(q.right)
  }

  /** The rest as it lies in memory between the two steps. */
  ghost predicate RestLinks(mem: Mem, q: Rest, x: int, i: int) {
    && (q.ring != [] ==> exists p :: NodeLinks(mem, p, q.ring, 0, 0, i))
    && Links(mem, x, q.left, i) && Links(mem, x, q.right, i)
    && Rd(mem, x + CHILD0) == Root(q.left) && Rd(mem, x + CHILD1) == Root(q.right)
  }

  /** R, the chunk that takes the place of x, or null. */
  function Heir(q: Rest): int { if q.ring == [] then 0 else q.ring[0] }

  // ----- the first step: x leaves its ring -----

  lemma RestInRing(u: Tree, x: int)
    requires u.Node? && x in u.ring && |u.ring| > 1 && Disjoint(u) && DistinctRing(u.ring)
    ensures RestNodes(RestOf(u, x), u, x)
  {
    InRemoved(u.ring, x);
  }

  lemma RestRight(u: Tree, x: int)
    requires u.Node? && u.ring == [x] && u.right.Node? && Disjoint(u)
    ensures RestNodes(RestOf(u, x), u, x)
  {
    DropNodes(u.right);
    DropDisjoint(u.right);
  }

  lemma RestLeft(u: Tree, x: int)
    requires u.Node? && u.ring == [x] && u.right.Nil? && u.left.Node? && Disjoint(u)
    ensures RestNodes(RestOf(u, x), u, x)
  {
    DropNodes(u.left);
    DropDisjoint(u.left);
  }

  /** x was the node itself, with others chained to it: its bk neighbour is detached as a bare node. */
  lemma HeadBypassed(mem: Mem, mem': Mem, par: int, u: Tree, x: int, i: int)
    requires u.Node? && Links(mem, par, u, i) && Disjoint(u) && Apart(Nodes(u)) && |u.ring| > 1 && x == u.ring[0]
    requires BypassWords(mem, mem', u.ring, 0)
    requires TreeSame(mem, mem', Nodes(u.left)) && TreeSame(mem, mem', Nodes(u.right))
    ensures RestLinks(mem', RestOf(u, x), x, i)
  {
    ApartSub(Nodes(u), Members(u.ring));
    ApartSub(Nodes(u), Nodes(u.left));
    ApartSub(Nodes(u), Nodes(u.right));
    RemovedTakesOut(u.ring, 0);
    HeadRemoved(mem, mem', par, u.ring, Removed(u.ring, 0), Root(u.left), Root(u.right), i);
    BypassHead(mem, mem', par, u.ring, Root(u.left), Root(u.right), i, 0);
    LinksFrame(mem, mem', x, u.left, i);
    LinksFrame(mem, mem', x, u.right, i);
  }

  /** x was chained to the node: the node just loses it. */
  lemma ChainBypassed(mem: Mem, mem': Mem, par: int, u: Tree, x: int, k: nat, i: int)
    requires u.Node? && Links(mem, par, u, i) && Disjoint(u) && Apart(Nodes(u)) && 1 <= k < |u.ring| && x == u.ring[k]
    requires BypassWords(mem, mem', u.ring, k) && k == IndexOf(u.ring, x)
    requires TreeSame(mem, mem', Nodes(u.left)) && TreeSame(mem, mem', Nodes(u.right))
    ensures Links(mem', par, RemoveHere(u, x), i) && Root(RemoveHere(u, x)) == Root(u)
  {
    ApartSub(Nodes(u), Members(u.ring));
    ApartSub(Nodes(u), Nodes(u.left));
    ApartSub(Nodes(u), Nodes(u.right));
    RemovedTakesOut(u.ring, k);
    ChainRemoved(mem, mem', par, u.ring, Removed(u.ring, k), Root(u.left), Root(u.right), i, k);
    LinksFrame(mem, mem', u.ring[0], u.left, i);
    LinksFrame(mem, mem', u.ring[0], u.right, i);
  }

  /** Writing one tree word of chunk o keeps the tree words of other chunks. */
  lemma OneWord(mem: Mem, w: int, v: int, o: int, s: set<int>, t: set<int>)
    requires Apart(s) && o in s && t <= s && o !in t && o + FD <= w <= o + INDEX
    ensures TreeSame(mem, mem[w := v], t)
  {
  }

  lemma OneWordBut(mem: Mem, w: int, v: int, t: set<int>)
    ensures TreeSameBut(mem, mem[w := v], t, w, w, w) && Rd(mem[w := v], w) == v
  {
  }

  lemma NodeSame(mem: Mem, mem': Mem, p: int, ring: seq<int>, i: int)
    requires NodeLinks(mem, p, ring, 0, 0, i) && Apart(Members(ring)) && TreeSame(mem, mem', Members(ring))
    ensures NodeLinks(mem', p, ring, 0, 0, i)
  {
    assert ring[0] in Members(ring);
    SameBut(mem, mem', Members(ring), Members(ring), ring[0] + PARENT, ring[0] + CHILD0, ring[0] + CHILD1);
    NodeFrame(mem, mem', p, p, ring, 0, 0, 0, 0, i);
  }

  /** The chunk whose word leads to the rightmost leaf of c: a node of c that stays, or x above c. */
  function DetachOwner(c: Tree, x: int): int
    requires c.Node?
  {
    if IsLeaf(c) then x else LeafOwner(c)
  }

  lemma DetachOwnerIs(c: Tree, x: int, left: bool)
    requires c.Node? && Disjoint(c)
    ensures var o, slot := DetachOwner(c, x), LeafSlot(c, x + (if left then CHILD0 else CHILD1));
            && (slot == o + CHILD0 || slot == o + CHILD1)
            && (IsLeaf(c) ==> slot == x + (if left then CHILD0 else CHILD1))
            && (!IsLeaf(c) ==> o in Nodes(DropLeaf(c)) && o in Nodes(c))
            && Nodes(DropLeaf(c)) <= Nodes(c) && Members(RightLeaf(c).ring) <= Nodes(c)
            && Nodes(DropLeaf(c)) !! Members(RightLeaf(c).ring)
  {
    DropNodes(c);
    DropDisjoint(c);
    if !IsLeaf(c) { LeafSlotIn(c, x + (if left then CHILD0 else CHILD1)); }
  }

  /** The leaf's ring stands alone once the word that leads to it is cleared. */
  lemma LeafAlone(mem: Mem, x: int, c: Tree, i: int, s: set<int>, left: bool)
    requires c.Node? && Links(mem, x, c, i) && Disjoint(c) && Apart(s) && Nodes(c) + {x} <= s && x !in Nodes(c)
    ensures var mem' := mem[LeafSlot(c, x + (if left then CHILD0 else CHILD1)) := 0];
            exists p :: NodeLinks(mem', p, RightLeaf(c).ring, 0, 0, i)
  {
    var slot, o, ring := LeafSlot(c, x + (if left then CHILD0 else CHILD1)), DetachOwner(c, x), RightLeaf(c).ring;
    DetachOwnerIs(c, x, left);
    var p := LeafNode(mem, x, c, i);
    ApartSub(s, Members(ring));
    OneWord(mem, slot, 0, o, s, Members(ring));
    NodeSame(mem, mem[slot := 0], p, ring, i);
  }

  lemma LeafDropped(mem: Mem, x: int, c: Tree, i: int, left: bool)
    requires c.Node? && Links(mem, x, c, i) && Disjoint(c) && Apart(Nodes(c))
    ensures var mem' := mem[LeafSlot(c, x + (if left then CHILD0 else CHILD1)) := 0]; Links(mem', x, DropLeaf(c), i)
    ensures !IsLeaf(c) ==> Root(DropLeaf(c)) == Root(c)
  {
    var rp := x + (if left then CHILD0 else CHILD1);
    OneWordBut(mem, LeafSlot(c, rp), 0, Nodes(DropLeaf(c)));
    DropLinks(mem, mem[LeafSlot(c, rp) := 0], x, c, i, rp);
  }

  /** x was alone in its ring: the rightmost leaf below it is detached. */
  lemma LeafDetached(mem: Mem, par: int, u: Tree, x: int, i: int, left: bool)
    requires u.Node? && Links(mem, par, u, i) && Disjoint(u) && Apart(Nodes(u)) && u.ring == [x]
    requires if left then u.right.Nil? && u.left.Node? else u.right.Node?
    ensures var c := if left then u.left else u.right;
            var mem' := mem[LeafSlot(c, x + (if left then CHILD0 else CHILD1)) := 0];
            RestLinks(mem', RestOf(u, x), x, i)
  {
    var c, other := if left then u.left else u.right, if left then u.right else u.left;
    var slot := LeafSlot(c, x + (if left then CHILD0 else CHILD1));
    var mem' := mem[slot := 0];
    RootIn(u);
    ApartSub(Nodes(u), Nodes(c));
    ApartSub(Nodes(u), Nodes(other));
    LeafAlone(mem, x, c, i, Nodes(u), left);
    LeafDropped(mem, x, c, i, left);
    DetachOwnerIs(c, x, left);
    OneWord(mem, slot, 0, DetachOwner(c, x), Nodes(u), Nodes(other));
    LinksFrame(mem, mem', x, other, i);
    DetachedRoots(mem, par, u, x, i, left);
  }

  lemma DetachedRoots(mem: Mem, par: int, u: Tree, x: int, i: int, left: bool)
    requires u.Node? && Links(mem, par, u, i) && Disjoint(u) && Apart(Nodes(u)) && u.ring == [x]
    requires if left then u.right.Nil? && u.left.Node? else u.right.Node?
    ensures var c := if left then u.left else u.right;
            var mem' := mem[LeafSlot(c, x + (if left then CHILD0 else CHILD1)) := 0];
            && Rd(mem', x + CHILD0) == Root(if left then DropLeaf(c) else u.left)
            && Rd(mem', x + CHILD1) == Root(if left then u.right else DropLeaf(c))
  {
    hide Links, Nodes, Disjoint, LeafSlot, Ring;
    var c := if left then u.left else u.right;
    Parts(u);
    ChildLinks(mem, par, u, i);
    RootIn(u);
    DetachOwnerIs(c, x, left);
    ApartSub(Nodes(u), Nodes(c));
    LeafDropped(mem, x, c, i, left);
    if !IsLeaf(c) {
      assert x in Nodes(u) && LeafOwner(c) in Nodes(u) && x != LeafOwner(c);
    }
  }

  // ----- the second step: the heir takes over the place of x -----

  /** The writes of the second step: the slot that led to x, the heir's parent and child words, and
      the parent words of the children it takes over. */
  ghost predicate AdoptWords(mem: Mem, mem': Mem, r: int, c0: int, c1: int, par: int, slot: int) {
    && (forall w {:trigger Rd(mem', w)} ::
          (w != slot && w != r + PARENT && w != r + CHILD0 && w != r + CHILD1
           && !(c0 != 0 && w == c0 + PARENT) && !(c1 != 0 && w == c1 + PARENT)) ==> Rd(mem', w) == Rd(mem, w))
    && Rd(mem', slot) == r
    && Rd(mem', r + PARENT) == par && Rd(mem', r + CHILD0) == c0 && Rd(mem', r + CHILD1) == c1
    && (c0 != 0 ==> Rd(mem', c0 + PARENT) == r)
    && (c1 != 0 ==> Rd(mem', c1 + PARENT) == r)
  }

  ghost predicate AwayFrom(w: int, s: set<int>) {
    forall a :: a in s ==> !(a + FD <= w <= a + INDEX)
  }

  /** Each part of the rest only sees its own words change. */
  lemma AdoptSame(mem: Mem, mem': Mem, r: int, c0: int, c1: int, par: int, slot: int, s: set<int>, t: set<int>, k: int)
    requires AdoptWords(mem, mem', r, c0, c1, par, slot) && Apart(s) && AwayFrom(slot, s) && t <= s
    requires r in s && (c0 != 0 ==> c0 in s) && (c1 != 0 ==> c1 in s)
    requires (k == r || r !in t) && (k == c0 || c0 == 0 || c0 !in t) && (k == c1 || c1 == 0 || c1 !in t)
    ensures k == r && (c0 == 0 || c0 != r) && (c1 == 0 || c1 != r) ==>
        TreeSameBut(mem, mem', t, r + PARENT, r + CHILD0, r + CHILD1)
    ensures k != r ==> TreeSameBut(mem, mem', t, k + PARENT, k + PARENT, k + PARENT)
  {
  }

  lemma RootsIn(q: Rest, s: set<int>)
    requires Disjoint(q.left) && Disjoint(q.right) && Nodes(q.left) <= s && Nodes(q.right) <= s
    requires q.ring != [] && Members(q.ring) <= s
    ensures q.left.Node? ==> Root(q.left) in Nodes(q.left) && Root(q.left) in s
    ensures q.right.Node? ==> Root(q.right) in Nodes(q.right) && Root(q.right) in s
    ensures q.ring[0] in Members(q.ring) && q.ring[0] in s
  {
    if q.left.Node? { RootIn(q.left); }
    if q.right.Node? { RootIn(q.right); }
    assert q.ring[0] in q.ring;
  }

  /** The heir's ring and the subtrees are disjoint parts of s. */
  ghost predicate RestParts(q: Rest, s: set<int>) {
    && Apart(s) && (forall a :: a in s ==> a > 0)
    && Members(q.ring) <= s && Nodes(q.left) <= s && Nodes(q.right) <= s
    && Members(q.ring) !! Nodes(q.left) && Members(q.ring) !! Nodes(q.right) && Nodes(q.left) !! Nodes(q.right)
    && Disjoint(q.left) && Disjoint(q.right)
  }

  lemma AdoptParts(mem: Mem, mem': Mem, q: Rest, par: int, slot: int, s: set<int>)
    requires q.ring != [] && RestParts(q, s) && AwayFrom(slot, s)
    requires AdoptWords(mem, mem', q.ring[0], Root(q.left), Root(q.right), par, slot)
    ensures TreeSameBut(mem, mem', Members(q.ring), q.ring[0] + PARENT, q.ring[0] + CHILD0, q.ring[0] + CHILD1)
    ensures TreeSameBut(mem, mem', Nodes(q.left), Root(q.left) + PARENT, Root(q.left) + PARENT, Root(q.left) + PARENT)
    ensures TreeSameBut(mem, mem', Nodes(q.right), Root(q.right) + PARENT, Root(q.right) + PARENT,
        Root(q.right) + PARENT)
  {
    var r, c0, c1 := q.ring[0], Root(q.left), Root(q.right);
    RootsIn(q, s);
    AdoptSame(mem, mem', r, c0, c1, par, slot, s, Members(q.ring), r);
    AdoptSame(mem, mem', r, c0, c1, par, slot, s, Nodes(q.left), c0);
    AdoptSame(mem, mem', r, c0, c1, par, slot, s, Nodes(q.right), c1);
  }

  /** After the second step the heir is the node, with the parent and the subtrees x had. */
  lemma Adopted(mem: Mem, mem': Mem, q: Rest, x: int, par: int, slot: int, s: set<int>, mid: int, i: int)
    requires q.ring != [] && RestParts(q, s) && AwayFrom(slot, s) && RestLinks(mem, q, x, i)
    requires AdoptWords(mem, mem', q.ring[0], Root(q.left), Root(q.right), par, slot)
    ensures Links(mem', par, Node(q.ring, q.size, mid, q.left, q.right), i)
  {
    var p :| NodeLinks(mem, p, q.ring, 0, 0, i);
    ApartSub(s, Members(q.ring));
    ApartSub(s, Nodes(q.left));
    ApartSub(s, Nodes(q.right));
    RootsIn(q, s);
    AdoptParts(mem, mem', q, par, slot, s);
    ReplaceNode(mem, mem', p, x, par, q.ring, q.left, q.right, q.size, mid, i);
  }

  // ----- the slot that leads to x -----

  /** The test XP->child[0] == X finds the child slot that leads to x. */
  lemma {:induction false} SlotWhich(mem: Mem, par: int, t: Tree, x: int, i: int, rp: int)
    requires x in Nodes(t) && x !in t.ring && x != 0 && Links(mem, par, t, i) && Disjoint(t) && Root(Find(t, x)) == x
    ensures SlotFor(t, x, rp) == ParFor(t, x, par) + (if Rd(mem, ParFor(t, x, par) + CHILD0) == x then CHILD0
        else CHILD1)
    decreases t
  {
    var left := x in Nodes(t.left);
    var sub := if left then t.left else t.right;
    if x in sub.ring {
      if t.left.Node? { RootIn(t.left); }
    } else {
      SlotWhich(mem, t.ring[0], sub, x, i, Root(t) + (if left then CHILD0 else CHILD1));
    }
  }

  // ----- the program -----

  /** Descend to the rightmost leaf of c: R = *(RP = CP) while there is a child. */
  method FindLeaf(mem: Mem, r0: int, rp0: int, ghost c: Tree, ghost f: Sizes, ghost par: int, ghost i: nat)
      returns (r: int, rp: int)
    requires c.Node? && r0 == Root(c) && Links(mem, par, c, i) && Holds(c, f) && Spaced(f)
    ensures r == Root(RightLeaf(c)) && rp == LeafSlot(c, rp0)
  {
    r, rp := r0, rp0;
    ghost var cur, p := c, par;
    while true
      invariant cur.Node? && r == Root(cur) && Links(mem, p, cur, i) && Holds(cur, f)
      invariant RightLeaf(cur) == RightLeaf(c) && LeafSlot(cur, rp) == LeafSlot(c, rp0)
      decreases cur
    {
      HeapTrees.ChildNull(mem, cur.right, f, i, r);
      HeapTrees.ChildNull(mem, cur.left, f, i, r);
      var cp := r + CHILD1;
      if Rd(mem, cp) == 0 {
        cp := r + CHILD0;
        if Rd(mem, cp) == 0 { break; }
        cur := cur.left;
      } else {
        cur := cur.right;
      }
      p := r;
      rp := cp;
      r := Rd(mem, rp);
    }
  }

  /** Only tree words of the chunks of s differ. */
  ghost predicate Inside(mem: Mem, mem': Mem, s: set<int>) {
    forall w {:trigger Rd(mem', w)} :: AwayFrom(w, s) ==> Rd(mem', w) == Rd(mem, w)
  }

  /** What unlink_large_chunk may assume of x and of the node u it belongs to. */
  ghost predicate UnlinkState(mem: Mem, par: int, u: Tree, x: int, i: int, f: Sizes, least: int) {
    && u.Node? && x in u.ring && Links(mem, par, u, i) && Disjoint(u) && Holds(u, f)
    && Apart(Nodes(u)) && Spaced(f) && Nodes(u) <= f.Keys
    && (forall a :: a in Nodes(u) ==> a >= least && a > 0)
  }

  lemma RingDistinct(mem: Mem, r: seq<int>, k: nat)
    requires Ring(mem, r) && k < |r|
    ensures k > 0 ==> r[k] != r[0]
  {
    if k > 0 { SpreadPair(r, 0, k); }
  }

  lemma RingAround(mem: Mem, par: int, u: Tree, x: int, i: int, f: Sizes, least: int)
    requires UnlinkState(mem, par, u, x, i, f, least)
    ensures var k, n := IndexOf(u.ring, x), |u.ring|;
            && Rd(mem, x + FD) == u.ring[Succ(k, n)] && Rd(mem, x + BK) == u.ring[Pred(k, n)]
            && Rd(mem, Rd(mem, x + FD) + BK) == x && Rd(mem, Rd(mem, x + BK) + FD) == x
            && (Rd(mem, x + BK) == x <==> n == 1)
            && Rd(mem, x + FD) >= least && Rd(mem, x + BK) >= least
            && (k == 0 <==> x == Root(u))
            && Rd(mem, x + FD) in Nodes(u) && Rd(mem, x + BK) in Nodes(u) && x in Nodes(u)
  {
    hide Links, Nodes, Disjoint, Apart, NodeLinks, Holds, Spaced, Ring;
    RingOf(mem, par, u, i);
    Parts(u);
    ChildLinks(mem, par, u, i);
    var k, n := IndexOf(u.ring, x), |u.ring|;
    Neighbours(mem, u.ring, k);
    MemberAt(u.ring, Succ(k, n));
    MemberAt(u.ring, Pred(k, n));
    MemberAt(u.ring, k);
    RingDistinct(mem, u.ring, k);
  }

  /** F->bk = R; R->fd = F. */
  function BypassTree(mem: Mem, f: int, r: int): Mem { mem[f + BK := r][r + FD := f] }

  lemma BypassTreeWords(mem: Mem, ring: seq<int>, k: nat)
    requires Ring(mem, ring) && Apart(Members(ring)) && |ring| > 1 && k < |ring|
    ensures BypassWords(mem, BypassTree(mem, ring[Succ(k, |ring|)], ring[Pred(k, |ring|)]), ring, k)
  {
    MemberAt(ring, Succ(k, |ring|));
    MemberAt(ring, Pred(k, |ring|));
    SpreadPair(ring, Succ(k, |ring|), Pred(k, |ring|));
  }

  lemma BypassTreeInside(mem: Mem, f: int, r: int, s: set<int>)
    requires f in s && r in s
    ensures Inside(mem, BypassTree(mem, f, r), s)
  {
  }

  lemma BypassTreeSame(mem: Mem, f: int, r: int, s: set<int>, t: set<int>)
    requires Apart(s) && f in s && r in s && t <= s && f !in t && r !in t
    ensures TreeSame(mem, BypassTree(mem, f, r), t)
  {
  }

  /** x shares its ring: after the bypass either the node has just lost x, or its heir is bare. */
  lemma RingLeft(mem: Mem, par: int, u: Tree, x: int, i: int, f: Sizes, least: int)
    requires UnlinkState(mem, par, u, x, i, f, least) && |u.ring| > 1
    ensures var mem' := BypassTree(mem, Rd(mem, x + FD), Rd(mem, x + BK));
            && Inside(mem, mem', Nodes(u))
            && (x == Root(u) ==> RestLinks(mem', RestOf(u, x), x, i) && Rd(mem, x + BK) == Heir(RestOf(u, x)))
            && (x != Root(u) ==> Links(mem', par, RemoveHere(u, x), i) && Root(RemoveHere(u, x)) == Root(u))
  {
    var k, n := IndexOf(u.ring, x), |u.ring|;
    var g, r := u.ring[Succ(k, n)], u.ring[Pred(k, n)];
    RingAround(mem, par, u, x, i, f, least);
    ApartSub(Nodes(u), Members(u.ring));
    BypassTreeWords(mem, u.ring, k);
    BypassTreeInside(mem, g, r, Nodes(u));
    MemberAt(u.ring, Succ(k, n));
    MemberAt(u.ring, Pred(k, n));
    BypassTreeSame(mem, g, r, Nodes(u), Nodes(u.left));
    BypassTreeSame(mem, g, r, Nodes(u), Nodes(u.right));
    if k == 0 {
      HeadBypassed(mem, BypassTree(mem, g, r), par, u, x, i);
    } else {
      ChainBypassed(mem, BypassTree(mem, g, r), par, u, x, k, i);
    }
  }

  lemma OneWordInside(mem: Mem, w: int, v: int, o: int, s: set<int>)
    requires o in s && o + FD <= w <= o + INDEX
    ensures Inside(mem, mem[w := v], s)
  {
  }

  lemma FarApart(s: set<int>, a: int, b: int)
    requires Apart(s) && a in s && b in s && a != b
    ensures a + 64 <= b || b + 64 <= a
  {
  }

  lemma IndexKept(mem: Mem, par: int, u: Tree, x: int, i: int, f: Sizes, least: int, w: int, v: int, o: int)
    requires UnlinkState(mem, par, u, x, i, f, least) && x == Root(u) && o in Nodes(u) && o + FD <= w < o + INDEX
    ensures Rd(mem[w := v], x + INDEX) == i && Rd(mem, x + INDEX) == i
  {
    RootIn(u);
    assert Rd(mem, u.ring[0] + INDEX) == i;
    if o != x { FarApart(Nodes(u), o, x); }
  }

  /** x is alone in its ring but has a subtree: after the rightmost leaf's slot is cleared the leaf is the bare heir. */
  lemma LeafLeft(mem: Mem, par: int, u: Tree, x: int, i: int, f: Sizes, least: int, left: bool)
    requires UnlinkState(mem, par, u, x, i, f, least) && |u.ring| == 1
    requires if left then u.right.Nil? && u.left.Node? else u.right.Node?
    ensures var c := if left then u.left else u.right;
            var slot := LeafSlot(c, x + (if left then CHILD0 else CHILD1));
            && slot >= least
            && Inside(mem, mem[slot := 0], Nodes(u))
            && RestLinks(mem[slot := 0], RestOf(u, x), x, i)
            && Root(RightLeaf(c)) == Heir(RestOf(u, x))
            && Rd(mem[slot := 0], x + INDEX) == i
  {
    var c := if left then u.left else u.right;
    assert u.ring == [x];
    RootIn(u);
    DetachOwnerIs(c, x, left);
    LeafDetached(mem, par, u, x, i, left);
    OneWordInside(mem, LeafSlot(c, x + (if left then CHILD0 else CHILD1)), 0, DetachOwner(c, x), Nodes(u));
    IndexKept(mem, par, u, x, i, f, least, LeafSlot(c, x + (if left then CHILD0 else CHILD1)), 0, DetachOwner(c, x));
    var p := LeafNode(mem, x, c, i);
  }

  lemma NoChildren(mem: Mem, par: int, u: Tree, x: int, i: int, f: Sizes, least: int)
    requires UnlinkState(mem, par, u, x, i, f, least) && |u.ring| == 1 && IsLeaf(u)
    ensures RestLinks(mem, RestOf(u, x), x, i) && Heir(RestOf(u, x)) == 0
  {
    assert u.ring == [x];
  }

  /** The memory and the replacement of x after the first half of unlink_large_chunk. */
  ghost predicate DetachedTo(mem: Mem, mem': Mem, par: int, u: Tree, x: int, i: int, r: int)
    requires u.Node? && x in u.ring
  {
    && Inside(mem, mem', Nodes(u))
    && (x == Root(u) ==> RestLinks(mem', RestOf(u, x), x, i) && r == Heir(RestOf(u, x)) && Rd(mem', x + INDEX) == i)
    && (x != Root(u) ==> Links(mem', par, RemoveHere(u, x), i) && Root(RemoveHere(u, x)) == Root(u))
  }

  lemma DetachedByBypass(mem: Mem, par: int, u: Tree, x: int, i: int, f: Sizes, least: int)
    requires UnlinkState(mem, par, u, x, i, f, least) && Rd(mem, x + BK) != x
    ensures Rd(mem, x + FD) >= least && Rd(mem, Rd(mem, x + FD) + BK) == x && Rd(mem, Rd(mem, x + BK) + FD) == x
    ensures DetachedTo(mem, BypassTree(mem, Rd(mem, x + FD), Rd(mem, x + BK)), par, u, x, i, Rd(mem, x + BK))
  {
    RingAround(mem, par, u, x, i, f, least);
    RingLeft(mem, par, u, x, i, f, least);
  }

  lemma Alone(mem: Mem, par: int, u: Tree, x: int, i: nat, f: Sizes, least: int)
    requires UnlinkState(mem, par, u, x, i, f, least) && Rd(mem, x + BK) == x
    ensures |u.ring| == 1 && x == Root(u) && u.ring == [x]
    ensures Links(mem, x, u.left, i) && Links(mem, x, u.right, i) && Holds(u.left, f) && Holds(u.right, f) && Spaced(f)
    ensures Rd(mem, x + CHILD0) == Root(u.left) && Rd(mem, x + CHILD1) == Root(u.right)
    ensures Root(u.left) == 0 <==> u.left.Nil?
    ensures Root(u.right) == 0 <==> u.right.Nil?
  {
    RingAround(mem, par, u, x, i, f, least);
    HeapTrees.ChildNull(mem, u.right, f, i, x);
    HeapTrees.ChildNull(mem, u.left, f, i, x);
  }

  lemma DetachedByLeaf(mem: Mem, par: int, u: Tree, x: int, i: int, f: Sizes, least: int, left: bool)
    requires UnlinkState(mem, par, u, x, i, f, least) && u.ring == [x]
    requires if left then u.right.Nil? && u.left.Node? else u.right.Node?
    ensures var c := if left then u.left else u.right;
            var slot := LeafSlot(c, x + (if left then CHILD0 else CHILD1));
            slot >= least && DetachedTo(mem, mem[slot := 0], par, u, x, i, Root(RightLeaf(c)))
  {
    LeafLeft(mem, par, u, x, i, f, least, left);
  }

  lemma DetachedAlone(mem: Mem, par: int, u: Tree, x: int, i: int, f: Sizes, least: int)
    requires UnlinkState(mem, par, u, x, i, f, least) && u.ring == [x] && IsLeaf(u)
    ensures DetachedTo(mem, mem, par, u, x, i, 0)
  {
    NoChildren(mem, par, u, x, i, f, least);
  }

  /** The first half of unlink_large_chunk: x leaves its ring, or the rightmost leaf below it is
      detached to replace it; r is the replacement. */
  method Detach(m: Heap, x: int, ghost par: int, ghost u: Tree, ghost i: nat) returns (r: int)
    requires UnlinkState(m.mem, par, u, x, i, m.binned, m.leastAddr)
    modifies m`mem
    ensures DetachedTo(old(m.mem), m.mem, par, u, x, i, r)
  {
    if Rd(m.mem, x + BK) != x {
      DetachedByBypass(m.mem, par, u, x, i, m.binned, m.leastAddr);
      var f := Rd(m.mem, x + FD);
      r := Rd(m.mem, x + BK);
      assert f >= m.leastAddr && Rd(m.mem, f + BK) == x && Rd(m.mem, r + FD) == x;  // RTCHECK
      m.mem := BypassTree(m.mem, f, r);
    } else {
      r := DetachLeaf(m, x, par, u, i);
    }
  }

  method DetachLeaf(m: Heap, x: int, ghost par: int, ghost u: Tree, ghost i: nat) returns (r: int)
    requires UnlinkState(m.mem, par, u, x, i, m.binned, m.leastAddr) && Rd(m.mem, x + BK) == x
    modifies m`mem
    ensures DetachedTo(old(m.mem), m.mem, par, u, x, i, r)
  {
    hide Links, Nodes, Disjoint, DetachedTo;
    Alone(m.mem, par, u, x, i, m.binned, m.leastAddr);
    var rp := x + CHILD1;
    r := Rd(m.mem, rp);
    ghost var left := r == 0;
    if r == 0 {
      rp := x + CHILD0;
      r := Rd(m.mem, rp);
    }
    if r != 0 {
      DetachedByLeaf(m.mem, par, u, x, i, m.binned, m.leastAddr, left);
      r, rp := FindLeaf(m.mem, r, rp, if left then u.left else u.right, m.binned, x, i);
      assert rp >= m.leastAddr;  // RTCHECK(ok_address(M, RP))
      m.mem := m.mem[rp := 0];
    } else {
      DetachedAlone(m.mem, par, u, x, i, m.binned, m.leastAddr);
    }
  }

  /** Only tree words of the chunks of s, and the word slot, differ. */
  ghost predicate InsideBut(mem: Mem, mem': Mem, s: set<int>, slot: int) {
    forall w {:trigger Rd(mem', w)} :: w != slot && AwayFrom(w, s) ==> Rd(mem', w) == Rd(mem, w)
  }

  /** R->parent = XP, then the first child of X moves under R. */
  function AdoptFirst(mem: Mem, x: int, r: int, par: int): Mem {
    var m1 := mem[r + PARENT := par];
    var c0 := Rd(m1, x + CHILD0);
    if c0 != 0 then m1[r + CHILD0 := c0][c0 + PARENT := r] else m1
  }

  /** ... and the second. */
  function Adopt(mem: Mem, x: int, r: int, par: int): Mem {
    var m2 := AdoptFirst(mem, x, r, par);
    var c1 := Rd(m2, x + CHILD1);
    if c1 != 0 then m2[r + CHILD1 := c1][c1 + PARENT := r] else m2
  }

  /** Everything Adopt touches, for the heir of x. */
  ghost predicate AdoptPlaces(q: Rest, x: int, slot: int, s: set<int>) {
    && q.ring != [] && RestParts(q, s) && AwayFrom(slot, s)
    && x in s && x !in Members(q.ring) && x !in Nodes(q.left) && x !in Nodes(q.right)
  }

  lemma AdoptDistinct(q: Rest, x: int, slot: int, s: set<int>)
    requires AdoptPlaces(q, x, slot, s)
    ensures var r, c0, c1 := q.ring[0], Root(q.left), Root(q.right);
            && (r + 64 <= x || x + 64 <= r) && r in s
            && (c0 != 0 ==> c0 in s && (c0 + 64 <= x || x + 64 <= c0) && (c0 + 64 <= r || r + 64 <= c0))
            && (c1 != 0 ==> c1 in s && (c1 + 64 <= x || x + 64 <= c1) && (c1 + 64 <= r || r + 64 <= c1))
            && (c0 != 0 && c1 != 0 ==> c0 + 64 <= c1 || c1 + 64 <= c0)
  {
    RootsIn(q, s);
    var r, c0, c1 := q.ring[0], Root(q.left), Root(q.right);
    FarApart(s, r, x);
    if q.left.Node? { FarApart(s, c0, x); FarApart(s, c0, r); }
    if q.right.Node? { FarApart(s, c1, x); FarApart(s, c1, r); }
    if q.left.Node? && q.right.Node? { FarApart(s, c0, c1); }
  }

  lemma AdoptEffect(mem: Mem, q: Rest, x: int, par: int, slot: int, s: set<int>, i: int)
    requires AdoptPlaces(q, x, slot, s) && RestLinks(mem, q, x, i)
    ensures var r := q.ring[0]; AdoptWords(mem, Adopt(mem[slot := r], x, r, par), r, Root(q.left), Root(q.right),
        par, slot)
  {
    var r, c0, c1 := q.ring[0], Root(q.left), Root(q.right);
    AdoptDistinct(q, x, slot, s);
    assert x in s && r in s;
    assert !(r + FD <= slot <= r + INDEX) && !(x + FD <= slot <= x + INDEX);
    var p :| NodeLinks(mem, p, q.ring, 0, 0, i);
    assert Rd(mem, r + CHILD0) == 0 && Rd(mem, r + CHILD1) == 0;
    AdoptArith(mem, x, r, c0, c1, par, slot);
  }

  /** The writes of Adopt do not interfere when the four chunks are apart. */
  lemma AdoptArith(mem: Mem, x: int, r: int, c0: int, c1: int, par: int, slot: int)
    requires Rd(mem, x + CHILD0) == c0 && Rd(mem, x + CHILD1) == c1 && Rd(mem, r + CHILD0) == 0
        && Rd(mem, r + CHILD1) == 0
    requires r + 64 <= x || x + 64 <= r
    requires c0 != 0 ==>
        (c0 + 64 <= x || x + 64 <= c0) && (c0 + 64 <= r || r + 64 <= c0) && !(c0 + FD <= slot <= c0 + INDEX)
    requires c1 != 0 ==>
        (c1 + 64 <= x || x + 64 <= c1) && (c1 + 64 <= r || r + 64 <= c1) && !(c1 + FD <= slot <= c1 + INDEX)
    requires c0 != 0 && c1 != 0 ==> c0 + 64 <= c1 || c1 + 64 <= c0
    requires !(r + FD <= slot <= r + INDEX) && !(x + FD <= slot <= x + INDEX)
    ensures AdoptWords(mem, Adopt(mem[slot := r], x, r, par), r, c0, c1, par, slot)
  {
  }

  // ----- putting the steps together -----

  /** The bin of x, its node, and the word that leads to it. */
  ghost predicate Located(mem: Mem, t: Tree, x: int, i: nat, f: Sizes, least: int) {
    && i < NTREEBINS && TreeBin(mem, true, i, t, f) && x in Nodes(t) && Spaced(f) && Disjoint(t) && Apart(Nodes(t))
    && Nodes(t) <= f.Keys && (forall a :: a in Nodes(t) ==> a >= least && a >= HEAP_FLOOR)
  }

  lemma {:induction false} FindHolds(t: Tree, x: int, f: Sizes)
    requires x in Nodes(t) && Holds(t, f)
    ensures Holds(Find(t, x), f)
  {
    if x !in t.ring {
      if x in Nodes(t.left) { FindHolds(t.left, x, f); } else { FindHolds(t.right, x, f); }
    }
  }

  lemma LocatedNode(mem: Mem, t: Tree, x: int, i: nat, f: Sizes, least: int)
    requires Located(mem, t, x, i, f, least)
    ensures var u, par := Find(t, x), ParFor(t, x, TreeBinAt(i));
            && UnlinkState(mem, par, u, x, i, f, least) && Nodes(u) <= Nodes(t)
  {
    FindLinks(mem, TreeBinAt(i), t, x, i);
    FindHolds(t, x, f);
    ApartSub(Nodes(t), Nodes(Find(t, x)));
  }

  /** The slot is a word outside the node's subtree; below the root it is found through XP->child[0]. */
  ghost predicate SlotOk(mem: Mem, t: Tree, x: int, i: nat)
    requires x in Nodes(t)
  {
    var u, par, slot := Find(t, x), ParFor(t, x, TreeBinAt(i)), SlotFor(t, x, TreeBinAt(i));
    && u.Node? && AwayFrom(slot, Nodes(u)) && Rd(mem, slot) == Root(u)
    && (x in t.ring ==> slot == TreeBinAt(i) && par == TreeBinAt(i) && u == t)
    && (x !in t.ring ==>
        par in Nodes(t) && par !in Nodes(u) && (slot == par + CHILD0 || slot == par + CHILD1)
        && Root(u) != Root(t))
    && (x !in t.ring && x == Root(u) ==> slot == par + (if Rd(mem, par + CHILD0) == x then CHILD0 else CHILD1))
  }

  lemma SlotAway(nodes: set<int>, s: set<int>, par: int, slot: int)
    requires Apart(nodes) && s <= nodes && par in nodes && par !in s && (slot == par + CHILD0 || slot == par + CHILD1)
    ensures AwayFrom(slot, s)
  {
    forall a | a in s ensures !(a + FD <= slot <= a + INDEX) { FarApart(nodes, a, par); }
  }

  lemma SlotBelow(mem: Mem, t: Tree, x: int, i: nat)
    requires x in Nodes(t) && x !in t.ring && x > 0 && Links(mem, TreeBinAt(i), t, i) && Disjoint(t) && Apart(Nodes(t))
    ensures SlotOk(mem, t, x, i)
  {
    hide Links, Members, Disjoint, Apart, Find, ParFor, SlotFor, AwayFrom;
    Parts(t);
    var h, u := TreeBinAt(i), Find(t, x);
    FindLinks(mem, h, t, x, i);
    SlotIn(mem, h, t, x, i, h);
    RootIn(t);
    SlotAway(Nodes(t), Nodes(u), ParFor(t, x, h), SlotFor(t, x, h));
    if x == Root(u) { SlotWhich(mem, h, t, x, i, h); }
  }

  lemma LocatedSlot(mem: Mem, t: Tree, x: int, i: nat, f: Sizes, least: int)
    requires Located(mem, t, x, i, f, least)
    ensures SlotOk(mem, t, x, i)
  {
    if x !in t.ring { SlotBelow(mem, t, x, i); }
  }

  lemma InsideSame(mem: Mem, mem': Mem, s: set<int>, t: set<int>, slot: int)
    requires InsideBut(mem, mem', s, slot) && Apart(t) && s <= t
    ensures TreeSameBut(mem, mem', t - s, slot, slot, slot)
  {
    forall a, w {:trigger a in t - s, Rd(mem', w)} | a in t - s && a + FD <= w <= a + INDEX
        && w != slot ensures Rd(mem', w) == Rd(mem, w) {
      forall b | b in s ensures !(b + FD <= w <= b + INDEX) { FarApart(t, a, b); }
    }
  }

  /** The node was replaced and the slot updated: the bin holds the trie without x. */
  lemma UnlinkedTrie(mem: Mem, mem': Mem, t: Tree, x: int, i: nat, f: Sizes, least: int)
    requires Located(mem, t, x, i, f, least)
    requires var u, par, slot := Find(t, x), ParFor(t, x, TreeBinAt(i)), SlotFor(t, x, TreeBinAt(i));
             && u.Node? && x in u.ring && InsideBut(mem, mem', Nodes(u), slot)
             && Links(mem', par, RemoveHere(u, x), i) && Rd(mem', slot) == Root(RemoveHere(u, x))
    ensures Links(mem', TreeBinAt(i), RemoveT(t, x), i) && Rd(mem', TreeBinAt(i)) == Root(RemoveT(t, x))
  {
    var h := TreeBinAt(i);
    var u, slot := Find(t, x), SlotFor(t, x, TreeBinAt(i));
    LocatedNode(mem, t, x, i, f, least);
    LocatedSlot(mem, t, x, i, f, least);
    InsideSame(mem, mem', Nodes(u), Nodes(t), slot);
    RemoveLinks(mem, mem', h, t, x, i, h);
    if x !in t.ring {
      assert h < HEAP_FLOOR;
      assert AwayFrom(h, Nodes(u));
    }
  }

  lemma UnlinkedOnly(mem: Mem, mem': Mem, t: Tree, x: int, i: nat, f: Sizes, least: int)
    requires Located(mem, t, x, i, f, least) && (forall a :: a in Nodes(t) ==> f[a] >= 64)
    requires InsideBut(mem, mem', Nodes(Find(t, x)), SlotFor(t, x, TreeBinAt(i)))
    ensures OnlyIn(mem, mem', Nodes(t), f, TreeBinAt(i), TreeBinAt(i))
  {
    LocatedNode(mem, t, x, i, f, least);
    LocatedSlot(mem, t, x, i, f, least);
  }
}
