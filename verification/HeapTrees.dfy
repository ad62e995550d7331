/** insert_large_chunk and unlink_large_chunk (src/mm/malloc.c:3656-3793). */
module HeapTrees {
  import opened Bits
  import opened BinIndex
  import opened Memory
  import opened Tries
  import opened TrieLinks
  import opened Tiling
  import opened Index
  import opened TreeKeys
  import opened HeapState
  import opened HeapBins

  /** chunksize() of every binned chunk reads its size. */
  ghost predicate HeadSizes(mem: Mem, f: Sizes) {
    forall a :: a in f ==> SizeOf(Rd(mem, a + HEAD)) == f[a]
  }

  /** cur is the subtree, over the sizes from lo on, in which size s belongs. */
  ghost predicate Descending(mem: Mem, cur: Tree, f: Sizes, s: int, k: int, lo: int, e: nat, i: nat, par: int) {
    && cur.Node? && Links(mem, par, cur, i)
    && Shape(cur, lo, lo + Pow2(e)) && Halved(cur, lo, e) && Tries.Aligned(cur) && Holds(cur, f)
    && lo % 16 == 0 && s % 16 == 0 && KeyFor(k, s, lo, e)
  }

  lemma RootSize(mem: Mem, cur: Tree, f: Sizes, i: nat, par: int)
    requires cur.Node? && Links(mem, par, cur, i) && Holds(cur, f) && HeadSizes(mem, f)
    ensures |cur.ring| > 0 && Root(cur) in f && f[Root(cur)] == cur.size
        && SizeOf(Rd(mem, Root(cur) + HEAD)) == cur.size
  {
    assert cur.ring[0] in cur.ring;
  }

  lemma ChildWords(mem: Mem, cur: Tree, i: nat, par: int)
    requires cur.Node? && Links(mem, par, cur, i)
    ensures Rd(mem, Root(cur) + CHILD0) == Root(cur.left) && Rd(mem, Root(cur) + CHILD1) == Root(cur.right)
  {
  }

  /** A binned chunk is no null pointer, so an empty child word means an empty subtree. */
  lemma ChildNull(mem: Mem, cur: Tree, f: Sizes, i: nat, par: int)
    requires Links(mem, par, cur, i) && Holds(cur, f) && Spaced(f)
    ensures Root(cur) == 0 <==> cur.Nil?
  {
    if cur.Node? { assert cur.ring[0] in cur.ring; }
  }

  lemma KeyRange(k: int, s: int, lo: int, e: nat)
    requires KeyFor(k, s, lo, e)
    ensures lo <= s < lo + Pow2(e)
  {
  }

  /** The child on the side of s, when there is one, is the next subtree of the descent. */
  lemma DescendStep(mem: Mem, cur: Tree, f: Sizes, s: int, k: int, lo: int, e: nat, i: nat, par: int)
    requires Descending(mem, cur, f, s, k, lo, e, i, par) && cur.size != s
    ensures e > 4 && TopBitOf(k) == (if s < cur.mid then 0 else 1)
    ensures var sub := if s < cur.mid then cur.left else cur.right;
            sub.Node? ==>
                Descending(mem, sub, f, s, Shl64(k, 1), if s < cur.mid then lo else cur.mid, e - 1, i, Root(cur))
  {
    hide Pow2, TopBitOf, Shl64, NodeLinks, KeyFor;
    KeyRange(k, s, lo, e);
    Pow2Step(e);
    Narrow(lo, e, s, cur.size);
    KeyStep(k, s, lo, e);
  }

  function Side(cur: Tree, s: int): Tree
    requires cur.Node?
  {
    if s < cur.mid then cur.left else cur.right
  }

  function SideLo(cur: Tree, s: int, lo: int): int
    requires cur.Node?
  {
    if s < cur.mid then lo else cur.mid
  }

  /** The loop body of insert_large_chunk at a node of another size: C = &T->child[K >> 63]; K <<= 1; ... *C. */
  method DescendOnce(mem: Mem, t: int, s: int, k: int, ghost cur: Tree, ghost f: Sizes, ghost lo: int, ghost e: nat,
      ghost i: nat, ghost par: int)
    returns (slot: int, k': int, next: int)
    requires Descending(mem, cur, f, s, k, lo, e, i, par) && t == Root(cur) && HeadSizes(mem, f) && Spaced(f)
        && cur.size != s
    ensures slot == t + CHILD0 || slot == t + CHILD1
    ensures next == 0 ==> Side(cur, s).Nil? && SpotOf(cur, s) == Vacant(t, slot)
    ensures next != 0 ==> e > 0 && Descending(mem, Side(cur, s), f, s, k', SideLo(cur, s, lo), e - 1, i, t)
    ensures next != 0 ==> next in f && SizeOf(Rd(mem, next + HEAD)) == Side(cur, s).size
    ensures next != 0 ==> next == Root(Side(cur, s)) && SpotOf(cur, s) == SpotOf(Side(cur, s), s)
  {
    DescendStep(mem, cur, f, s, k, lo, e, i, par);
    ChildWords(mem, cur, i, par);
    ChildNull(mem, Side(cur, s), f, i, Root(cur));
    slot := t + (if TopBitOf(k) == 0 then CHILD0 else CHILD1);
    k' := Shl64(k, 1);
    next := Rd(mem, slot);
    if next != 0 { RootSize(mem, Side(cur, s), f, i, t); }
  }

  /** The loop of insert_large_chunk up to the place where the chunk is linked in: the node of size
      s, or the empty child word where that node belongs. */
  method TreeDescend(mem: Mem, root: int, s: int, k0: int, ghost tr: Tree, ghost f: Sizes, ghost lo0: int,
      ghost e0: nat, ghost i: nat, ghost par0: int)
    returns (t: int, slot: int)
    requires Descending(mem, tr, f, s, k0, lo0, e0, i, par0) && root == Root(tr) && HeadSizes(mem, f) && Spaced(f)
    ensures SpotOf(tr, s) == if slot == 0 then Same(t) else Vacant(t, slot)
    ensures slot != 0 ==> slot == t + CHILD0 || slot == t + CHILD1
    ensures t in f
  {
    t := root;
    var k := k0;
    ghost var cur, lo, e, par := tr, lo0, e0, par0;
    RootSize(mem, cur, f, i, par);
    while SizeOf(Rd(mem, t + HEAD)) != s
      invariant Descending(mem, cur, f, s, k, lo, e, i, par)
      invariant t == Root(cur) && t in f
      invariant SizeOf(Rd(mem, t + HEAD)) == cur.size
      invariant SpotOf(tr, s) == SpotOf(cur, s)
      decreases cur
    {
      var next;
      slot, k, next := DescendOnce(mem, t, s, k, cur, f, lo, e, i, par);
      if next == 0 {
        assert t >= HEAP_FLOOR;
        return;
      }
      lo, par, e := SideLo(cur, s, lo), t, e - 1;
      cur := Side(cur, s);
      t := next;
    }
    slot := 0;
  }

  /** x->index = I; x->child[0] = x->child[1] = 0. */
  function Blank(mem: Mem, x: int, i: int): Mem {
    mem[x + INDEX := i][x + CHILD0 := 0][x + CHILD1 := 0]
  }

  /** The root of an empty bin. */
  function AsRoot(mem: Mem, x: int, h: int): Mem {
    mem[h := x][x + PARENT := h][x + FD := x][x + BK := x]
  }

  /** A new leaf in the child word c of node t. */
  function AsLeaf(mem: Mem, x: int, t: int, c: int): Mem {
    mem[c := x][x + PARENT := t][x + FD := x][x + BK := x]
  }

  /** Chained to the node t of the same size, before its successor f. */
  function AsChained(mem: Mem, x: int, t: int, f: int): Mem {
    mem[t + FD := x][f + BK := x][x + FD := f][x + BK := t][x + PARENT := 0]
  }

  lemma RootWords(mem: Mem, x: int, i: nat, f': Sizes)
    requires x in f' && Spaced(f') && f'[x] >= 64 && i < NTREEBINS
    ensures var mem' := AsRoot(Blank(mem, x, i), x, TreeBinAt(i));
            && InsertedWords(mem, mem', Nil, x, f'[x], i)
            && OnlyIn(mem, mem', {x}, f', TreeBinAt(i), TreeBinAt(i))
  {
  }

  lemma SpotNodeIn(mem: Mem, i: nat, t: Tree, s: int)
    requires t.Node? && Links(mem, TreeBinAt(i), t, i)
    ensures SpotOf(t, s).node in Nodes(t)
    ensures SpotOf(t, s).Same? ==> Rd(mem, SpotOf(t, s).node + FD) in Nodes(t)
  {
    SpotIn(mem, TreeBinAt(i), t, i, s);
  }

  /** The chunks of the bin together with x: large, apart, and x is new. */
  ghost predicate Room(nodes: set<int>, x: int, f': Sizes) {
    && nodes + {x} <= f'.Keys && x !in nodes && Spaced(f')
    && forall a :: a in nodes + {x} ==> f'[a] >= 64
  }

  lemma RoomFor(t: Tree, i: nat, f: Sizes, f': Sizes, x: int, s: int)
    requires TreeOk(t, i, f) && InTreeBin(i, s) && x !in f && f' == f[x := s] && Spaced(f')
    ensures Room(Nodes(t), x, f')
  {
    TreeApart(t, i, f, f', x, s);
    InsertedSizes(t, i, f, f', x, s);
    forall a | a in Nodes(t) + {x} ensures a in f' && f'[a] >= 64 {
      assert f'[a] >= MIN_LARGE_SIZE;
    }
  }

  lemma LeafWords(mem: Mem, x: int, n: int, c: int, i: nat, nodes: set<int>, f': Sizes)
    requires Room(nodes, x, f') && i < NTREEBINS
    requires n in nodes && (c == n + CHILD0 || c == n + CHILD1)
    ensures var mem' := AsLeaf(Blank(mem, x, i), x, n, c);
            && Planted(mem, mem', Vacant(n, c), x, i, nodes) && Rd(mem', TreeBinAt(i)) == Rd(mem, TreeBinAt(i))
            && OnlyIn(mem, mem', nodes + {x}, f', TreeBinAt(i), TreeBinAt(i))
  {
    var mem' := AsLeaf(Blank(mem, x, i), x, n, c);
    assert n in f' && x in f' && x in nodes + {x} && n in nodes + {x};
    assert forall w {:trigger Rd(mem', w)} :: w != c && !(x + 16 <= w <= x + 56) ==> Rd(mem', w) == Rd(mem, w);
  }

  /** Only the words of x and the links n->fd and f->bk were written. */
  ghost predicate ChainWrites(mem: Mem, mem': Mem, x: int, n: int, f: int) {
    forall w {:trigger Rd(mem', w)} :: w != n + FD && w != f + BK && !(x + 16 <= w <= x + 56) ==>
        Rd(mem', w) == Rd(mem, w)
  }

  lemma ChainValues(mem: Mem, x: int, n: int, f: int, i: nat)
    requires (n + 64 <= x || x + 64 <= n) && (f + 64 <= x || x + 64 <= f)
    ensures var mem' := AsChained(Blank(mem, x, i), x, n, f);
            && ChainWrites(mem, mem', x, n, f) && PlantedChunk(mem', x, f, n, 0, i)
            && Rd(mem', n + FD) == x && (n == f || n + 8 != f ==> Rd(mem', f + BK) == x)
  {
  }

  lemma ChainSame(mem: Mem, mem': Mem, x: int, n: int, f: int, nodes: set<int>, f': Sizes)
    requires Room(nodes, x, f') && n in nodes && f in nodes && ChainWrites(mem, mem', x, n, f)
    ensures TreeSameBut(mem, mem', nodes, n + FD, f + BK, f + BK)
  {
    forall a, w {:trigger a in nodes, Rd(mem', w)} | a in nodes && a + FD <= w <= a + INDEX && w != n + FD
        && w != f + BK
      ensures Rd(mem', w) == Rd(mem, w)
    {
      RoomPair(nodes, x, f', a);
    }
  }

  lemma RoomPair(nodes: set<int>, x: int, f': Sizes, a: int)
    requires Room(nodes, x, f') && a in nodes
    ensures a + 64 <= x || x + 64 <= a
    ensures a >= HEAP_FLOOR && x >= HEAP_FLOOR
  {
    assert a in nodes + {x} && x in nodes + {x};
    assert a in f' && x in f';
  }

  lemma RoomPairs(nodes: set<int>, x: int, f': Sizes, a: int, b: int)
    requires Room(nodes, x, f') && a in nodes && b in nodes && a != b
    ensures a + 64 <= b || b + 64 <= a
  {
    assert a in nodes + {x} && b in nodes + {x};
    assert a in f' && b in f';
  }

  lemma ChainOnly(mem: Mem, mem': Mem, x: int, n: int, f: int, h: int, nodes: set<int>, f': Sizes)
    requires Room(nodes, x, f') && n in nodes && f in nodes && ChainWrites(mem, mem', x, n, f)
    ensures nodes + {x} <= f'.Keys && OnlyIn(mem, mem', nodes + {x}, f', h, h)
  {
    assert n in nodes + {x} && f in nodes + {x} && x in nodes + {x};
  }

  lemma ChainWords(mem: Mem, x: int, n: int, i: nat, nodes: set<int>, f': Sizes)
    requires Room(nodes, x, f') && i < NTREEBINS
    requires n in nodes && Rd(mem, n + FD) in nodes
    ensures var mem' := AsChained(Blank(mem, x, i), x, n, Rd(mem, n + FD));
            && Planted(mem, mem', Same(n), x, i, nodes) && Rd(mem', TreeBinAt(i)) == Rd(mem, TreeBinAt(i))
            && OnlyIn(mem, mem', nodes + {x}, f', TreeBinAt(i), TreeBinAt(i))
  {
    hide Room, OnlyIn, TreeSameBut, PlantedChunk, AsChained, Blank;
    var f := Rd(mem, n + FD);
    var mem' := AsChained(Blank(mem, x, i), x, n, f);
    RoomPair(nodes, x, f', n);
    RoomPair(nodes, x, f', f);
    if n != f { RoomPairs(nodes, x, f', n, f); }
    ChainValues(mem, x, n, f, i);
    ChainSame(mem, mem', x, n, f, nodes, f');
    ChainOnly(mem, mem', x, n, f, TreeBinAt(i), nodes, f');
  }

  /** The blank fields of x are invisible to the index. */
  lemma BlankKeeps(mem: Mem, smallmap: nat, treemap: nat, bins: Bins, f: Sizes, f': Sizes, x: int, i: nat)
    requires IndexOk(mem, smallmap, treemap, bins, f) && Spaced(f') && x !in f && x in f' && f' == f[x := f'[x]]
        && f'[x] >= 64
    ensures IndexOk(Blank(mem, x, i), smallmap, treemap, bins, f)
  {
    var mem' := Blank(mem, x, i);
    assert forall w {:trigger Rd(mem', w)} :: !(x + 16 <= w <= x + 56) ==> Rd(mem', w) == Rd(mem, w);
    SpacedSub(f, f', x);
    BlankBodies(mem, mem', f, f', x);
    IndexFrame(mem, mem', smallmap, treemap, bins, f);
  }

  lemma SpacedSub(f: Sizes, f': Sizes, x: int)
    requires Spaced(f') && x !in f && x in f' && f' == f[x := f'[x]]
    ensures Spaced(f)
  {
    assert forall a :: a in f ==> a in f' && f'[a] == f[a];
  }

  lemma BlankBodies(mem: Mem, mem': Mem, f: Sizes, f': Sizes, x: int)
    requires Spaced(f') && x !in f && x in f' && f' == f[x := f'[x]] && f'[x] >= 64
    requires forall w {:trigger Rd(mem', w)} :: !(x + 16 <= w <= x + 56) ==> Rd(mem', w) == Rd(mem, w)
    ensures BodiesSame(mem, mem', f) && LowSame(mem, mem')
  {
    forall a, w {:trigger a in f, Rd(mem', w)} | a in f && a + 16 <= w <= a + f[a] ensures Rd(mem', w) == Rd(mem, w) {
      assert a in f' && f'[a] == f[a] && a != x;
    }
  }

  lemma TrieOf(t: Tree, i: nat, f: Sizes)
    requires TreeOk(t, i, f)
    ensures Shape(t, Lo(i), Lo(i) + Pow2(Exp(i))) && Halved(t, Lo(i), Exp(i)) && Tries.Aligned(t) && Holds(t, f)
  {
  }

  lemma LoAligned(i: nat, s: int)
    requires InTreeBin(i, s) && s < SIZE_RANGE
    ensures Lo(i) % 16 == 0
  {
    BinSpan(i, s);
  }

  lemma DescentFrom(mem: Mem, t: Tree, f: Sizes, s: int, k: int, lo: int, e: nat, i: nat, par: int)
    requires t.Node? && Links(mem, par, t, i)
    requires Shape(t, lo, lo + Pow2(e)) && Halved(t, lo, e) && Tries.Aligned(t) && Holds(t, f)
    requires lo % 16 == 0 && s % 16 == 0 && KeyFor(k, s, lo, e)
    ensures Descending(mem, t, f, s, k, lo, e, i, par)
  {
  }

  lemma StartDescent(mem: Mem, t: Tree, i: nat, f: Sizes, s: int)
    requires t.Node? && Links(mem, TreeBinAt(i), t, i) && TreeOk(t, i, f) && InTreeBin(i, s) && s % 16 == 0
        && s < SIZE_RANGE
    ensures Descending(mem, t, f, s, Shl64(s, LeftShift(i)), Lo(i), Exp(i), i, TreeBinAt(i))
  {
    hide Shape, Halved, Holds, Links, Pow2, Shl64, LeftShift, Tries.Aligned, KeyFor, Lo, Exp;
    LoAligned(i, s);
    FirstKey(i, s);
    TrieOf(t, i, f);
    DescentFrom(mem, t, f, s, Shl64(s, LeftShift(i)), Lo(i), Exp(i), i, TreeBinAt(i));
  }

  /** Memory after x was linked in at the spot. */
  function AtSpot(mem: Mem, x: int, i: int, spot: Spot): Mem {
    match spot
    case Same(t) => AsChained(Blank(mem, x, i), x, t, Rd(mem, t + FD))
    case Vacant(t, c) => AsLeaf(Blank(mem, x, i), x, t, c)
  }

  /** *C = X; X->parent = T; X->fd = X->bk = X, or, at a node of the same size,
      F = T->fd; T->fd = F->bk = X; X->fd = F; X->bk = T; X->parent = 0. */
  method LinkAt(m: Heap, x: int, t: int, c: int, ghost i: nat, ghost mem0: Mem)
    requires m.mem == Blank(mem0, x, i) && (t + 64 <= x || x + 64 <= t)
    requires c != 0 ==> c >= m.leastAddr
    requires c == 0 ==> t >= m.leastAddr && Rd(mem0, t + FD) >= m.leastAddr
    modifies m`mem
    ensures m.mem == AtSpot(mem0, x, i, if c == 0 then Same(t) else Vacant(t, c))
  {
    if c != 0 {
      assert c >= m.leastAddr;  // RTCHECK(ok_address(M, C))
      m.mem := m.mem[c := x];
      m.mem := m.mem[x + PARENT := t];
      m.mem := m.mem[x + FD := x];
      m.mem := m.mem[x + BK := x];
    } else {
      var f := Rd(m.mem, t + FD);
      assert t >= m.leastAddr && f >= m.leastAddr;  // RTCHECK
      m.mem := m.mem[t + FD := x];
      m.mem := m.mem[f + BK := x];
      m.mem := m.mem[x + FD := f];
      m.mem := m.mem[x + BK := t];
      m.mem := m.mem[x + PARENT := 0];
    }
  }

  lemma NodesAbove(t: Tree, i: nat, f: Sizes, least: int)
    requires TreeOk(t, i, f) && forall a :: a in f ==> a >= least
    ensures forall a :: a in Nodes(t) ==> a >= least
  {
  }

  lemma SpotWords(mem: Mem, x: int, s: int, i: nat, t: Tree, f': Sizes)
    requires t.Node? && Links(mem, TreeBinAt(i), t, i) && Room(Nodes(t), x, f') && i < NTREEBINS
    ensures var mem' := AtSpot(mem, x, i, SpotOf(t, s));
            && OnlyIn(mem, mem', Nodes(t) + {x}, f', TreeBinAt(i), TreeBinAt(i))
            && InsertedWords(mem, mem', t, x, s, i)
  {
    hide Links, Nodes, Room, OnlyIn, Planted, SpotOf;
    SpotNodeIn(mem, i, t, s);
    var spot := SpotOf(t, s);
    if spot.Same? {
      ChainWords(mem, x, spot.node, i, Nodes(t), f');
    } else {
      SpotIn(mem, TreeBinAt(i), t, i, s);
      LeafWords(mem, x, spot.node, spot.slot, i, Nodes(t), f');
    }
  }

  lemma SpotAbove(mem: Mem, t: Tree, i: nat, f: Sizes, least: int, s: int, on: bool, x: int, f': Sizes)
    requires t.Node? && TreeBin(mem, on, i, t, f) && (forall a :: a in f ==> a >= least) && Room(Nodes(t), x, f')
    ensures SpotOf(t, s).node >= least && (SpotOf(t, s).node + 64 <= x || x + 64 <= SpotOf(t, s).node)
    ensures SpotOf(t, s).Same? ==> Rd(mem, SpotOf(t, s).node + FD) >= least
  {
    SpotNodeIn(mem, i, t, s);
    NodesAbove(t, i, f, least);
    RoomPair(Nodes(t), x, f', SpotOf(t, s).node);
  }

  /** The marked-bin half of insert_large_chunk: walk down from the root and link x in. */
  method InsertIntoTree(m: Heap, x: int, s: int, i: nat, ghost mem0: Mem, ghost tr: Tree)
    requires tr.Node? && TreeBin(m.mem, true, i, tr, m.binned) && TreeBin(mem0, true, i, tr, m.binned)
    requires Spaced(m.binned) && HeadSizes(m.mem, m.binned) && forall a :: a in m.binned ==> a >= m.leastAddr
    requires InTreeBin(i, s) && s % 16 == 0 && s < SIZE_RANGE && m.mem == Blank(mem0, x, i)
    requires Room(Nodes(tr), x, m.binned[x := s])
    modifies m`mem
    ensures m.mem == AtSpot(mem0, x, i, SpotOf(tr, s))
  {
    hide Room, TreeBin, Spaced, HeadSizes, InTreeBin;
    SpotAbove(mem0, tr, i, m.binned, m.leastAddr, s, true, x, m.binned[x := s]);
    var t, c := WalkTree(m.mem, s, i, tr, m.binned);
    LinkAt(m, x, t, c, i, mem0);
  }

  method WalkTree(mem: Mem, s: int, i: nat, ghost tr: Tree, ghost f: Sizes) returns (t: int, c: int)
    requires tr.Node? && TreeBin(mem, true, i, tr, f) && Spaced(f) && HeadSizes(mem, f)
    requires InTreeBin(i, s) && s % 16 == 0 && s < SIZE_RANGE
    ensures SpotOf(tr, s) == if c == 0 then Same(t) else Vacant(t, c)
    ensures c != 0 ==> c == t + CHILD0 || c == t + CHILD1
  {
    t := Rd(mem, TreeBinAt(i));
    var k := Shl64(s, LeftShift(i));
    StartDescent(mem, tr, i, f, s);
    t, c := TreeDescend(mem, t, s, k, tr, f, Lo(i), Exp(i), i, TreeBinAt(i));
  }

  lemma BlankHeads(mem: Mem, x: int, i: int, f: Sizes, f': Sizes)
    requires HeadSizes(mem, f) && x !in f && x in f' && f' == f[x := f'[x]] && Spaced(f') && f'[x] >= 64
    ensures HeadSizes(Blank(mem, x, i), f)
  {
    forall a | a in f ensures Rd(Blank(mem, x, i), a + HEAD) == Rd(mem, a + HEAD) { assert a in f' && a != x
        && f'[a] >= 32; }
  }

  lemma BlankTree(mem: Mem, smallmap: nat, map0: nat, bins: Bins, f: Sizes, f': Sizes, x: int, i: nat)
    requires IndexOk(mem, smallmap, map0, bins, f) && i < NTREEBINS && HeadSizes(mem, f)
    requires x !in f && x in f' && f' == f[x := f'[x]] && Spaced(f') && InTreeBin(i, f'[x])
    ensures var tr, on, mem' := bins.trees[i], Bit(map0, i), Blank(mem, x, i);
            TreeBin(mem, on, i, tr, f) && TreeBin(mem', on, i, tr, f) && HeadSizes(mem', f) && Room(Nodes(tr), x, f')
                && Spaced(f)
  {
    TreeBinLarge(i, f'[x]);
    BlankKeeps(mem, smallmap, map0, bins, f, f', x, i);
    BlankHeads(mem, x, i, f, f');
    SpacedSub(f, f', x);
    var tr := bins.trees[i];
    TreeBinOf(mem, map0, bins.trees, f, i);
    TreeBinOf(Blank(mem, x, i), map0, bins.trees, f, i);
    RoomFor(tr, i, f, f', x, f'[x]);
  }

  lemma TreeMarked(mem: Mem, on: bool, i: nat, tr: Tree, f: Sizes)
    requires TreeBin(mem, on, i, tr, f)
    ensures on <==> tr.Node?
    ensures on ==> TreeBin(mem, true, i, tr, f)
  {
  }

  lemma RoomOf(nodes: set<int>, x: int, f': Sizes)
    requires Room(nodes, x, f')
    ensures x in f' && f'[x] >= 64 && Spaced(f')
  {
    assert x in nodes + {x};
  }

  /** The writes of insert_large_chunk, from X->index on. */
  method PlantChunk(m: Heap, x: int, s: int, i: nat, ghost tr: Tree, ghost f: Sizes)
    requires i < NTREEBINS && InTreeBin(i, s) && s % 16 == 0 && s < SIZE_RANGE && m.treemap < WORD_RANGE
        && f == m.binned
    requires TreeBin(m.mem, Bit(m.treemap, i), i, tr, f) && TreeBin(Blank(m.mem, x, i), Bit(m.treemap, i), i, tr, f)
    requires HeadSizes(Blank(m.mem, x, i), f) && Spaced(f) && Room(Nodes(tr), x, f[x := s])
    requires forall a :: a in f ==> a >= m.leastAddr
    modifies m`mem, m`treemap
    ensures MapChanged(old(m.treemap), m.treemap, i, true)
    ensures OnlyIn(old(m.mem), m.mem, Nodes(tr) + {x}, f[x := s], TreeBinAt(i), TreeBinAt(i))
    ensures InsertedWords(old(m.mem), m.mem, tr, x, s, i)
  {
    hide TreeBin, Room, Spaced, HeadSizes, OnlyIn, InsertedWords, MapChanged, InTreeBin;
    ghost var mem0 := m.mem;
    TreeMarked(m.mem, Bit(m.treemap, i), i, tr, f);
    RoomOf(Nodes(tr), x, f[x := s]);
    MarkedMap(m.treemap, i);
    IsMarkedBit(m.treemap, i);
    m.mem := m.mem[x + INDEX := i];
    m.mem := m.mem[x + CHILD0 := 0];
    m.mem := m.mem[x + CHILD1 := 0];
    if !IsMarked(m.treemap, i) {
      m.treemap := Mark(m.treemap, i);
      m.mem := m.mem[TreeBinAt(i) := x];
      m.mem := m.mem[x + PARENT := TreeBinAt(i)];
      m.mem := m.mem[x + FD := x];
      m.mem := m.mem[x + BK := x];
      RootWords(mem0, x, i, f[x := s]);
      assert Nodes(tr) + {x} == {x};
    } else {
      InsertIntoTree(m, x, s, i, mem0, tr);
      SpotWords(mem0, x, s, i, tr, f[x := s]);
    }
  }

  lemma InsertedIndex(mem: Mem, mem': Mem, smallmap: nat, map0: nat, map1: nat, bins: Bins, bins': Bins, f: Sizes,
      f': Sizes, x: int, s: int, i: nat)
    requires IndexOk(mem, smallmap, map0, bins, f) && i < NTREEBINS && InTreeBin(i, s) && s % 16 == 0
    requires x !in f && f' == f[x := s] && Spaced(f') && MapChanged(map0, map1, i, true)
    requires Room(Nodes(bins.trees[i]), x, f')
    requires OnlyIn(mem, mem', Nodes(bins.trees[i]) + {x}, f', TreeBinAt(i), TreeBinAt(i))
        && InsertedWords(mem, mem', bins.trees[i], x, s, i)
    requires bins' == bins.(trees := bins.trees[i := InsertT(bins.trees[i], x, s, Lo(i), Exp(i))])
    ensures IndexOk(mem', smallmap, map1, bins', f') && LinksOnly(mem, mem', f')
  {
    IndexInsertTree(mem, mem', smallmap, map0, map1, bins, f, f', x, s, i);
  }

  /** Link a free chunk into the tree of its size range. */
  method InsertLargeChunk(m: Heap, x: int, s: int) returns (ghost i: nat)
    requires BinsOk(m.mem, m.smallmap, m.treemap, m.bins, m.binned, m.leastAddr) && HeadSizes(m.mem, m.binned)
        && MIN_LARGE_SIZE <= s < SIZE_RANGE && s % 16 == 0
    requires x !in m.binned && Spaced(m.binned[x := s]) && x >= m.leastAddr
    modifies m`mem, m`treemap, m`bins, m`binned
    ensures m.binned == old(m.binned)[x := s]
    ensures IndexOk(m.mem, m.smallmap, m.treemap, m.bins, m.binned)
    ensures LinksOnly(old(m.mem), m.mem, m.binned)
    ensures i < NTREEBINS && InTreeBin(i, s)
    ensures m.bins == old(m.bins).(trees := old(m.bins.trees)[i := InsertT(old(m.bins.trees)[i], x, s, Lo(i), Exp(i))])
  {
    hide TreeBin, Room, HeadSizes, OnlyIn, InsertedWords, MapChanged, SmallBins, TreeAt, LinksOnly;
    var idx := ComputeTreeIndex(s);
    i := idx;
    ghost var mem0, map0, f' := m.mem, m.treemap, m.binned[x := s];
    assert x in f' && f'[x] == s && f' == m.binned[x := f'[x]];
    BlankTree(m.mem, m.smallmap, m.treemap, m.bins, m.binned, f', x, idx);
    PlantChunk(m, x, s, idx, m.bins.trees[i], m.binned);
    ghost var bins' := m.bins.(trees := m.bins.trees[i := InsertT(m.bins.trees[i], x, s, Lo(i), Exp(i))]);
    InsertedIndex(mem0, m.mem, m.smallmap, map0, m.treemap, m.bins, bins', m.binned, f', x, s, i);
    m.bins := bins';
    m.binned := f';
  }
}
