/** The best-fit searches of tmalloc_large and tmalloc_small: sizes are compared as remainders of an
    unsigned subtraction that wraps for chunks too small (src/mm/malloc.c:4442-4488, 4511-4528). */
module HeapFit {
  import opened Bits
  import opened BinIndex
  import opened Memory
  import opened Tries
  import opened TrieLinks
  import opened Tiling
  import opened Index
  import opened TreeKeys
  import opened Macros
  import opened HeapTrees
  import HeapRelink

  /** a - b on size_t. */
  function Sub64(a: int, b: int): int { (a - b) % SIZE_RANGE }

  lemma SubWraps(a: int, b: int)
    requires 0 <= a < SIZE_RANGE && 0 <= b < SIZE_RANGE
    ensures Sub64(a, b) == if a >= b then a - b else a - b + SIZE_RANGE
  {
  }

  /** v, when there is one, is a binned chunk that exceeds nb by rsize; without one, rsize is -nb. */
  ghost predicate Best(f: Sizes, nb: int, v: int, rsize: int) {
    && 0 <= rsize <= SIZE_RANGE - nb
    && (v != 0 ==> v in f && f[v] == nb + rsize)
    && (v == 0 ==> rsize == SIZE_RANGE - nb)
  }

  /** The test trem < rsize picks exactly the chunks that fit and beat the best so far. */
  lemma Consider(f: Sizes, nb: int, v: int, rsize: int, t: int)
    requires Best(f, nb, v, rsize) && t in f && t != 0 && 0 < nb < SIZE_RANGE && 0 <= f[t] < SIZE_RANGE
    ensures Sub64(f[t], nb) < rsize <==> nb <= f[t] < nb + rsize
    ensures Sub64(f[t], nb) < rsize ==> Best(f, nb, t, Sub64(f[t], nb))
    ensures Sub64(f[t], nb) == 0 <==> f[t] == nb
  {
    SubWraps(f[t], nb);
  }

  /** v is a node of its trie, not merely a chunk on the ring of one: only nodes have a parent word. */
  ghost predicate IsNode(mem: Mem, v: int) { v != 0 ==> Rd(mem, v + PARENT) != 0 }

  lemma RootParent(mem: Mem, cur: Tree, i: nat, par: int)
    requires cur.Node? && Links(mem, par, cur, i)
    ensures Rd(mem, Root(cur) + PARENT) == par
  {
  }

  // ----- the walk to the smallest chunk of a subtree -----

  /** Every large binned chunk that fits is no better than the best so far, or still ahead: in the
      subtree cur, or larger than everything in it. */
  ghost predicate Ahead(f: Sizes, nb: int, rsize: int, cur: Tree, hi: int) {
    forall a {:trigger a in f} :: a in f && f[a] >= nb && f[a] >= MIN_LARGE_SIZE ==> AheadAt(f[a], nb, rsize, cur, hi)
  }

  ghost predicate AheadAt(s: int, nb: int, rsize: int, cur: Tree, hi: int) {
    nb + rsize <= s || HasSize(cur, s) || (cur.Node? && s >= hi)
  }

  function Leftmost(t: Tree): Tree
    requires t.Node?
  {
    if t.left.Node? then t.left else t.right
  }

  function LeftmostHi(t: Tree, hi: int): int
    requires t.Node?
  {
    if t.left.Node? then t.mid else hi
  }

  lemma AheadStepAt(s: int, nb: int, rsize: int, rsize': int, cur: Tree, lo: int, hi: int)
    requires cur.Node? && Shape(cur, lo, hi) && AheadAt(s, nb, rsize, cur, hi) && nb + rsize' <= cur.size
        && rsize' <= rsize
    ensures AheadAt(s, nb, rsize', Leftmost(cur), LeftmostHi(cur, hi))
  {
    assert cur.left.Nil? ==> !HasSize(cur.left, s);
    assert cur.right.Nil? ==> !HasSize(cur.right, s);
    if HasSize(cur.right, s) { SizeInRange(cur.right, cur.mid, hi, s); }
  }

  /** After the root was considered, the rest of the subtree is reached through its leftmost child. */
  lemma AheadStep(f: Sizes, nb: int, rsize: int, rsize': int, cur: Tree, lo: int, hi: int)
    requires cur.Node? && Shape(cur, lo, hi) && Ahead(f, nb, rsize, cur, hi) && nb + rsize' <= cur.size
        && rsize' <= rsize
    ensures Ahead(f, nb, rsize', Leftmost(cur), LeftmostHi(cur, hi))
  {
    forall a {:trigger a in f} | a in f && f[a] >= nb
        && f[a] >= MIN_LARGE_SIZE ensures AheadAt(f[a], nb, rsize', Leftmost(cur), LeftmostHi(cur, hi)) {
      AheadStepAt(f[a], nb, rsize, rsize', cur, lo, hi);
    }
  }

  /** An exact fit cannot be beaten. */
  lemma NothingAhead(f: Sizes, nb: int, cur: Tree, hi: int)
    ensures Ahead(f, nb, 0, cur, hi)
  {
  }

  /** All sizes in t are from nb up. */
  ghost predicate Fits(t: Tree, nb: int)
    decreases t
  {
    t.Node? ==> t.size >= nb && Fits(t.left, nb) && Fits(t.right, nb)
  }

  lemma {:induction false} FitsFromShape(t: Tree, lo: int, hi: int, nb: int)
    requires Shape(t, lo, hi) && lo >= nb
    ensures Fits(t, nb)
    decreases t
  {
    if t.Node? {
      FitsFromShape(t.left, lo, t.mid, nb);
      FitsFromShape(t.right, t.mid, hi, nb);
    }
  }

  lemma {:induction false} FitsFromSizes(t: Tree, f: Sizes, lo: int, hi: int, nb: int)
    requires Shape(t, lo, hi) && Holds(t, f) && forall a :: a in Nodes(t) && a in f ==> f[a] >= nb
    ensures Fits(t, nb)
    decreases t
  {
    if t.Node? {
      var a := t.ring[0];
      assert a in t.ring && a in Nodes(t) && a in f && f[a] >= nb;
      FitsFromSizes(t.left, f, lo, t.mid, nb);
      FitsFromSizes(t.right, f, t.mid, hi, nb);
    }
  }

  /** cur hangs under par and its chunks are those of f. */
  ghost predicate Walking(mem: Mem, cur: Tree, f: Sizes, i: nat, par: int, lo: int, hi: int) {
    Links(mem, par, cur, i) && Holds(cur, f) && Shape(cur, lo, hi)
  }

  lemma WalkParts(mem: Mem, cur: Tree, f: Sizes, i: nat, par: int, lo: int, hi: int)
    requires Walking(mem, cur, f, i, par, lo, hi) && cur.Node?
    ensures Links(mem, par, cur, i) && Holds(cur, f) && Shape(cur, lo, hi) && |cur.ring| > 0 && lo <= cur.size
    ensures Links(mem, Root(cur), cur.left, i) && Holds(cur.left, f) && Shape(cur.left, lo, cur.mid)
    ensures Links(mem, Root(cur), cur.right, i) && Holds(cur.right, f) && Shape(cur.right, cur.mid, hi)
    ensures Walking(mem, cur.left, f, i, Root(cur), lo, cur.mid)
        && Walking(mem, cur.right, f, i, Root(cur), cur.mid, hi)
    ensures Rd(mem, Root(cur) + CHILD0) == Root(cur.left) && Rd(mem, Root(cur) + CHILD1) == Root(cur.right)
  {
  }

  lemma WalkStep(mem: Mem, cur: Tree, f: Sizes, i: nat, par: int, lo: int, hi: int)
    requires Walking(mem, cur, f, i, par, lo, hi) && cur.Node? && HeadSizes(mem, f) && Spaced(f)
    ensures Root(cur) in f && f[Root(cur)] == cur.size && SizeOf(Rd(mem, Root(cur) + HEAD)) == cur.size
        && lo <= cur.size && Root(cur) != 0 && Shape(cur, lo, hi)
    ensures Walking(mem, cur.left, f, i, Root(cur), lo, cur.mid)
        && Walking(mem, cur.right, f, i, Root(cur), cur.mid, hi)
    ensures Rd(mem, Root(cur) + CHILD0) == Root(cur.left) && Rd(mem, Root(cur) + CHILD1) == Root(cur.right)
    ensures Root(cur.left) == 0 <==> cur.left.Nil?
    ensures Root(cur.right) == 0 <==> cur.right.Nil?
    ensures Rd(mem, Root(cur) + PARENT) == par
  {
    hide Spaced, HeadSizes, Links, Holds, Shape, Walking;
    WalkParts(mem, cur, f, i, par, lo, hi);
    RootParent(mem, cur, i, par);
    RootSize(mem, cur, f, i, par);
    ChildNull(mem, cur, f, i, par);
    ChildNull(mem, cur.left, f, i, Root(cur));
    ChildNull(mem, cur.right, f, i, Root(cur));
  }

  function LeftmostLo(t: Tree, lo: int): int
    requires t.Node?
  {
    if t.left.Node? then lo else t.mid
  }

  /** leftmost_child. */
  method LeftmostChild(mem: Mem, t: int) returns (c: int)
    ensures c == if Rd(mem, t + CHILD0) != 0 then Rd(mem, t + CHILD0) else Rd(mem, t + CHILD1)
  {
    c := Rd(mem, t + CHILD0);
    if c == 0 { c := Rd(mem, t + CHILD1); }
  }

  /** One round: consider t, then go to its leftmost child. */
  method WalkOnce(mem: Mem, nb: int, t: int, v: int, rsize: int,
                  ghost cur: Tree, ghost f: Sizes, ghost i: nat, ghost par: int, ghost lo: int, ghost hi: int)
    returns (t': int, v': int, rsize': int)
    requires Walking(mem, cur, f, i, par, lo, hi) && cur.Node? && t == Root(cur) && HeadSizes(mem, f) && Spaced(f)
    requires 0 < nb < SIZE_RANGE && Best(f, nb, v, rsize) && Ahead(f, nb, rsize, cur, hi)
        && (Fits(cur, nb) || rsize == 0)
    requires par != 0 && IsNode(mem, v)
    ensures Best(f, nb, v', rsize') && rsize' <= rsize && (v != 0 ==> v' != 0) && IsNode(mem, v') && t != 0
    ensures t' == Root(Leftmost(cur)) && (t' == 0 <==> Leftmost(cur).Nil?)
    ensures Walking(mem, Leftmost(cur), f, i, t, LeftmostLo(cur, lo), LeftmostHi(cur, hi))
    ensures Ahead(f, nb, rsize', Leftmost(cur), LeftmostHi(cur, hi)) && v' != 0
    ensures Fits(Leftmost(cur), nb) || rsize' == 0
  {
    hide Walking, Ahead, HeadSizes;
    WalkStep(mem, cur, f, i, par, lo, hi);
    Consider(f, nb, v, rsize, t);
    var trem := Sub64(ChunkSize(mem, t), nb);
    v', rsize' := v, rsize;
    if trem < rsize {
      rsize' := trem;
      v' := t;
    }
    if rsize' == 0 {
      NothingAhead(f, nb, Leftmost(cur), LeftmostHi(cur, hi));
    } else {
      AheadStep(f, nb, rsize, rsize', cur, lo, hi);
    }
    t' := LeftmostChild(mem, t);
  }

  /** while (t != 0): find the smallest of tree or subtree. */
  method SmallestBelow(mem: Mem, nb: int, t0: int, v0: int, rsize0: int,
                       ghost sub: Tree, ghost f: Sizes, ghost i: nat, ghost par0: int, ghost lo0: int, ghost hi0: int)
    returns (v: int, rsize: int)
    requires Walking(mem, sub, f, i, par0, lo0, hi0) && t0 == Root(sub) && (t0 == 0 <==> sub.Nil?)
        && HeadSizes(mem, f) && Spaced(f)
    requires 0 < nb < SIZE_RANGE && Best(f, nb, v0, rsize0) && Ahead(f, nb, rsize0, sub, hi0)
        && (Fits(sub, nb) || rsize0 == 0)
    requires (sub.Node? ==> par0 != 0) && IsNode(mem, v0)
    ensures Best(f, nb, v, rsize) && Ahead(f, nb, rsize, Nil, 0) && (v0 != 0 || sub.Node? ==> v != 0) && IsNode(mem, v)
  {
    hide Walking, Ahead, HeadSizes, Best;
    v, rsize := v0, rsize0;
    var t := t0;
    ghost var cur, par, lo, hi := sub, par0, lo0, hi0;
    while t != 0
      invariant Walking(mem, cur, f, i, par, lo, hi) && t == Root(cur) && (t == 0 <==> cur.Nil?)
      invariant Best(f, nb, v, rsize) && Ahead(f, nb, rsize, cur, hi) && (Fits(cur, nb) || rsize == 0)
      invariant (cur == sub || v != 0) && (cur.Node? ==> par != 0) && IsNode(mem, v)
      invariant v0 != 0 ==> v != 0
      decreases cur
    {
      ghost var c := cur;
      var t1 := t;
      t, v, rsize := WalkOnce(mem, nb, t, v, rsize, cur, f, i, par, lo, hi);
      lo, hi, par := LeftmostLo(c, lo), LeftmostHi(c, hi), t1;
      cur := Leftmost(c);
    }
    AheadDone(f, nb, rsize, cur, hi);
  }

  lemma AheadDone(f: Sizes, nb: int, rsize: int, cur: Tree, hi: int)
    requires Ahead(f, nb, rsize, cur, hi) && cur.Nil?
    ensures Ahead(f, nb, rsize, Nil, 0)
  {
  }

  // ----- the walk down the bin of nb itself -----

  /** ... or still ahead on the path of nb: in the subtree cur, in the deepest untaken right subtree
      rst, larger than everything in rst, or in a later bin. */
  ghost predicate OnPath(f: Sizes, nb: int, rsize: int, cur: Tree, rst: Tree, rsthi: int, next: int) {
    forall a {:trigger a in f} :: a in f && f[a] >= nb && f[a] >= MIN_LARGE_SIZE ==>
        OnPathAt(f[a], nb, rsize, cur, rst, rsthi, next)
  }

  ghost predicate OnPathAt(s: int, nb: int, rsize: int, cur: Tree, rst: Tree, rsthi: int, next: int) {
    nb + rsize <= s || HasSize(cur, s) || (rst.Node? && (HasSize(rst, s) || s >= rsthi)) || s >= next
  }

  lemma OnPathStepAt(s: int, nb: int, rsize: int, rsize': int, cur: Tree, lo: int, hi: int, rst: Tree, rstlo: int,
      rsthi: int, next: int)
    requires cur.Node? && Shape(cur, lo, hi) && OnPathAt(s, nb, rsize, cur, rst, rsthi, next) && rsize' <= rsize
    requires cur.size >= nb ==> nb + rsize' <= cur.size
    requires rst.Node? ==> Shape(rst, rstlo, rsthi) && rstlo >= hi
    requires s >= nb
    ensures nb < cur.mid && cur.right.Node? ==> OnPathAt(s, nb, rsize', cur.left, cur.right, hi, next)
    ensures nb < cur.mid && cur.right.Nil? ==> OnPathAt(s, nb, rsize', cur.left, rst, rsthi, next)
    ensures nb >= cur.mid ==> OnPathAt(s, nb, rsize', cur.right, rst, rsthi, next)
  {
    assert cur.left.Nil? ==> !HasSize(cur.left, s);
    assert cur.right.Nil? ==> !HasSize(cur.right, s);
    if HasSize(cur.left, s) { SizeInRange(cur.left, lo, cur.mid, s); }
    if rst.Node? && HasSize(rst, s) { SizeInRange(rst, rstlo, rsthi, s); }
    if rst.Node? { SizeInRange(rst, rstlo, rsthi, rst.size); }
  }

  lemma OnPathStep(f: Sizes, nb: int, rsize: int, rsize': int, cur: Tree, lo: int, hi: int, rst: Tree, rstlo: int,
      rsthi: int, next: int)
    requires cur.Node? && Shape(cur, lo, hi) && OnPath(f, nb, rsize, cur, rst, rsthi, next) && rsize' <= rsize
    requires cur.size >= nb ==> nb + rsize' <= cur.size
    requires rst.Node? ==> Shape(rst, rstlo, rsthi) && rstlo >= hi
    ensures nb < cur.mid && cur.right.Node? ==> OnPath(f, nb, rsize', cur.left, cur.right, hi, next)
    ensures nb < cur.mid && cur.right.Nil? ==> OnPath(f, nb, rsize', cur.left, rst, rsthi, next)
    ensures nb >= cur.mid ==> OnPath(f, nb, rsize', cur.right, rst, rsthi, next)
  {
    forall a {:trigger a in f} | a in f && f[a] >= nb && f[a] >= MIN_LARGE_SIZE
      ensures nb < cur.mid && cur.right.Node? ==> OnPathAt(f[a], nb, rsize', cur.left, cur.right, hi, next)
      ensures nb < cur.mid && cur.right.Nil? ==> OnPathAt(f[a], nb, rsize', cur.left, rst, rsthi, next)
      ensures nb >= cur.mid ==> OnPathAt(f[a], nb, rsize', cur.right, rst, rsthi, next)
    {
      OnPathStepAt(f[a], nb, rsize, rsize', cur, lo, hi, rst, rstlo, rsthi, next);
    }
  }

  /** The state of the walk down the bin: cur on the path of nb, rst to its right. */
  ghost predicate PathState(mem: Mem, cur: Tree, f: Sizes, nb: int, k: int, lo: int, e: nat, i: nat, par: int,
                            rst: Tree, rstpar: int, rstlo: int, rsthi: int, next: int) {
    && (cur.Node? ==> Descending(mem, cur, f, nb, k, lo, e, i, par) && lo + Pow2(e) <= next)
    && Walking(mem, rst, f, i, rstpar, rstlo, rsthi)
    && (rst.Node? ==> rstlo >= nb && rsthi <= next && (cur.Node? ==> rstlo >= lo + Pow2(e)))
  }

  lemma RestTaken(mem: Mem, cur: Tree, f: Sizes, nb: int, k: int, lo: int, e: nat, i: nat, par: int)
    requires Descending(mem, cur, f, nb, k, lo, e, i, par) && nb < cur.mid
    ensures Walking(mem, cur.right, f, i, Root(cur), cur.mid, lo + Pow2(e))
  {
  }

  lemma PathMid(mem: Mem, cur: Tree, f: Sizes, nb: int, k: int, lo: int, e: nat, i: nat, par: int)
    requires Descending(mem, cur, f, nb, k, lo, e, i, par) && e > 4
    ensures Shape(cur, lo, lo + Pow2(e)) && cur.mid == lo + Pow2(e - 1) && cur.mid + Pow2(e - 1) == lo + Pow2(e)
  {
  }

  /** What one round reads and where it goes: the child on the side of nb, and the right child rt. */
  lemma PathReads(mem: Mem, cur: Tree, f: Sizes, nb: int, k: int, lo: int, e: nat, i: nat, par: int)
    requires Descending(mem, cur, f, nb, k, lo, e, i, par) && cur.size != nb && HeadSizes(mem, f) && Spaced(f)
    ensures Rd(mem, Root(cur) + CHILD1) == Root(cur.right) && (Root(cur.right) == 0 <==> cur.right.Nil?)
    ensures Rd(mem, Root(cur) + (if TopBitOf(k) == 0 then CHILD0 else CHILD1)) == Root(Side(cur, nb))
    ensures Root(Side(cur, nb)) == 0 <==> Side(cur, nb).Nil?
    ensures e > 4
        && (Side(cur, nb).Node? ==>
        Descending(mem, Side(cur, nb), f, nb, Shl64(k, 1), SideLo(cur, nb, lo), e - 1, i, Root(cur)))
    ensures nb >= cur.mid ==> Root(cur.right) == Root(Side(cur, nb))
  {
    DescendStep(mem, cur, f, nb, k, lo, e, i, par);
    ChildWords(mem, cur, i, par);
    ChildNull(mem, cur.left, f, i, Root(cur));
    ChildNull(mem, cur.right, f, i, Root(cur));
  }

  /** The deepest untaken right subtree, as the walk remembers it. */
  datatype Rst = Rst(tree: Tree, par: int, lo: int, hi: int)

  function NextRst(cur: Tree, nb: int, t: int, hi: int, r: Rst): Rst
    requires cur.Node?
  {
    if nb < cur.mid && cur.right.Node? then Rst(cur.right, t, cur.mid, hi) else r
  }

  lemma DifferentRoots(f: Sizes, cur: Tree, lo: int, hi: int)
    requires cur.Node? && Shape(cur, lo, hi) && Holds(cur, f) && cur.left.Node? && cur.right.Node?
    ensures Root(cur.left) != Root(cur.right)
  {
    assert cur.left.ring[0] in cur.left.ring && cur.right.ring[0] in cur.right.ring;
  }

  lemma SideRoots(mem: Mem, cur: Tree, f: Sizes, nb: int, k: int, lo: int, e: nat, i: nat, par: int)
    requires Descending(mem, cur, f, nb, k, lo, e, i, par) && nb < cur.mid && cur.right.Node? && Spaced(f)
    ensures Root(cur.right) != Root(cur.left)
  {
    if cur.left.Node? { DifferentRoots(f, cur, lo, lo + Pow2(e)); } else { ChildNull(mem, cur.right, f, i, Root(cur)); }
  }

  /** rt = t->child[1]; t = t->child[...]; if (rt != 0 && rt != t) rst = rt; */
  method PathOnce(mem: Mem, nb: int, t: int, k: int, rst: int, rsize: int, ghost rsize0: int,
                  ghost cur: Tree, ghost f: Sizes, ghost lo: int, ghost e: nat, ghost i: nat, ghost par: int,
                      ghost r: Rst, ghost next: int)
    returns (t': int, rst': int)
    requires cur.Node? && Descending(mem, cur, f, nb, k, lo, e, i, par) && t == Root(cur) && HeadSizes(mem, f)
        && Spaced(f) && cur.size != nb
    requires PathState(mem, cur, f, nb, k, lo, e, i, par, r.tree, r.par, r.lo, r.hi, next) && rst == Root(r.tree)
        && (rst == 0 <==> r.tree.Nil?)
    requires OnPath(f, nb, rsize0, cur, r.tree, r.hi, next) && rsize <= rsize0
        && (cur.size >= nb ==> nb + rsize <= cur.size)
    ensures t' == Root(Side(cur, nb)) && (t' == 0 <==> Side(cur, nb).Nil?) && e > 0
    ensures var r' := NextRst(cur, nb, t, lo + Pow2(e), r);
            && rst' == Root(r'.tree) && (rst' == 0 <==> r'.tree.Nil?)
            && PathState(mem, Side(cur, nb), f, nb, Shl64(k, 1), SideLo(cur, nb, lo), e - 1, i, t, r'.tree, r'.par,
                r'.lo, r'.hi, next)
            && OnPath(f, nb, rsize, Side(cur, nb), r'.tree, r'.hi, next)
  {
    hide Descending, HeadSizes, Walking, OnPath, Shape, Spaced;
    PathReads(mem, cur, f, nb, k, lo, e, i, par);
    PathMid(mem, cur, f, nb, k, lo, e, i, par);
    var rt := Rd(mem, t + CHILD1);
    t' := Rd(mem, t + (if TopBitOf(k) == 0 then CHILD0 else CHILD1));
    rst' := rst;
    if nb < cur.mid && cur.right.Node? { SideRoots(mem, cur, f, nb, k, lo, e, i, par); }
    if nb < cur.mid { RestTaken(mem, cur, f, nb, k, lo, e, i, par); }
    if rt != 0 && rt != t' { rst' := rt; }
    RstShape(mem, r.tree, f, i, r.par, r.lo, r.hi);
    OnPathStep(f, nb, rsize0, rsize, cur, lo, lo + Pow2(e), r.tree, r.lo, r.hi, next);
  }

  lemma RstShape(mem: Mem, t: Tree, f: Sizes, i: nat, par: int, lo: int, hi: int)
    requires Walking(mem, t, f, i, par, lo, hi)
    ensures Shape(t, lo, hi)
  {
  }

  /** At the end of the path only rst and the later bins can hold a chunk that fits better. */
  lemma PathDone(f: Sizes, nb: int, v: int, rsize: int, cur: Tree, rst: Tree, rsthi: int, next: int)
    requires OnPath(f, nb, rsize, cur, rst, rsthi, next) && cur.Nil? && Best(f, nb, v, rsize)
    requires rst.Node? ==> rsthi <= next
    requires v != 0 ==> f[v] < next
    ensures v != 0 || rst.Node? ==> Ahead(f, nb, rsize, rst, rsthi)
    ensures v == 0 && rst.Nil? ==> forall a {:trigger a in f} :: a in f && f[a] >= nb && f[a] >= MIN_LARGE_SIZE ==>
        f[a] >= SIZE_RANGE || f[a] >= next
  {
    forall a {:trigger a in f} | a in f && f[a] >= nb && f[a] >= MIN_LARGE_SIZE
      ensures v != 0 || rst.Node? ==> AheadAt(f[a], nb, rsize, rst, rsthi)
      ensures v == 0 && rst.Nil? ==> f[a] >= SIZE_RANGE || f[a] >= next
    {
      assert OnPathAt(f[a], nb, rsize, cur, rst, rsthi, next);
    }
  }

  lemma CurSize(mem: Mem, cur: Tree, f: Sizes, nb: int, k: int, lo: int, e: nat, i: nat, par: int)
    requires cur.Node? && Descending(mem, cur, f, nb, k, lo, e, i, par) && HeadSizes(mem, f) && Spaced(f)
    ensures Root(cur) in f && f[Root(cur)] == cur.size && SizeOf(Rd(mem, Root(cur) + HEAD)) == cur.size
        && Root(cur) != 0
    ensures cur.size < lo + Pow2(e) && 0 <= cur.size < SIZE_RANGE && Walking(mem, cur, f, i, par, lo, lo + Pow2(e))
    ensures Rd(mem, Root(cur) + PARENT) == par
  {
    RootParent(mem, cur, i, par);
    RootSize(mem, cur, f, i, par);
  }

  /** Where the rest of the search starts. */
  datatype Start = Start(tree: Tree, par: int, lo: int, hi: int)

  /** The walk down the bin of nb: an exact fit, or the best chunk on the path and the subtree where
      a better one can still be. */
  method DescendBin(mem: Mem, nb: int, t0: int, k0: int, ghost tr: Tree, ghost f: Sizes, ghost lo0: int,
      ghost e0: nat, ghost i: nat, ghost par0: int)
    returns (v: int, rsize: int, t: int, ghost sub: Start)
    requires tr.Node? && Descending(mem, tr, f, nb, k0, lo0, e0, i, par0) && t0 == Root(tr) && HeadSizes(mem, f)
        && Spaced(f) && 0 < nb < SIZE_RANGE
    requires OnPath(f, nb, SIZE_RANGE - nb, tr, Nil, 0, lo0 + Pow2(e0)) && par0 != 0
    ensures IsNode(mem, v) && (sub.tree.Node? ==> sub.par != 0)
    ensures Best(f, nb, v, rsize) && t == Root(sub.tree) && (t == 0 <==> sub.tree.Nil?)
    ensures Walking(mem, sub.tree, f, i, sub.par, sub.lo, sub.hi) && (Fits(sub.tree, nb) || rsize == 0)
    ensures v != 0 || t != 0 ==> Ahead(f, nb, rsize, sub.tree, sub.hi)
    ensures v == 0 && t == 0 ==> forall a {:trigger a in f} :: a in f && f[a] >= nb && f[a] >= MIN_LARGE_SIZE ==>
        f[a] >= SIZE_RANGE || f[a] >= lo0 + Pow2(e0)
  {
    hide Descending, HeadSizes, Walking, OnPath, Shape, Spaced, Ahead;
    SubWraps(0, nb);
    v, rsize, t := 0, Sub64(0, nb), t0;
    var sizebits, rst := k0, 0;
    ghost var next := lo0 + Pow2(e0);
    ghost var cur, lo, e, par, r := tr, lo0, e0, par0, Rst(Nil, 0, 0, 0);
    EmptyWalk(mem, f, i);
    while true
      invariant cur.Node? && t == Root(cur) && rst == Root(r.tree) && (rst == 0 <==> r.tree.Nil?)
      invariant Descending(mem, cur, f, nb, sizebits, lo, e, i, par)
          && PathState(mem, cur, f, nb, sizebits, lo, e, i, par, r.tree, r.par, r.lo, r.hi, next)
      invariant Best(f, nb, v, rsize) && rsize > 0 && OnPath(f, nb, rsize, cur, r.tree, r.hi, next)
      invariant v != 0 ==> f[v] < next
      invariant par != 0 && IsNode(mem, v) && (r.tree.Node? ==> r.par != 0)
      decreases cur
    {
      CurSize(mem, cur, f, nb, sizebits, lo, e, i, par);
      Consider(f, nb, v, rsize, t);
      ghost var rsize0 := rsize;
      var trem := Sub64(ChunkSize(mem, t), nb);
      if trem < rsize {
        v := t;
        rsize := trem;
        if rsize == 0 {
          sub := Start(cur, par, lo, lo + Pow2(e));
          NothingAhead(f, nb, cur, lo + Pow2(e));
          return;
        }
      }
      ghost var t1, c := t, cur;
      t, rst := PathOnce(mem, nb, t, sizebits, rst, rsize, rsize0, cur, f, lo, e, i, par, r, next);
      r := NextRst(c, nb, t1, lo + Pow2(e), r);
      cur := Side(c, nb);
      if t == 0 {
        t := rst;
        PathDone(f, nb, v, rsize, cur, r.tree, r.hi, next);
        RestFits(mem, r.tree, f, i, r.par, r.lo, r.hi, nb);
        sub := Start(r.tree, r.par, r.lo, r.hi);
        return;
      }
      lo, e, par := SideLo(c, nb, lo), e - 1, t1;
      sizebits := Shl64(sizebits, 1);
    }
  }

  lemma RestFits(mem: Mem, t: Tree, f: Sizes, i: nat, par: int, lo: int, hi: int, nb: int)
    requires Walking(mem, t, f, i, par, lo, hi) && (t.Node? ==> lo >= nb)
    ensures Fits(t, nb)
  {
    if t.Node? { FitsFromShape(t, lo, hi, nb); }
  }

  lemma EmptyWalk(mem: Mem, f: Sizes, i: nat)
    ensures Walking(mem, Nil, f, i, 0, 0, 0)
  {
  }

  // ----- the whole search -----

  lemma InBinOrLater(idx: nat, nb: int, s: int)
    requires InTreeBin(idx, nb) && nb <= s < SIZE_RANGE
    ensures InTreeBin(idx, s) || (idx + 1 < NTREEBINS && s >= MinSize(idx + 1))
    ensures idx + 1 < NTREEBINS ==> Lo(idx) + Pow2(Exp(idx)) == MinSize(idx + 1)
    ensures idx + 1 == NTREEBINS ==> Lo(idx) + Pow2(Exp(idx)) == SIZE_RANGE
  {
    if idx + 1 < NTREEBINS { MinSizeStep(idx); } else { Pow2Of64(); }
  }

  lemma PathStart(f: Sizes, nb: int, idx: nat, t: Tree)
    requires InTreeBin(idx, nb) && TreeOk(t, idx, f) && Spaced(f)
    ensures OnPath(f, nb, SIZE_RANGE - nb, t, Nil, 0, Lo(idx) + Pow2(Exp(idx)))
  {
    forall a {:trigger a in f} | a in f && f[a] >= nb && f[a] >= MIN_LARGE_SIZE
      ensures OnPathAt(f[a], nb, SIZE_RANGE - nb, t, Nil, 0, Lo(idx) + Pow2(Exp(idx)))
    {
      InBinOrLater(idx, nb, f[a]);
      if InTreeBin(idx, f[a]) { HoldsAt(t, f, a); }
    }
  }

  /** Nothing that fits is in bin idx or before. */
  ghost predicate OnlyLater(f: Sizes, nb: int, idx: nat) {
    forall a {:trigger a in f} :: a in f && f[a] >= nb && f[a] >= MIN_LARGE_SIZE ==>
        idx + 1 < NTREEBINS && f[a] >= MinSize(idx + 1)
  }

  lemma LaterFrom(f: Sizes, nb: int, idx: nat)
    requires InTreeBin(idx, nb) && Spaced(f)
    requires forall a {:trigger a in f} :: a in f && f[a] >= nb && f[a] >= MIN_LARGE_SIZE ==>
        f[a] >= SIZE_RANGE || f[a] >= Lo(idx) + Pow2(Exp(idx))
    ensures OnlyLater(f, nb, idx)
  {
    forall a {:trigger a in f} | a in f && f[a] >= nb && f[a] >= MIN_LARGE_SIZE ensures idx + 1 < NTREEBINS
        && f[a] >= MinSize(idx + 1) {
      InBinOrLater(idx, nb, f[a]);
    }
  }

  lemma EmptyBin(f: Sizes, nb: int, idx: nat)
    requires InTreeBin(idx, nb) && TreeOk(Nil, idx, f) && Spaced(f)
    ensures OnlyLater(f, nb, idx)
  {
    forall a {:trigger a in f} | a in f && f[a] >= nb && f[a] >= MIN_LARGE_SIZE ensures idx + 1 < NTREEBINS
        && f[a] >= MinSize(idx + 1) {
      InBinOrLater(idx, nb, f[a]);
    }
  }

  lemma RootOfBin(mem: Mem, treemap: nat, trees: seq<Tree>, f: Sizes, i: nat)
    requires TreeBins(mem, treemap, trees, f) && i < NTREEBINS && Spaced(f)
    ensures Rd(mem, TreeBinAt(i)) == Root(trees[i]) && (Root(trees[i]) == 0 <==> trees[i].Nil?)
        && (Bit(treemap, i) <==> trees[i].Node?)
    ensures TreeOk(trees[i], i, f) && Links(mem, TreeBinAt(i), trees[i], i)
    ensures Walking(mem, trees[i], f, i, TreeBinAt(i), Lo(i), Lo(i) + Pow2(Exp(i)))
  {
    TreeBinOf(mem, treemap, trees, f, i);
    ChildNull(mem, trees[i], f, i, TreeBinAt(i));
  }

  /** Bin i is the first marked one that can hold a fitting chunk: its trie is where the best one is. */
  lemma FirstMarked(mem: Mem, treemap: nat, trees: seq<Tree>, f: Sizes, nb: int, rsize: int, i: nat, from: nat)
    requires TreeBins(mem, treemap, trees, f) && Spaced(f) && from <= i < NTREEBINS && Bit(treemap, i)
    requires forall j :: from <= j < i ==> !Bit(treemap, j)
    requires forall a {:trigger a in f} :: a in f && f[a] >= nb && f[a] >= MIN_LARGE_SIZE ==> f[a] >= MinSize(from)
    requires nb <= MinSize(from)
    ensures Ahead(f, nb, rsize, trees[i], Lo(i) + Pow2(Exp(i))) && Fits(trees[i], nb)
  {
    hide Spaced, Shape, Halved, Links, Bit, Pow2, MinSize;
    var hi := Lo(i) + Pow2(Exp(i));
    RootOfBin(mem, treemap, trees, f, i);
    forall a {:trigger a in f} | a in f && f[a] >= nb
        && f[a] >= MIN_LARGE_SIZE ensures AheadAt(f[a], nb, rsize, trees[i], hi) {
      FirstMarkedAt(mem, treemap, trees, f, i, from, a);
    }
    forall a | a in Nodes(trees[i]) && a in f ensures f[a] >= nb { MinSizeMono(from, i); }
    FitsFromSizes(trees[i], f, Lo(i), hi, nb);
  }

  lemma FirstMarkedAt(mem: Mem, treemap: nat, trees: seq<Tree>, f: Sizes, i: nat, from: nat, a: int)
    requires TreeBins(mem, treemap, trees, f) && Spaced(f) && from <= i < NTREEBINS && Bit(treemap, i)
    requires forall j :: from <= j < i ==> !Bit(treemap, j)
    requires a in f && f[a] >= MinSize(from)
    ensures HasSize(trees[i], f[a]) || f[a] >= Lo(i) + Pow2(Exp(i))
  {
    hide TreeBins, Spaced, MinSize, Shape, Halved, Holds, HasSize, Links, Bit, Pow2, InTreeBin;
    var j := HeapRelink.BinFrom(f[a], from);
    BinsInOrder(from, i, j, f[a]);
    InBinMarked(mem, treemap, trees, f, j, a);
  }

  lemma InBinMarked(mem: Mem, treemap: nat, trees: seq<Tree>, f: Sizes, j: nat, a: int)
    requires TreeBins(mem, treemap, trees, f) && j < NTREEBINS && a in f && InTreeBin(j, f[a])
    ensures Bit(treemap, j) && HasSize(trees[j], f[a])
  {
    hide Links, Bit, Pow2, InTreeBin, Shape, Halved;
    TreeBinOf(mem, treemap, trees, f, j);
    HoldsAt(trees[j], f, a);
  }

  lemma BinsInOrder(from: nat, i: nat, j: nat, s: int)
    requires InTreeBin(j, s) && s >= MinSize(from) && from <= i < NTREEBINS
    ensures j >= from && j < NTREEBINS
    ensures j > i ==> s >= Lo(i) + Pow2(Exp(i))
  {
    if j < from { MinSizeMono(j + 1, from); }
    if j > i {
      MinSizeMono(i + 1, j);
      MinSizeStep(i);
    }
  }
}
