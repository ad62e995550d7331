/** The index of free chunks: 32 small bins, 32 tree bins and their bitmaps, as one representation
    of a finite map from chunk address to chunk size (src/mm/malloc.c:2507-2612, 3325-3428). */
module Index {
  import opened Bits
  import opened BinIndex
  import opened Memory
  import opened Rings
  import opened Tries
  import opened TrieLinks

  /** The chunks of each small bin in fd order after the header, and the trie of each tree bin. */
  datatype Bins = Bins(small: seq<seq<int>>, trees: seq<Tree>)

  /** Binned chunks, with their sizes. */
  type Sizes = map<int, int>

  /** The sizes a tree bin divides: [Lo, Lo + 2^Exp).  The last bin divides all sizes. */
  function Lo(i: nat): int { if i + 1 >= NTREEBINS then 0 else MinSize(i) }

  function Exp(i: nat): nat { if i + 1 >= NTREEBINS then 64 else i / 2 + 7 }

  /** The bodies of the chunks do not overlap. */
  ghost predicate Spaced(f: Sizes) {
    && (forall a :: a in f ==> a >= HEAP_FLOOR && 32 <= f[a] < SIZE_RANGE)
    && (forall a, b {:trigger a in f, b in f} :: a in f && b in f && a < b ==> a + f[a] <= b)
  }

  ghost predicate AlignedSizes(f: Sizes) {
    forall a :: a in f ==> a % 16 == 0 && f[a] % 16 == 0
  }

  /** Bin i holds exactly the chunks of size 8i; its ring is maintained only while its bit is on. */
  ghost predicate SmallBin(mem: Mem, marked: bool, i: nat, list: seq<int>, f: Sizes) {
    && (marked <==> list != [])
    && (marked ==> Ring(mem, [SmallBinAt(i)] + list))
    && (forall a :: a in Members(list) <==> a in f && f[a] == SmallIndex2Size(i))
  }

  /** Tree bin i holds exactly the chunks whose size is in its range. */
  ghost predicate TreeBin(mem: Mem, marked: bool, i: nat, t: Tree, f: Sizes) {
    && (marked <==> t.Node?)
    && Rd(mem, TreeBinAt(i)) == Root(t)
    && Links(mem, TreeBinAt(i), t, i)
    && TreeOk(t, i, f)
  }

  ghost predicate TreeOk(t: Tree, i: nat, f: Sizes) {
    && Shape(t, Lo(i), Lo(i) + Pow2(Exp(i)))
    && Halved(t, Lo(i), Exp(i))
    && Tries.Aligned(t)
    && Holds(t, f)
    && (forall a :: a in Nodes(t) <==> a in f && InTreeBin(i, f[a]))
  }

  ghost predicate SmallAt(mem: Mem, smallmap: nat, small: seq<seq<int>>, f: Sizes, i: nat) {
    i < |small| && SmallBin(mem, Bit(smallmap, i), i, small[i], f)
  }

  ghost predicate TreeAt(mem: Mem, treemap: nat, trees: seq<Tree>, f: Sizes, i: nat) {
    i < |trees| && TreeBin(mem, Bit(treemap, i), i, trees[i], f)
  }

  ghost predicate SmallBins(mem: Mem, smallmap: nat, small: seq<seq<int>>, f: Sizes) {
    && smallmap < WORD_RANGE && |small| == NSMALLBINS
    && forall i {:trigger SmallAt(mem, smallmap, small, f, i)} :: 0 <= i < NSMALLBINS ==>
        SmallAt(mem, smallmap, small, f, i)
  }

  ghost predicate TreeBins(mem: Mem, treemap: nat, trees: seq<Tree>, f: Sizes) {
    && treemap < WORD_RANGE && |trees| == NTREEBINS
    && forall i {:trigger TreeAt(mem, treemap, trees, f, i)} :: 0 <= i < NTREEBINS ==> TreeAt(mem, treemap, trees, f, i)
  }

  ghost predicate IndexOk(mem: Mem, smallmap: nat, treemap: nat, bins: Bins, f: Sizes) {
    SmallBins(mem, smallmap, bins.small, f) && TreeBins(mem, treemap, bins.trees, f)
  }

  /** A path in tree bin i < 31 has at most i / 2 + 4 nodes, one in bin 31 at most 61. */
  lemma PathBound(t: Tree, i: nat, f: Sizes)
    requires TreeOk(t, i, f) && i < NTREEBINS
    ensures Height(t) <= if i < 31 then i / 2 + 4 else 61
  {
    hide Shape, Halved, Holds, Tries.Aligned, Height;
    HeightBound(t, Lo(i), Exp(i));
  }

  lemma SmallBinOf(mem: Mem, smallmap: nat, small: seq<seq<int>>, f: Sizes, i: nat)
    requires SmallBins(mem, smallmap, small, f) && i < NSMALLBINS
    ensures SmallBin(mem, Bit(smallmap, i), i, small[i], f)
  {
    assert SmallAt(mem, smallmap, small, f, i);
  }

  lemma TreeBinOf(mem: Mem, treemap: nat, trees: seq<Tree>, f: Sizes, i: nat)
    requires TreeBins(mem, treemap, trees, f) && i < NTREEBINS
    ensures TreeBin(mem, Bit(treemap, i), i, trees[i], f)
  {
    assert TreeAt(mem, treemap, trees, f, i);
  }

  /** Every word outside the bodies of the chunks in m, but for h1 and h2, is the same. */
  ghost predicate OnlyIn(mem: Mem, mem': Mem, m: set<int>, f: Sizes, h1: int, h2: int)
    requires m <= f.Keys
  {
    forall w {:trigger Rd(mem', w)} ::
      w != h1 && w != h2 && (forall a :: a in m ==> !(a + 16 <= w < a + f[a])) ==> Rd(mem', w) == Rd(mem, w)
  }

  /** Every heap word outside the bodies of the chunks of f is the same. */
  ghost predicate LinksOnly(mem: Mem, mem': Mem, f: Sizes) {
    forall w {:trigger Rd(mem', w)} ::
      w >= HEAP_FLOOR && (forall a :: a in f ==> !(a + 16 <= w < a + f[a])) ==> Rd(mem', w) == Rd(mem, w)
  }

  /** f and f' differ at p only. */
  ghost predicate DifferAt(f: Sizes, f': Sizes, p: int) {
    forall a :: a != p ==> (a in f <==> a in f') && (a in f && a in f' ==> f'[a] == f[a])
  }

  // ----- frames -----

  lemma OnlyInLinks(mem: Mem, mem': Mem, m: set<int>, f: Sizes, h1: int, h2: int)
    requires m <= f.Keys && OnlyIn(mem, mem', m, f, h1, h2) && h1 < HEAP_FLOOR && h2 < HEAP_FLOOR
    ensures LinksOnly(mem, mem', f)
  {
  }

  /** A small bin no chunk of which, and no header word of which, was touched. */
  lemma SmallFrame(mem: Mem, mem': Mem, m: set<int>, g: Sizes, h1: int, h2: int, p: int, marked: bool, i: nat,
      list: seq<int>, f: Sizes, f': Sizes)
    requires SmallBin(mem, marked, i, list, f) && i < NSMALLBINS
    requires m <= g.Keys && OnlyIn(mem, mem', m, g, h1, h2) && Spaced(g)
    requires forall a :: a in Members(list) ==> a in g && a !in m
    requires DifferAt(f, f', p)
    requires p in f ==> f[p] != SmallIndex2Size(i)
    requires p in f' ==> f'[p] != SmallIndex2Size(i)
    requires h1 != SmallBinAt(i) + FD && h1 != SmallBinAt(i) + BK && h2 != SmallBinAt(i) + FD
        && h2 != SmallBinAt(i) + BK
    requires h1 < HEAP_FLOOR && h2 < HEAP_FLOOR
    ensures SmallBin(mem', marked, i, list, f')
  {
    if marked {
      var r := [SmallBinAt(i)] + list;
      forall j | 0 <= j < |r| ensures Rd(mem', r[j] + FD) == Rd(mem, r[j] + FD)
          && Rd(mem', r[j] + BK) == Rd(mem, r[j] + BK) {
        if j > 0 { assert r[j] == list[j - 1] && list[j - 1] in Members(list); }
      }
      RingFrame(mem, mem', r);
    }
  }

  lemma TreeOkFrame(t: Tree, i: nat, f: Sizes, f': Sizes, p: int)
    requires TreeOk(t, i, f) && DifferAt(f, f', p)
    requires p in f ==> !InTreeBin(i, f[p])
    requires p in f' ==> !InTreeBin(i, f'[p])
    ensures TreeOk(t, i, f')
  {
    HoldsFrame(t, f, f');
  }

  lemma NodesUntouched(mem: Mem, mem': Mem, m: set<int>, g: Sizes, h1: int, h2: int, nodes: set<int>)
    requires m <= g.Keys && OnlyIn(mem, mem', m, g, h1, h2) && Spaced(g) && h1 < HEAP_FLOOR && h2 < HEAP_FLOOR
    requires forall a :: a in nodes ==> a in g && a !in m && g[a] >= 64
    ensures TreeSame(mem, mem', nodes) && Apart(nodes)
  {
  }

  lemma TreeFrame(mem: Mem, mem': Mem, m: set<int>, g: Sizes, h1: int, h2: int, p: int, marked: bool, i: nat,
      t: Tree, f: Sizes, f': Sizes)
    requires TreeBin(mem, marked, i, t, f) && i < NTREEBINS
    requires m <= g.Keys && OnlyIn(mem, mem', m, g, h1, h2) && Spaced(g)
    requires forall a :: a in Nodes(t) ==> a in g && a !in m && g[a] >= 64
    requires DifferAt(f, f', p)
    requires p in f ==> !InTreeBin(i, f[p])
    requires p in f' ==> !InTreeBin(i, f'[p])
    requires h1 != TreeBinAt(i) && h2 != TreeBinAt(i) && h1 < HEAP_FLOOR && h2 < HEAP_FLOOR
    ensures TreeBin(mem', marked, i, t, f')
  {
    NodesUntouched(mem, mem', m, g, h1, h2, Nodes(t));
    LinksFrame(mem, mem', TreeBinAt(i), t, i);
    TreeOkFrame(t, i, f, f', p);
  }

  // ----- changing one bin leaves the others -----

  /** A chunk of a tree bin is large. */
  lemma TreeBinLarge(i: nat, s: int)
    requires InTreeBin(i, s)
    ensures s >= MIN_LARGE_SIZE
  {
    MinSizeMono(0, i);
    Pow2Small();
  }

  ghost predicate MapChanged(map0: nat, map1: nat, i: int, on: bool) {
    map1 < WORD_RANGE && forall j :: 0 <= j < 32 ==> (Bit(map1, j) <==> if j == i then on else Bit(map0, j))
  }

  /** Chunks of size s and two header words changed; small bins of other sizes are as before. */
  lemma SmallOther(mem: Mem, mem': Mem, m: set<int>, g: Sizes, h1: int, h2: int, p: int, s: int, j: nat,
      marked: bool, list: seq<int>, f: Sizes, f': Sizes)
    requires SmallBin(mem, marked, j, list, f) && j < NSMALLBINS
    requires m <= g.Keys && OnlyIn(mem, mem', m, g, h1, h2) && Spaced(g)
    requires forall a :: a in f ==> a in g && g[a] == f[a]
    requires forall a :: a in m ==> g[a] != SmallIndex2Size(j)
    requires DifferAt(f, f', p) && s != SmallIndex2Size(j)
    requires p in f ==> f[p] == s
    requires p in f' ==> f'[p] == s
    requires h1 != SmallBinAt(j) + FD && h1 != SmallBinAt(j) + BK && h2 != SmallBinAt(j) + FD
        && h2 != SmallBinAt(j) + BK
    requires h1 < HEAP_FLOOR && h2 < HEAP_FLOOR
    ensures SmallBin(mem', marked, j, list, f')
  {
    forall a | a in Members(list) ensures a in g && a !in m { assert a in f && f[a] == SmallIndex2Size(j); }
    SmallFrame(mem, mem', m, g, h1, h2, p, marked, j, list, f, f');
  }

  lemma TreeOther(mem: Mem, mem': Mem, m: set<int>, g: Sizes, h1: int, h2: int, p: int, s: int, j: nat, marked: bool,
      t: Tree, f: Sizes, f': Sizes)
    requires TreeBin(mem, marked, j, t, f) && j < NTREEBINS
    requires m <= g.Keys && OnlyIn(mem, mem', m, g, h1, h2) && Spaced(g)
    requires forall a :: a in f ==> a in g && g[a] == f[a]
    requires forall a :: a in m ==> !InTreeBin(j, g[a])
    requires DifferAt(f, f', p) && !InTreeBin(j, s)
    requires p in f ==> f[p] == s
    requires p in f' ==> f'[p] == s
    requires h1 != TreeBinAt(j) && h2 != TreeBinAt(j) && h1 < HEAP_FLOOR && h2 < HEAP_FLOOR
    ensures TreeBin(mem', marked, j, t, f')
  {
    forall a | a in Nodes(t) ensures a in g && a !in m && g[a] >= 64 {
      assert a in f && InTreeBin(j, f[a]);
      TreeBinLarge(j, f[a]);
    }
    TreeFrame(mem, mem', m, g, h1, h2, p, marked, j, t, f, f');
  }

  /** A change to small bin i, or to none of them, leaves the other small bins. */
  lemma SmallOthers(mem: Mem, mem': Mem, m: set<int>, g: Sizes, h1: int, h2: int, p: int, s: int, i: int,
                    map0: nat, map1: nat, small: seq<seq<int>>, small': seq<seq<int>>, f: Sizes, f': Sizes, on: bool)
    requires SmallBins(mem, map0, small, f) && MapChanged(map0, map1, i, on) && |small'| == NSMALLBINS
    requires forall j :: 0 <= j < NSMALLBINS && j != i ==> small'[j] == small[j]
    requires m <= g.Keys && OnlyIn(mem, mem', m, g, h1, h2) && Spaced(g)
    requires forall a :: a in f ==> a in g && g[a] == f[a]
    requires forall a :: a in m ==> g[a] == 8 * i || g[a] >= MIN_LARGE_SIZE
    requires DifferAt(f, f', p) && (s == 8 * i || s >= MIN_LARGE_SIZE)
    requires p in f ==> f[p] == s
    requires p in f' ==> f'[p] == s
    requires (h1 == SmallBinAt(0) + 16 * i + FD && h2 == SmallBinAt(0) + 16 * i + BK && 0 <= i < NSMALLBINS)
        || (TREEBINS <= h1 < HEAP_FLOOR && TREEBINS <= h2 < HEAP_FLOOR)
    ensures 0 <= i < NSMALLBINS && SmallBin(mem', on, i, small'[i], f') ==> SmallBins(mem', map1, small', f')
    ensures (i < 0 || i >= NSMALLBINS) ==> SmallBins(mem', map1, small', f')
  {
    forall j | 0 <= j < NSMALLBINS && j != i ensures SmallAt(mem', map1, small', f', j) {
      SmallBinOf(mem, map0, small, f, j);
      SmallOther(mem, mem', m, g, h1, h2, p, s, j, Bit(map0, j), small[j], f, f');
    }
  }

  lemma TreeOthers(mem: Mem, mem': Mem, m: set<int>, g: Sizes, h1: int, h2: int, p: int, s: int, i: int,
                   map0: nat, map1: nat, trees: seq<Tree>, trees': seq<Tree>, f: Sizes, f': Sizes, on: bool)
    requires TreeBins(mem, map0, trees, f) && MapChanged(map0, map1, i, on) && |trees'| == NTREEBINS
    requires forall j :: 0 <= j < NTREEBINS && j != i ==> trees'[j] == trees[j]
    requires m <= g.Keys && OnlyIn(mem, mem', m, g, h1, h2) && Spaced(g)
    requires forall a :: a in f ==> a in g && g[a] == f[a]
    requires if 0 <= i < NTREEBINS then InTreeBin(i, s) && forall a :: a in m ==> InTreeBin(i, g[a])
             else s < MIN_LARGE_SIZE && forall a :: a in m ==> g[a] < MIN_LARGE_SIZE
    requires DifferAt(f, f', p)
    requires p in f ==> f[p] == s
    requires p in f' ==> f'[p] == s
    requires (0 <= i < NTREEBINS && h1 == TreeBinAt(0) + 8 * i && h2 == h1) || (h1 < TREEBINS && h2 < TREEBINS)
    ensures 0 <= i < NTREEBINS && TreeBin(mem', on, i, trees'[i], f') ==> TreeBins(mem', map1, trees', f')
    ensures (i < 0 || i >= NTREEBINS) ==> TreeBins(mem', map1, trees', f')
  {
    forall j | 0 <= j < NTREEBINS && j != i ensures TreeAt(mem', map1, trees', f', j) {
      TreeBinOf(mem, map0, trees, f, j);
      NotInOther(m, g, i, j, s);
      TreeOther(mem, mem', m, g, h1, h2, p, s, j, Bit(map0, j), trees[j], f, f');
    }
  }

  lemma NotInOther(m: set<int>, g: Sizes, i: int, j: nat, s: int)
    requires m <= g.Keys && j != i && j < NTREEBINS
    requires if 0 <= i < NTREEBINS then InTreeBin(i, s) && forall a :: a in m ==> InTreeBin(i, g[a])
             else s < MIN_LARGE_SIZE && forall a :: a in m ==> g[a] < MIN_LARGE_SIZE
    ensures !InTreeBin(j, s)
    ensures forall a :: a in m ==> !InTreeBin(j, g[a])
  {
    OneBin(i, j, s);
    forall a | a in m ensures !InTreeBin(j, g[a]) { OneBin(i, j, g[a]); }
  }

  lemma OneBin(i: int, j: nat, s: int)
    requires j != i && (if 0 <= i < NTREEBINS then InTreeBin(i, s) else s < MIN_LARGE_SIZE)
    ensures !InTreeBin(j, s)
  {
    if InTreeBin(j, s) {
      if 0 <= i < NTREEBINS { TreeBinsOrdered(i, j, s, s); } else { TreeBinLarge(j, s); }
    }
  }

  // ----- small bins -----

  /** The neighbours of a member of a small bin, the header included. */
  function SmallRing(i: nat, list: seq<int>): seq<int> { [SmallBinAt(i)] + list }

  /** The chunk after the header: the first of the bin, or the header itself. */
  function SmallNext(i: nat, list: seq<int>): int { if list == [] then SmallBinAt(i) else list[0] }

  /** insert_small_chunk's four link writes. */
  function LinkSmall(mem: Mem, b: int, p: int, f: int): Mem {
    mem[b + FD := p][f + BK := p][p + FD := f][p + BK := b]
  }

  /** unlink_small_chunk's two link writes. */
  function BypassSmall(mem: Mem, b: int, f: int): Mem {
    mem[f + BK := b][b + FD := f]
  }

  lemma MembersSmall(list: seq<int>, f: Sizes, i: nat, marked: bool, mem: Mem, k: nat)
    requires SmallBin(mem, marked, i, list, f) && k < |list|
    ensures list[k] in f && f[list[k]] == SmallIndex2Size(i) && list[k] in Members(list)
  {
    var a := list[k];
    assert a in Members(list);
  }

  lemma SpacedPair(f: Sizes, a: int, b: int)
    requires Spaced(f) && a in f && b in f
    ensures a != b ==> a + 32 <= b || b + 32 <= a
    ensures a >= HEAP_FLOOR && b >= HEAP_FLOOR
  {
  }

  /** p joins a bin that holds other chunks: right after the header. */
  lemma LinkSmallRing(mem: Mem, i: nat, list: seq<int>, f: Sizes, p: int)
    requires SmallBin(mem, true, i, list, f) && i < NSMALLBINS
    requires p !in f && Spaced(f[p := SmallIndex2Size(i)])
    ensures Ring(LinkSmall(mem, SmallBinAt(i), p, list[0]), SmallRing(i, [p] + list))
  {
    var b, r, r' := SmallBinAt(i), SmallRing(i, list), SmallRing(i, [p] + list);
    var mem' := LinkSmall(mem, b, p, list[0]);
    var f' := f[p := SmallIndex2Size(i)];
    forall j | 0 <= j < |r| ensures r[j] != p && r[j] != p + 8 && p != r[j] + 8 {
      if j > 0 {
        MembersSmall(list, f, i, true, mem, j - 1);
        SpacedPair(f', list[j - 1], p);
        assert r[j] == list[j - 1];
      } else {
        SpacedPair(f', p, p);
      }
    }
    assert r[Succ(0, |r|)] == list[0];
    forall o | 0 <= o < |r|
      ensures Rd(mem', r[o] + FD) == (if o == 0 then p else Rd(mem, r[o] + FD))
      ensures Rd(mem', r[o] + BK) == (if o == Succ(0, |r|) then p else Rd(mem, r[o] + BK))
    {
      SpreadPair(r, o, 0);
      SpreadPair(r, o, 1);
    }
    InsertRing(mem, mem', r, r', p);
  }

  /** p is the only chunk of its bin. */
  lemma LinkSmallFirst(mem: Mem, i: nat, p: int)
    requires i < NSMALLBINS && p >= HEAP_FLOOR
    ensures Ring(LinkSmall(mem, SmallBinAt(i), p, SmallBinAt(i)), SmallRing(i, [p]))
  {
    var b := SmallBinAt(i);
    var mem' := LinkSmall(mem, b, p, b);
    var r := SmallRing(i, [p]);
    assert Rd(mem', b + FD) == p && Rd(mem', b + BK) == p && Rd(mem', p + FD) == b && Rd(mem', p + BK) == b;
    assert |r| == 2 && r[0] == b && r[1] == p;
    PairRing(mem', r);
  }

  lemma PairRing(mem: Mem, r: seq<int>)
    requires |r| == 2 && r[0] + 8 < r[1]
    requires Rd(mem, r[0] + FD) == r[1] && Rd(mem, r[0] + BK) == r[1] && Rd(mem, r[1] + FD) == r[0]
        && Rd(mem, r[1] + BK) == r[0]
    ensures Ring(mem, r)
  {
  }

  lemma SmallInsertedRing(mem: Mem, i: nat, list: seq<int>, f: Sizes, p: int, marked: bool)
    requires SmallBin(mem, marked, i, list, f) && i < NSMALLBINS
    requires p !in f && Spaced(f[p := SmallIndex2Size(i)])
    ensures Ring(LinkSmall(mem, SmallBinAt(i), p, SmallNext(i, list)), SmallRing(i, [p] + list))
  {
    if marked {
      LinkSmallRing(mem, i, list, f, p);
    } else {
      SpacedPair(f[p := SmallIndex2Size(i)], p, p);
      LinkSmallFirst(mem, i, p);
      assert [p] + list == [p];
    }
  }

  lemma SmallInsertedMembers(list: seq<int>, i: nat, f: Sizes, f': Sizes, p: int)
    requires forall a :: a in Members(list) <==> a in f && f[a] == SmallIndex2Size(i)
    requires p !in f && f' == f[p := SmallIndex2Size(i)]
    ensures forall a :: a in Members([p] + list) <==> a in f' && f'[a] == SmallIndex2Size(i)
  {
    MembersCons(p, list);
  }

  lemma SmallInserted(mem: Mem, i: nat, list: seq<int>, f: Sizes, f': Sizes, p: int, marked: bool, next: int)
    requires SmallBin(mem, marked, i, list, f) && i < NSMALLBINS
    requires p !in f && f' == f[p := SmallIndex2Size(i)] && Spaced(f')
    requires next == SmallNext(i, list)
    ensures SmallBin(LinkSmall(mem, SmallBinAt(i), p, next), true, i, [p] + list, f')
  {
    SmallInsertedRing(mem, i, list, f, p, marked);
    SmallInsertedMembers(list, i, f, f', p);
  }

  lemma MembersCons(p: int, list: seq<int>)
    ensures forall a :: a in Members([p] + list) <==> a == p || a in Members(list)
  {
    forall a ensures a in [p] + list <==> a == p || a in list { }
  }

  /** What insert_small_chunk writes lies in the chunks of this bin and in its header. */
  lemma LinkSmallOnly(mem: Mem, i: nat, list: seq<int>, f: Sizes, f': Sizes, p: int, marked: bool, next: int)
    requires SmallBin(mem, marked, i, list, f) && i < NSMALLBINS
    requires p !in f && f' == f[p := SmallIndex2Size(i)] && Spaced(f')
    requires next == SmallNext(i, list)
    ensures var m := Members(list) + {p};
            m <= f'.Keys
                && OnlyIn(mem, LinkSmall(mem, SmallBinAt(i), p, next), m, f', SmallBinAt(i) + FD, SmallBinAt(i) + BK)
  {
    var m := Members(list) + {p};
    if marked { MembersSmall(list, f, i, marked, mem, 0); }
    assert p in f' && p in m;
    forall a | a in m ensures a in f' { if a != p { assert a in Members(list); } }
    FourWords(mem, SmallBinAt(i), p, next, m, f');
  }

  lemma FourWords(mem: Mem, b: int, p: int, next: int, m: set<int>, f: Sizes)
    requires m <= f.Keys && Spaced(f) && p in m && (next == b || next in m)
    ensures OnlyIn(mem, LinkSmall(mem, b, p, next), m, f, b + FD, b + BK)
  {
  }

  function RemoveAt(list: seq<int>, k: nat): seq<int>
    requires k < |list|
  {
    list[..k] + list[k + 1..]
  }

  lemma RemoveAtMembers(list: seq<int>, k: nat)
    requires k < |list| && DistinctRing(list)
    ensures forall a :: a in Members(RemoveAt(list, k)) <==> a in Members(list) && a != list[k]
  {
    var l' := RemoveAt(list, k);
    forall a | a in list && a != list[k] ensures a in l' {
      var j :| 0 <= j < |list| && list[j] == a;
      assert l'[if j < k then j else j - 1] == a;
    }
    forall a | a in l' ensures a in list && a != list[k] {
      var j :| 0 <= j < |l'| && l'[j] == a;
      assert l'[j] == list[if j < k then j else j + 1];
    }
  }

  lemma SmallRingFacts(mem: Mem, i: nat, list: seq<int>, f: Sizes, k: nat)
    requires SmallBin(mem, true, i, list, f) && i < NSMALLBINS && Spaced(f) && k < |list|
    ensures var n, b := if k + 1 < |list| then list[k + 1] else SmallBinAt(i), if k > 0 then list[k - 1]
        else SmallBinAt(i);
            && Rd(mem, list[k] + FD) == n && Rd(mem, list[k] + BK) == b
            && Rd(mem, n + BK) == list[k] && Rd(mem, b + FD) == list[k]
            && (n == b <==> |list| == 1)
            && list[k] != n && list[k] != b
    ensures DistinctRing(list)
  {
    var r := SmallRing(i, list);
    Neighbours(mem, r, k + 1);
    assert r[k + 1] == list[k];
    assert r[Succ(k + 1, |r|)] == if k + 1 < |list| then list[k + 1] else SmallBinAt(i);
    assert r[Pred(k + 1, |r|)] == if k > 0 then list[k - 1] else SmallBinAt(i);
    forall x, y | 0 <= x < y < |list| ensures list[x] != list[y] { assert r[x + 1] == list[x] && r[y + 1] == list[y]; }
  }

  /** The k-th chunk of the bin was bypassed; when it was the last one only its bit is cleared. */
  lemma SmallRemoved(mem: Mem, mem': Mem, i: nat, list: seq<int>, f: Sizes, f': Sizes, k: nat)
    requires SmallBin(mem, true, i, list, f) && i < NSMALLBINS && Spaced(f) && k < |list|
    requires f' == f - {list[k]}
    requires var n, b := if k + 1 < |list| then list[k + 1] else SmallBinAt(i), if k > 0 then list[k - 1]
        else SmallBinAt(i);
             mem' == if |list| == 1 then mem else BypassSmall(mem, b, n)
    ensures SmallBin(mem', |list| > 1, i, RemoveAt(list, k), f')
  {
    SmallRingFacts(mem, i, list, f, k);
    RemoveAtMembers(list, k);
    MembersSmall(list, f, i, true, mem, k);
    if |list| > 1 { SmallRingRemoved(mem, mem', i, list, f, k); }
  }

  lemma SmallBypassed(mem: Mem, mem': Mem, r: seq<int>, k: nat)
    requires Ring(mem, r) && 1 < |r| && k < |r|
    requires mem' == BypassSmall(mem, r[Pred(k, |r|)], r[Succ(k, |r|)])
    ensures Bypassed(mem, mem', r, r[Pred(k, |r|)], r[Succ(k, |r|)])
  {
    var n, b := r[Succ(k, |r|)], r[Pred(k, |r|)];
    forall o | 0 <= o < |r|
      ensures Rd(mem', r[o] + FD) == (if r[o] == b then n else Rd(mem, r[o] + FD))
      ensures Rd(mem', r[o] + BK) == (if r[o] == n then b else Rd(mem, r[o] + BK))
    {
      SpreadPair(r, o, Succ(k, |r|));
      SpreadPair(r, o, Pred(k, |r|));
    }
  }

  lemma SmallTakenOut(i: nat, list: seq<int>, k: nat)
    requires k < |list|
    ensures TakenOut(SmallRing(i, list), SmallRing(i, RemoveAt(list, k)), k + 1)
  {
  }

  lemma SmallRingRemoved(mem: Mem, mem': Mem, i: nat, list: seq<int>, f: Sizes, k: nat)
    requires SmallBin(mem, true, i, list, f) && i < NSMALLBINS && Spaced(f) && k < |list| && |list| > 1
    requires var n, b := if k + 1 < |list| then list[k + 1] else SmallBinAt(i), if k > 0 then list[k - 1]
        else SmallBinAt(i);
             mem' == BypassSmall(mem, b, n)
    ensures Ring(mem', SmallRing(i, RemoveAt(list, k)))
  {
    var r, r' := SmallRing(i, list), SmallRing(i, RemoveAt(list, k));
    assert r[Succ(k + 1, |r|)] == if k + 1 < |list| then list[k + 1] else SmallBinAt(i);
    assert r[Pred(k + 1, |r|)] == if k > 0 then list[k - 1] else SmallBinAt(i);
    SmallBypassed(mem, mem', r, k + 1);
    SmallTakenOut(i, list, k);
    RemoveRing(mem, mem', r, r', k + 1);
  }

  lemma BypassSmallOnly(mem: Mem, mem': Mem, i: nat, list: seq<int>, f: Sizes, k: nat)
    requires SmallBin(mem, true, i, list, f) && i < NSMALLBINS && Spaced(f) && k < |list|
    requires var n, b := if k + 1 < |list| then list[k + 1] else SmallBinAt(i), if k > 0 then list[k - 1]
        else SmallBinAt(i);
             mem' == if |list| == 1 then mem else BypassSmall(mem, b, n)
    ensures Members(list) <= f.Keys
    ensures OnlyIn(mem, mem', Members(list), f, SmallBinAt(i) + FD, SmallBinAt(i) + BK)
  {
    forall a | a in Members(list) ensures a in f { }
    if k + 1 < |list| { MembersSmall(list, f, i, true, mem, k + 1); }
    if k > 0 { MembersSmall(list, f, i, true, mem, k - 1); }
    if |list| > 1 {
      TwoWords(mem, SmallBinAt(i), if k > 0 then list[k - 1] else SmallBinAt(i), if k + 1 < |list| then list[k + 1]
          else SmallBinAt(i), Members(list), f);
    }
  }

  lemma TwoWords(mem: Mem, h: int, b: int, n: int, m: set<int>, f: Sizes)
    requires m <= f.Keys && Spaced(f) && (b == h || b in m) && (n == h || n in m)
    ensures OnlyIn(mem, BypassSmall(mem, b, n), m, f, h + FD, h + BK)
  {
  }

  /** insert_small_chunk adds exactly p to the map the index represents. */
  lemma IndexInsertSmall(mem: Mem, mem': Mem, map0: nat, map1: nat, treemap: nat, bins: Bins, f: Sizes, f': Sizes,
      p: int, i: nat)
    requires IndexOk(mem, map0, treemap, bins, f) && i < NSMALLBINS
    requires p !in f && f' == f[p := SmallIndex2Size(i)] && Spaced(f')
    requires MapChanged(map0, map1, i, true)
    requires mem' == LinkSmall(mem, SmallBinAt(i), p, SmallNext(i, bins.small[i]))
    ensures IndexOk(mem', map1, treemap, bins.(small := bins.small[i := [p] + bins.small[i]]), f')
    ensures LinksOnly(mem, mem', f')
  {
    var list, on := bins.small[i], Bit(map0, i);
    var next := SmallNext(i, list);
    var small' := bins.small[i := [p] + list];
    var m := Members(list) + {p};
    SmallBinOf(mem, map0, bins.small, f, i);
    SmallInserted(mem, i, list, f, f', p, on, next);
    LinkSmallOnly(mem, i, list, f, f', p, on, next);
    OnlyInLinks(mem, mem', m, f', SmallBinAt(i) + FD, SmallBinAt(i) + BK);
    SameSizes(list, mem, on, i, f, f', p);
    SmallOthers(mem, mem', m, f', SmallBinAt(i) + FD, SmallBinAt(i) + BK, p, SmallIndex2Size(i), i, map0, map1,
        bins.small, small', f, f', true);
    TreeOthers(mem, mem', m, f', SmallBinAt(i) + FD, SmallBinAt(i) + BK, p, SmallIndex2Size(i), -1, treemap, treemap,
        bins.trees, bins.trees, f, f', true);
  }

  lemma SameSizes(list: seq<int>, mem: Mem, on: bool, i: nat, f: Sizes, f': Sizes, p: int)
    requires SmallBin(mem, on, i, list, f) && p !in f && f' == f[p := SmallIndex2Size(i)]
    ensures forall a :: a in Members(list) + {p} ==> a in f' && f'[a] == SmallIndex2Size(i)
  {
    forall a | a in Members(list) + {p} ensures a in f' && f'[a] == SmallIndex2Size(i) {
      if a != p { assert a in Members(list); }
    }
  }

  /** unlink_small_chunk takes exactly the k-th chunk of bin i out of the map the index represents. */
  lemma IndexRemoveSmall(mem: Mem, mem': Mem, map0: nat, map1: nat, treemap: nat, bins: Bins, f: Sizes, f': Sizes,
      i: nat, k: nat)
    requires IndexOk(mem, map0, treemap, bins, f) && i < NSMALLBINS && Spaced(f) && k < |bins.small[i]|
    requires f' == f - {bins.small[i][k]}
    requires MapChanged(map0, map1, i, |bins.small[i]| > 1)
    requires var list := bins.small[i];
             var n, b := if k + 1 < |list| then list[k + 1] else SmallBinAt(i), if k > 0 then list[k - 1]
                 else SmallBinAt(i);
             mem' == if |list| == 1 then mem else BypassSmall(mem, b, n)
    ensures IndexOk(mem', map1, treemap, bins.(small := bins.small[i := RemoveAt(bins.small[i], k)]), f')
    ensures LinksOnly(mem, mem', f)
  {
    var list := bins.small[i];
    var p, m, small' := list[k], Members(list), bins.small[i := RemoveAt(list, k)];
    var h1, h2 := SmallBinAt(i) + FD, SmallBinAt(i) + BK;
    SmallBinOf(mem, map0, bins.small, f, i);
    MembersSmall(list, f, i, true, mem, k);
    SmallRemoved(mem, mem', i, list, f, f', k);
    BypassSmallOnly(mem, mem', i, list, f, k);
    OnlyInLinks(mem, mem', m, f, h1, h2);
    SmallOthers(mem, mem', m, f, h1, h2, p, SmallIndex2Size(i), i, map0, map1, bins.small, small', f, f', |list| > 1);
    TreeOthers(mem, mem', m, f, h1, h2, p, SmallIndex2Size(i), -1, treemap, treemap, bins.trees, bins.trees, f, f',
        true);
  }

  /** Words outside the index: writing them keeps it. */
  lemma IndexFrame(mem: Mem, mem': Mem, smallmap: nat, treemap: nat, bins: Bins, f: Sizes)
    requires IndexOk(mem, smallmap, treemap, bins, f) && Spaced(f)
    requires LowSame(mem, mem') && BodiesSame(mem, mem', f)
    ensures IndexOk(mem', smallmap, treemap, bins, f)
  {
    forall i | 0 <= i < NSMALLBINS ensures SmallAt(mem', smallmap, bins.small, f, i) {
      SmallBinOf(mem, smallmap, bins.small, f, i);
      SmallKept(mem, mem', Bit(smallmap, i), i, bins.small[i], f);
    }
    forall i | 0 <= i < NTREEBINS ensures TreeAt(mem', treemap, bins.trees, f, i) {
      TreeBinOf(mem, treemap, bins.trees, f, i);
      TreeKept(mem, mem', Bit(treemap, i), i, bins.trees[i], f);
    }
  }

  lemma SmallKept(mem: Mem, mem': Mem, marked: bool, i: nat, list: seq<int>, f: Sizes)
    requires SmallBin(mem, marked, i, list, f) && i < NSMALLBINS && Spaced(f)
    requires LowSame(mem, mem') && BodiesSame(mem, mem', f)
    ensures SmallBin(mem', marked, i, list, f)
  {
    if marked {
      var r := SmallRing(i, list);
      forall j | 0 <= j < |r| ensures Rd(mem', r[j] + FD) == Rd(mem, r[j] + FD)
          && Rd(mem', r[j] + BK) == Rd(mem, r[j] + BK) {
        if j > 0 { MembersSmall(list, f, i, marked, mem, j - 1); assert r[j] == list[j - 1]; }
      }
      RingFrame(mem, mem', r);
    }
  }

  lemma TreeKept(mem: Mem, mem': Mem, marked: bool, i: nat, t: Tree, f: Sizes)
    requires TreeBin(mem, marked, i, t, f) && i < NTREEBINS && Spaced(f)
    requires LowSame(mem, mem') && BodiesSame(mem, mem', f)
    ensures TreeBin(mem', marked, i, t, f)
  {
    TreeNodesLarge(t, i, f);
    NodesKept(mem, mem', f, Nodes(t));
    LinksFrame(mem, mem', TreeBinAt(i), t, i);
  }

  lemma TreeNodesLarge(t: Tree, i: nat, f: Sizes)
    requires TreeOk(t, i, f)
    ensures forall a :: a in Nodes(t) ==> a in f && f[a] >= MIN_LARGE_SIZE
  {
    forall a | a in Nodes(t) ensures a in f && f[a] >= MIN_LARGE_SIZE { TreeBinLarge(i, f[a]); }
  }

  lemma NodesKept(mem: Mem, mem': Mem, f: Sizes, nodes: set<int>)
    requires BodiesSame(mem, mem', f) && Spaced(f)
    requires forall a :: a in nodes ==> a in f && f[a] >= MIN_LARGE_SIZE
    ensures TreeSame(mem, mem', nodes) && Apart(nodes)
  {
  }

  // ----- tree bins -----

  lemma {:induction false} Pow2Mod16(e: nat)
    requires e >= 4
    ensures Pow2(e) % 16 == 0
  {
    if e == 4 { assert Pow2(4) == 16; } else { Pow2Mod16(e - 1); }
  }

  lemma Pow2Of64()
    ensures Pow2(64) == SIZE_RANGE
  {
    Pow2Of32();
    Pow2Add(32, 32);
  }

  lemma LastBinSpan(s: int)
    requires InTreeBin(31, s) && s < SIZE_RANGE
    ensures Lo(31) <= s < Lo(31) + Pow2(Exp(31)) && Lo(31) == 0 && Exp(31) == 64
  {
    TreeBinLarge(31, s);
    Pow2Of64();
  }

  lemma EvenBinSpan(i: nat, s: int)
    requires InTreeBin(i, s) && i < 31
    ensures Lo(i) <= s < Lo(i) + Pow2(Exp(i))
  {
    MinSizeStep(i);
  }

  lemma BinAligned(i: nat)
    requires i < 31
    ensures Lo(i) % 16 == 0
  {
    hide Pow2;
    Pow2Mod16(i / 2 + 8);
    Pow2Mod16(i / 2 + 7);
  }

  /** The sizes of a bin are inside the interval its trie divides. */
  lemma BinSpan(i: nat, s: int)
    requires InTreeBin(i, s) && s < SIZE_RANGE
    ensures Lo(i) <= s < Lo(i) + Pow2(Exp(i)) && Lo(i) % 16 == 0 && Exp(i) >= 4
  {
    if i < 31 {
      EvenBinSpan(i, s);
      BinAligned(i);
    } else {
      LastBinSpan(s);
    }
  }

  lemma NilTree(i: nat, f: Sizes)
    requires forall a :: a in f ==> !InTreeBin(i, f[a])
    ensures TreeOk(Nil, i, f)
  {
  }

  lemma InsertedTreeOk(t: Tree, i: nat, f: Sizes, f': Sizes, p: int, s: int)
    requires TreeOk(t, i, f) && InTreeBin(i, s) && s < SIZE_RANGE && s % 16 == 0
    requires p !in f && f' == f[p := s]
    ensures TreeOk(InsertT(t, p, s, Lo(i), Exp(i)), i, f')
    ensures Nodes(InsertT(t, p, s, Lo(i), Exp(i))) == Nodes(t) + {p}
  {
    var lo, e := Lo(i), Exp(i);
    var hi := lo + Pow2(e);
    BinSpan(i, s);
    InsertShape(t, p, s, lo, hi, e);
    InsertHalved(t, p, s, lo, hi, e);
    HoldsFrame(t, f, f');
    InsertHolds(t, f', p, s, lo, hi, e);
  }

  /** What insert_large_chunk leaves in memory: the chunk planted at its spot, or as the root of an empty bin. */
  ghost predicate InsertedWords(mem: Mem, mem': Mem, t: Tree, p: int, s: int, i: nat) {
    if t.Nil? then Rd(mem', TreeBinAt(i)) == p && PlantedChunk(mem', p, p, p, TreeBinAt(i), i)
    else Rd(mem', TreeBinAt(i)) == Rd(mem, TreeBinAt(i)) && Planted(mem, mem', SpotOf(t, s), p, i, Nodes(t))
  }

  lemma TreeStarted(mem: Mem, mem': Mem, i: nat, f: Sizes, f': Sizes, p: int, s: int)
    requires TreeOk(Nil, i, f) && i < NTREEBINS && InTreeBin(i, s) && s < SIZE_RANGE && s % 16 == 0
    requires p !in f && f' == f[p := s]
    requires InsertedWords(mem, mem', Nil, p, s, i)
    ensures TreeBin(mem', true, i, InsertT(Nil, p, s, Lo(i), Exp(i)), f')
  {
    InsertedTreeOk(Nil, i, f, f', p, s);
    LeafLinks(mem', p, TreeBinAt(i), s, InsertT(Nil, p, s, Lo(i), Exp(i)).mid, i);
  }

  lemma TreeGrown(mem: Mem, mem': Mem, i: nat, t: Tree, f: Sizes, f': Sizes, p: int, s: int)
    requires t.Node? && TreeBin(mem, true, i, t, f) && i < NTREEBINS && InTreeBin(i, s)
    requires p !in f && f' == f[p := s] && Spaced(f')
    requires InsertedWords(mem, mem', t, p, s, i)
    ensures Links(mem', TreeBinAt(i), InsertT(t, p, s, Lo(i), Exp(i)), i)
    ensures Root(InsertT(t, p, s, Lo(i), Exp(i))) == Root(t)
  {
    TreeApart(t, i, f, f', p, s);
    ShapeDisjoint(t, f, Lo(i), Lo(i) + Pow2(Exp(i)));
    InsertLinks(mem, mem', TreeBinAt(i), t, p, s, i, Lo(i), Exp(i));
  }

  lemma TreeInserted(mem: Mem, mem': Mem, i: nat, t: Tree, f: Sizes, f': Sizes, p: int, s: int, marked: bool)
    requires TreeBin(mem, marked, i, t, f) && i < NTREEBINS && InTreeBin(i, s) && s < SIZE_RANGE && s % 16 == 0
    requires p !in f && f' == f[p := s] && Spaced(f')
    requires InsertedWords(mem, mem', t, p, s, i)
    ensures TreeBin(mem', true, i, InsertT(t, p, s, Lo(i), Exp(i)), f')
  {
    if t.Nil? {
      TreeStarted(mem, mem', i, f, f', p, s);
    } else {
      InsertedTreeOk(t, i, f, f', p, s);
      TreeGrown(mem, mem', i, t, f, f', p, s);
    }
  }

  lemma TreeApart(t: Tree, i: nat, f: Sizes, f': Sizes, p: int, s: int)
    requires TreeOk(t, i, f) && InTreeBin(i, s) && p !in f && f' == f[p := s] && Spaced(f')
    ensures Apart(Nodes(t) + {p}) && p !in Nodes(t)
  {
    TreeNodesLarge(t, i, f);
    TreeBinLarge(i, s);
    forall a, b | a in Nodes(t) + {p} && b in Nodes(t) + {p} && a < b ensures a + 64 <= b {
      assert a in f' && b in f';
    }
  }

  lemma InsertTreeOthers(mem: Mem, mem': Mem, smallmap: nat, map0: nat, map1: nat, bins: Bins, trees': seq<Tree>,
      f: Sizes, f': Sizes, p: int, s: int, i: nat, m: set<int>)
    requires IndexOk(mem, smallmap, map0, bins, f) && i < NTREEBINS && InTreeBin(i, s)
    requires p !in f && f' == f[p := s] && Spaced(f')
    requires MapChanged(map0, map1, i, true) && |trees'| == NTREEBINS && TreeBin(mem', true, i, trees'[i], f')
    requires forall j :: 0 <= j < NTREEBINS && j != i ==> trees'[j] == bins.trees[j]
    requires m <= f'.Keys && OnlyIn(mem, mem', m, f', TreeBinAt(i), TreeBinAt(i))
    requires forall a :: a in m ==> InTreeBin(i, f'[a]) && f'[a] >= MIN_LARGE_SIZE
    ensures SmallBins(mem', smallmap, bins.small, f') && TreeBins(mem', map1, trees', f')
  {
    var h := TreeBinAt(i);
    TreeBinLarge(i, s);
    SmallOthers(mem, mem', m, f', h, h, p, s, -1, smallmap, smallmap, bins.small, bins.small, f, f', true);
    TreeOthers(mem, mem', m, f', h, h, p, s, i, map0, map1, bins.trees, trees', f, f', true);
  }

  /** insert_large_chunk adds exactly p to the map the index represents. */
  lemma IndexInsertTree(mem: Mem, mem': Mem, smallmap: nat, map0: nat, map1: nat, bins: Bins, f: Sizes, f': Sizes,
      p: int, s: int, i: nat)
    requires IndexOk(mem, smallmap, map0, bins, f) && i < NTREEBINS && InTreeBin(i, s) && s % 16 == 0
    requires p !in f && f' == f[p := s] && Spaced(f')
    requires MapChanged(map0, map1, i, true)
    requires var t := bins.trees[i];
             Nodes(t) + {p} <= f'.Keys && OnlyIn(mem, mem', Nodes(t) + {p}, f', TreeBinAt(i), TreeBinAt(i))
                 && InsertedWords(mem, mem', t, p, s, i)
    ensures IndexOk(mem', smallmap, map1,
        bins.(trees := bins.trees[i := InsertT(bins.trees[i], p, s, Lo(i), Exp(i))]), f')
    ensures LinksOnly(mem, mem', f')
  {
    var t := bins.trees[i];
    assert p in f' && f'[p] == s;
    TreeBinOf(mem, map0, bins.trees, f, i);
    TreeInserted(mem, mem', i, t, f, f', p, s, Bit(map0, i));
    OnlyInLinks(mem, mem', Nodes(t) + {p}, f', TreeBinAt(i), TreeBinAt(i));
    InsertedSizes(t, i, f, f', p, s);
    InsertTreeOthers(mem, mem', smallmap, map0, map1, bins, bins.trees[i := InsertT(t, p, s, Lo(i), Exp(i))], f, f',
        p, s, i, Nodes(t) + {p});
  }

  lemma InsertedSizes(t: Tree, i: nat, f: Sizes, f': Sizes, p: int, s: int)
    requires TreeOk(t, i, f) && InTreeBin(i, s) && p !in f && f' == f[p := s]
    ensures forall a :: a in Nodes(t) + {p} ==> a in f' && InTreeBin(i, f'[a]) && f'[a] >= MIN_LARGE_SIZE
  {
    TreeNodesLarge(t, i, f);
    TreeBinLarge(i, s);
  }

  lemma RemovedTreeOk(t: Tree, i: nat, f: Sizes, f': Sizes, x: int)
    requires TreeOk(t, i, f) && x in Nodes(t) && f' == f - {x} && DistinctRings(t)
    ensures TreeOk(RemoveT(t, x), i, f')
    ensures Nodes(RemoveT(t, x)) == Nodes(t) - {x}
  {
    hide Shape, Halved, Holds, Tries.Aligned, RemoveT, Nodes, DistinctRings, InTreeBin, Pow2;
    var lo, e := Lo(i), Exp(i);
    var hi := lo + Pow2(e);
    RemoveShape(t, x, lo, hi);
    RemoveHalved(t, x, lo, e);
    RemoveHolds(t, f, x, lo, hi);
    HoldsFrame(RemoveT(t, x), f, f');
  }

  /** unlink_large_chunk takes exactly x out of the map the index represents. */
  lemma IndexRemoveTree(mem: Mem, mem': Mem, smallmap: nat, map0: nat, map1: nat, bins: Bins, f: Sizes, f': Sizes,
      x: int, i: nat)
    requires IndexOk(mem, smallmap, map0, bins, f) && i < NTREEBINS && Spaced(f)
    requires x in Nodes(bins.trees[i]) && f' == f - {x}
    requires var t := bins.trees[i]; var t' := RemoveT(t, x);
             && MapChanged(map0, map1, i, t'.Node?)
             && Nodes(t) <= f.Keys && OnlyIn(mem, mem', Nodes(t), f, TreeBinAt(i), TreeBinAt(i))
             && Links(mem', TreeBinAt(i), t', i) && Rd(mem', TreeBinAt(i)) == Root(t')
    ensures IndexOk(mem', smallmap, map1, bins.(trees := bins.trees[i := RemoveT(bins.trees[i], x)]), f')
    ensures LinksOnly(mem, mem', f)
  {
    var t, h := bins.trees[i], TreeBinAt(i);
    var t' := RemoveT(t, x);
    var trees' := bins.trees[i := t'];
    TreeBinOf(mem, map0, bins.trees, f, i);
    LinksDistinct(mem, h, t, i);
    RemovedTreeOk(t, i, f, f', x);
    OnlyInLinks(mem, mem', Nodes(t), f, h, h);
    TreeNodesLarge(t, i, f);
    assert x in f && InTreeBin(i, f[x]);
    assert TreeBin(mem', t'.Node?, i, t', f');
    SmallOthers(mem, mem', Nodes(t), f, h, h, x, f[x], -1, smallmap, smallmap, bins.small, bins.small, f, f', true);
    TreeOthers(mem, mem', Nodes(t), f, h, h, x, f[x], i, map0, map1, bins.trees, trees', f, f', t'.Node?);
  }
}
