/** Linking and unlinking free chunks: insert_small_chunk, unlink_small_chunk,
    unlink_first_small_chunk, insert_large_chunk, unlink_large_chunk (src/mm/malloc.c:3577-3793). */
module HeapBins {
  import opened Bits
  import opened BinIndex
  import opened Memory
  import opened Rings
  import opened Tries
  import opened Tiling
  import opened Index
  import opened HeapState

  /** Everything the bin operations need: a correct index over chunks from least_addr up. */
  ghost predicate BinsOk(mem: Mem, smallmap: nat, treemap: nat, bins: Bins, f: Sizes, least: int) {
    && IndexOk(mem, smallmap, treemap, bins, f)
    && Spaced(f)
    && (forall a :: a in f ==> a >= least)
  }

  lemma MarkedMap(map0: nat, i: nat)
    requires i < 32 && map0 < WORD_RANGE
    ensures MapChanged(map0, Mark(map0, i), i, true)
    ensures Bit(map0, i) ==> MapChanged(map0, map0, i, true)
  {
    Pow2Of32();
    Pow2Bound(i, 32);
    OrBound(map0, Idx2Bit(i), 32);
    forall j | 0 <= j < 32 ensures Bit(Mark(map0, i), j) <==>
        if j == i then true else Bit(map0, j) { MarkBits(map0, i, j); }
  }

  lemma ClearedMap(map0: nat, i: nat)
    requires i < 32 && map0 < WORD_RANGE
    ensures MapChanged(map0, Clear(map0, i), i, false)
  {
    forall j | 0 <= j < 32 ensures Bit(Clear(map0, i), j) <==>
        if j == i then false else Bit(map0, j) { ClearBits(map0, i, j); }
  }

  /** The writes of insert_small_chunk. */
  method LinkSmallChunk(m: Heap, p: int, i: nat, ghost list: seq<int>)
    requires i < NSMALLBINS && m.smallmap < WORD_RANGE && SmallBin(m.mem, Bit(m.smallmap, i), i, list, m.binned)
        && Spaced(m.binned)
    requires forall a :: a in m.binned ==> a >= m.leastAddr
    modifies m`mem, m`smallmap
    ensures MapChanged(old(m.smallmap), m.smallmap, i, true)
    ensures m.mem == LinkSmall(old(m.mem), SmallBinAt(i), p, SmallNext(i, list))
  {
    var b := SmallBinAt(i);
    var f := b;
    MarkedMap(m.smallmap, i);
    IsMarkedBit(m.smallmap, i);
    if !IsMarked(m.smallmap, i) {
      m.smallmap := Mark(m.smallmap, i);
    } else {
      f := Rd(m.mem, b + FD);
      SmallBinFirst(m.mem, i, list, m.binned);
      assert f >= m.leastAddr;  // RTCHECK(ok_address(M, B->fd))
    }
    m.mem := m.mem[b + FD := p];
    m.mem := m.mem[f + BK := p];
    m.mem := m.mem[p + FD := f];
    m.mem := m.mem[p + BK := b];
  }

  /** Link a free chunk into a small bin: it becomes the first of its bin. */
  method InsertSmallChunk(m: Heap, p: int, s: int)
    requires BinsOk(m.mem, m.smallmap, m.treemap, m.bins, m.binned, m.leastAddr) && s >= 32 && IsSmall(s) && s % 16 == 0
    requires p !in m.binned && Spaced(m.binned[p := s]) && p >= m.leastAddr
    modifies m`mem, m`smallmap, m`bins, m`binned
    ensures IndexOk(m.mem, m.smallmap, m.treemap, m.bins, m.binned) && m.binned == old(m.binned)[p := s]
    ensures LinksOnly(old(m.mem), m.mem, m.binned)
    ensures m.bins == old(m.bins).(small := old(m.bins.small)[SmallIndex(s) := [p] + old(m.bins.small)[SmallIndex(s)]])
  {
    var i := SmallIndex(s);
    assert s >= MIN_CHUNK_SIZE;
    ghost var mem0, map0, binned' := m.mem, m.smallmap, m.binned[p := s];
    SmallBinOf(m.mem, m.smallmap, m.bins.small, m.binned, i);
    LinkSmallChunk(m, p, i, m.bins.small[i]);
    IndexInsertSmall(mem0, m.mem, map0, m.smallmap, m.treemap, m.bins, m.binned, binned', p, i);
    m.bins := m.bins.(small := m.bins.small[i := [p] + m.bins.small[i]]);
    m.binned := binned';
  }

  lemma SmallBinFirst(mem: Mem, i: nat, list: seq<int>, f: Sizes)
    requires SmallBin(mem, true, i, list, f) && i < NSMALLBINS && Spaced(f)
    ensures list != [] && Rd(mem, SmallBinAt(i) + FD) == list[0] && list[0] in f
  {
    MembersSmall(list, f, i, true, mem, 0);
    var r := SmallRing(i, list);
    Neighbours(mem, r, 0);
    assert r[Succ(0, |r|)] == list[0];
  }

  /** The position of a small chunk in its bin. */
  lemma InItsSmallBin(mem: Mem, map0: nat, small: seq<seq<int>>, f: Sizes, p: int) returns (k: nat)
    requires SmallBins(mem, map0, small, f) && p in f && f[p] % 16 == 0 && 32 <= f[p] < 256
    ensures var i := SmallIndex(f[p]);
            && i < NSMALLBINS && k < |small[i]| && small[i][k] == p
            && SmallBin(mem, Bit(map0, i), i, small[i], f) && Bit(map0, i) && f[p] == SmallIndex2Size(i)
  {
    var i := SmallIndex(f[p]);
    SmallBinOf(mem, map0, small, f, i);
    assert SmallBin(mem, Bit(map0, i), i, small[i], f);
    assert p in Tries.Members(small[i]);
    k := IndexOf(small[i], p);
  }

  /** The neighbours of p in its small bin are the header or other binned chunks. */
  lemma SmallNeighbours(mem: Mem, map0: nat, small: seq<seq<int>>, f: Sizes, p: int) returns (k: nat)
    requires SmallBins(mem, map0, small, f) && Spaced(f) && p in f && f[p] % 16 == 0 && 32 <= f[p] < 256
    ensures var i := SmallIndex(f[p]);
            && i < NSMALLBINS && k < |small[i]| && small[i][k] == p && Bit(map0, i) && f[p] == SmallIndex2Size(i)
            && var list := small[i];
               var n, b := if k + 1 < |list| then list[k + 1] else SmallBinAt(i), if k > 0 then list[k - 1]
                   else SmallBinAt(i);
               && Rd(mem, p + FD) == n && Rd(mem, p + BK) == b && (n == b <==> |list| == 1)
               && p != n && p != b
               && (n == SmallBinAt(i) || (n in f && Rd(mem, n + BK) == p))
               && (b == SmallBinAt(i) || (b in f && Rd(mem, b + FD) == p))
  {
    k := InItsSmallBin(mem, map0, small, f, p);
    var i := SmallIndex(f[p]);
    var list := small[i];
    SmallRingFacts(mem, i, list, f, k);
    if k + 1 < |list| { MembersSmall(list, f, i, true, mem, k + 1); }
    if k > 0 { MembersSmall(list, f, i, true, mem, k - 1); }
  }

  /** Unlink a chunk from its small bin; its bit goes when it was the last one. */
  method UnlinkSmallChunk(m: Heap, p: int, s: int) returns (ghost k: nat)
    requires BinsOk(m.mem, m.smallmap, m.treemap, m.bins, m.binned, m.leastAddr) && AlignedSizes(m.binned)
        && p in m.binned && m.binned[p] == s && s >= 32 && IsSmall(s)
    requires SizeOf(Rd(m.mem, p + HEAD)) == s
    modifies m`mem, m`smallmap, m`bins, m`binned
    ensures IndexOk(m.mem, m.smallmap, m.treemap, m.bins, m.binned) && m.binned == old(m.binned) - {p}
    ensures LinksOnly(old(m.mem), m.mem, old(m.binned))
    ensures SmallIndex(s) < |old(m.bins.small)| && k < |old(m.bins.small)[SmallIndex(s)]|
        && old(m.bins.small)[SmallIndex(s)][k] == p
    ensures m.bins == old(m.bins).(small := old(m.bins.small)[SmallIndex(s) :=
        RemoveAt(old(m.bins.small)[SmallIndex(s)], k)])
  {
    hide SmallAt, SmallBin, TreeBins, Spaced, LinksOnly, MapChanged, Clear, Bit;
    var f := Rd(m.mem, p + FD);
    var b := Rd(m.mem, p + BK);
    var i := SmallIndex(s);
    k := SmallNeighbours(m.mem, m.smallmap, m.bins.small, m.binned, p);
    assert p != b && p != f && SizeOf(Rd(m.mem, p + HEAD)) == SmallIndex2Size(i);
    ghost var mem0, map0 := m.mem, m.smallmap;
    ClearedMap(m.smallmap, i);
    MarkedMap(m.smallmap, i);
    assert f == SmallBinAt(i) || (f >= m.leastAddr && Rd(m.mem, f + BK) == p);  // RTCHECK
    if b == f {
      m.smallmap := Clear(m.smallmap, i);
    } else {
      assert b == SmallBinAt(i) || (b >= m.leastAddr && Rd(m.mem, b + FD) == p);  // RTCHECK
      m.mem := m.mem[f + BK := b];
      m.mem := m.mem[b + FD := f];
    }
    IndexRemoveSmall(mem0, m.mem, map0, m.smallmap, m.treemap, m.bins, m.binned, m.binned - {p}, i, k);
    m.bins := m.bins.(small := m.bins.small[i := RemoveAt(m.bins.small[i], k)]);
    m.binned := m.binned - {p};
  }

  /** Unlink the first chunk p of small bin i: the newest one. */
  method UnlinkFirstSmallChunk(m: Heap, b: int, p: int, i: nat)
    requires BinsOk(m.mem, m.smallmap, m.treemap, m.bins, m.binned, m.leastAddr) && i < NSMALLBINS
        && Bit(m.smallmap, i) && b == SmallBinAt(i) && p == Rd(m.mem, b + FD)
    requires SizeOf(Rd(m.mem, p + HEAD)) == SmallIndex2Size(i)
    modifies m`mem, m`smallmap, m`bins, m`binned
    ensures IndexOk(m.mem, m.smallmap, m.treemap, m.bins, m.binned) && p in old(m.binned)
        && old(m.binned)[p] == SmallIndex2Size(i) && m.binned == old(m.binned) - {p}
    ensures LinksOnly(old(m.mem), m.mem, old(m.binned))
    ensures old(m.bins.small)[i] != [] && p == old(m.bins.small)[i][0]
    ensures m.bins == old(m.bins).(small := old(m.bins.small)[i := old(m.bins.small)[i][1..]])
  {
    var f := Rd(m.mem, p + FD);
    ghost var list := m.bins.small[i];
    SmallBinOf(m.mem, m.smallmap, m.bins.small, m.binned, i);
    SmallBinFirst(m.mem, i, list, m.binned);
    MembersSmall(list, m.binned, i, true, m.mem, 0);
    SmallRingFacts(m.mem, i, list, m.binned, 0);
    if 1 < |list| { MembersSmall(list, m.binned, i, true, m.mem, 1); }
    assert p != b && p != f && SizeOf(Rd(m.mem, p + HEAD)) == SmallIndex2Size(i);
    assert m.binned[p] == SmallIndex2Size(i);
    ghost var mem0, map0 := m.mem, m.smallmap;
    ClearedMap(m.smallmap, i);
    MarkedMap(m.smallmap, i);
    if b == f {
      m.smallmap := Clear(m.smallmap, i);
    } else {
      assert f >= m.leastAddr && Rd(m.mem, f + BK) == p;  // RTCHECK
      m.mem := m.mem[f + BK := b];
      m.mem := m.mem[b + FD := f];
    }
    IndexRemoveSmall(mem0, m.mem, map0, m.smallmap, m.treemap, m.bins, m.binned, m.binned - {p}, i, 0);
    assert RemoveAt(list, 0) == list[1..];
    m.bins := m.bins.(small := m.bins.small[i := list[1..]]);
    m.binned := m.binned - {p};
  }
}
