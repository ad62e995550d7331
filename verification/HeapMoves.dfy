/** The steps of allocation, release and in-place resizing as changes of the tiling, each with the
    tag writes that make memory show it. */
module HeapMoves {
  import opened Memory
  import opened Tiling
  import opened Macros
  import opened HeapLemmas
  import opened HeapTags
  import opened HeapState
  import opened HeapSteps

  /** The tiling after only the use of p changed. */
  function SetCin(c: Chunks, p: int, cin: bool): (c': Chunks)
    requires p in c && c[p].size > 0
    ensures CinSet(c, c', p, cin)
  {
    var n := p + c[p].size;
    var d := c[p := c[p].(cin := cin)];
    if n in c then d[n := c[n].(pin := cin)] else d
  }

  /** After p took over [p, p + n) only, n' = p + n being in use or free. */
  function Split(c: Chunks, p: int, n: int): (c': Chunks)
    requires p in c && 0 < n < c[p].size
    ensures SplitAt(c, c', p, n)
  {
    c[p := c[p].(size := n)][p + n := Chunk(c[p].size - n, c[p].cin, c[p].cin)]
  }

  function Merge(c: Chunks, p: int): (c': Chunks)
    requires p in c && c[p].size > 0 && p + c[p].size in c
    ensures MergedAt(c, c', p)
  {
    var n := p + c[p].size;
    (c - {n})[p := c[p].(size := c[p].size + c[n].size)]
  }

  lemma CinAligned(c: Chunks, c': Chunks, p: int, cin: bool)
    requires Aligned(c) && CinSet(c, c', p, cin)
    ensures Aligned(c')
  {
  }

  lemma SplitAligned(c: Chunks, c': Chunks, p: int, n: int)
    requires Aligned(c) && SplitAt(c, c', p, n) && n % 16 == 0
    ensures Aligned(c')
  {
  }

  lemma MergeAligned(c: Chunks, c': Chunks, p: int)
    requires Aligned(c) && MergedAt(c, c', p)
    ensures Aligned(c')
  {
  }

  // ----- a free chunk is used as it is, a chunk in use becomes free -----

  lemma CinSame(c: Chunks, c': Chunks, base: int, top: int, p: int, cin: bool, hole: int, hole': int)
    requires Tiled(c, base, top) && CinSet(c, c', p, cin) && c[p].cin != cin
    requires (hole == 0 || hole == p) && (hole' == 0 || hole' == p) && base > 0
    ensures HeadsSame(c, c', hole, hole', p, p + c[p].size)
    ensures FeetSame(c, c', if cin then p + HEAD else p + c[p].size)
    ensures FreeSame(c, c', if cin then p else 0, if cin then 0 else p)
  {
    forall a | a in c ensures a > 0 && (a != p ==> a + c[a].size != p + c[p].size) { NextStart(c, base, top, a, p); }
  }

  lemma UseWords(mem: Mem, p: int, s: int)
    requires s > 0
    ensures var mem' := SetInuseAndPinuse(mem, p, s);
            && OnlyWords(mem, mem', p + HEAD, p + s + HEAD, p + HEAD, p + HEAD)
            && Rd(mem', p + HEAD) == s + 3 && Rd(mem', p + s + HEAD) == OrPin(Rd(mem, p + s + HEAD))
  {
  }

  lemma NotFootHere(c: Chunks, base: int, top: int, u: int)
    requires Tiled(c, base, top) && u in c
    ensures forall a :: a in c ==> a + c[a].size != u + HEAD
  {
    forall a | a in c ensures a + c[a].size != u + HEAD {
      EndIsStart(c, base, top, a);
      StartNotHead(c, base, top, u, a + c[a].size);
    }
  }

  lemma UseWhole(mem: Mem, mem': Mem, c: Chunks, c': Chunks, base: int, top: int, p: int, s: int)
    requires Tags(mem, c, base, top, 0) && p in c && !c[p].cin && c[p].size == s && CinSet(c, c', p, true)
    requires mem' == SetInuseAndPinuse(mem, p, s)
    ensures Tags(mem', c', base, top, 0) && TagWrites(mem, mem', c', top, p, p + s, p + HEAD)
    ensures FreeSame(c, c', p, 0) && p in c' && p + s in c' && c'[p].pin
  {
    ChunkAt(c, base, top, p);
    SetCinTiled(c, c', base, top, p, true);
    CinAligned(c, c', p, true);
    CinSame(c, c', base, top, p, true, 0, 0);
    ReadTags(mem, c, base, top, 0, p + s);
    UseWords(mem, p, s);
    NotFootHere(c', base, top, p);
    TagsAfter(mem, mem', c, c', base, top, 0, 0, p, p + s, p + HEAD);
  }

  lemma FreeWords(mem: Mem, p: int, s: int)
    requires s > 8
    ensures var mem' := SetFreeWithPinuse(mem, p, s, p + s);
            && OnlyWords(mem, mem', p + HEAD, p + s + HEAD, p + s, p + s)
            && Rd(mem', p + HEAD) == s + 1 && Rd(mem', p + s + HEAD) == ClearPin(Rd(mem, p + s + HEAD))
                && Rd(mem', p + s) == s
  {
  }

  lemma OneFoot(c: Chunks, base: int, top: int, x: int)
    requires Tiled(c, base, top) && x in c
    ensures forall a :: a in c && a + c[a].size == x + c[x].size ==> a == x
  {
    forall a | a in c && a + c[a].size == x + c[x].size ensures a == x { NextStart(c, base, top, a, x); }
  }

  /** The hole h, between chunks in use, becomes a free chunk. */
  lemma SetFree(mem: Mem, mem': Mem, c: Chunks, c': Chunks, base: int, top: int, h: int, s: int)
    requires Tags(mem, c, base, top, h) && FreeAllowed(c, h) && c[h].cin && c[h].size == s && CinSet(c, c', h, false)
    requires mem' == SetFreeWithPinuse(mem, h, s, h + s)
    ensures Tags(mem', c', base, top, 0) && TagWrites(mem, mem', c', top, h, h + s, h + s)
    ensures FreeSame(c, c', 0, h) && h + s in c'
  {
    ChunkAt(c, base, top, h);
    SetCinTiled(c, c', base, top, h, false);
    CinAligned(c, c', h, false);
    CinSame(c, c', base, top, h, false, h, 0);
    ReadTags(mem, c, base, top, h, h + s);
    FreeWords(mem, h, s);
    OneFoot(c', base, top, h);
    TagsAfter(mem, mem', c, c', base, top, h, 0, h, h + s, h + s);
  }

  // ----- a free chunk is divided: its front is used, the rest stays free -----

  function CarveFree(c: Chunks, p: int, n: int): Chunks
    requires p in c
  {
    c[p := Chunk(n, true, true)][p + n := Chunk(c[p].size - n, false, true)]
  }

  lemma CarveTiled(c: Chunks, base: int, top: int, p: int, n: int)
    requires Tiled(c, base, top) && Aligned(c) && p in c && !c[p].cin && 32 <= n && c[p].size - n >= 32 && n % 16 == 0
    ensures Tiled(CarveFree(c, p, n), base, top) && Aligned(CarveFree(c, p, n))
  {
    ChunkAt(c, base, top, p);
    var end := p + c[p].size;
    ChunkAt(c, base, top, end);
    SplitFresh(c, base, top, p, n);
    var c1 := SetCin(c, p, true);
    SetCinTiled(c, c1, base, top, p, true);
    CinAligned(c, c1, p, true);
    var c2 := Split(c1, p, n);
    SplitTiled(c1, c2, base, top, p, n);
    SplitAligned(c1, c2, p, n);
    var c3 := SetCin(c2, p + n, false);
    SetCinTiled(c2, c3, base, top, p + n, false);
    CinAligned(c2, c3, p + n, false);
    assert c3 == CarveFree(c, p, n);
  }

  /** The words after both parts got their tags. */
  ghost predicate CarvedWords(mem: Mem, mem': Mem, p: int, n: int, rest: int) {
    && OnlyWords(mem, mem', p + HEAD, p + n + HEAD, p + n + rest, p + n + rest)
    && Rd(mem', p + HEAD) == n + 3 && Rd(mem', p + n + HEAD) == rest + 1 && Rd(mem', p + n + rest) == rest
  }

  lemma CarveWords(mem: Mem, p: int, n: int, rest: int)
    requires n > 8 && rest > 8
    ensures CarvedWords(mem, SetSizeAndPinuseOfFreeChunk(SetSizeAndPinuseOfInuseChunk(mem, p, n), p + n, rest), p, n,
        rest)
    ensures CarvedWords(mem, SetSizeAndPinuseOfInuseChunk(SetSizeAndPinuseOfFreeChunk(mem, p + n, rest), p, n), p, n,
        rest)
  {
  }

  lemma Carve(mem: Mem, mem': Mem, c: Chunks, c': Chunks, base: int, top: int, p: int, n: int, rest: int)
    requires Tags(mem, c, base, top, 0) && p in c && !c[p].cin && 32 <= n && rest >= 32 && n % 16 == 0
        && c[p].size == n + rest
    requires c' == CarveFree(c, p, n) && CarvedWords(mem, mem', p, n, rest)
    ensures Tags(mem', c', base, top, 0) && TagWrites(mem, mem', c', top, p, p + n, p + n + rest)
    ensures FreeSame(c, c', p, p + n)
  {
    CarveTiled(c, base, top, p, n);
    SplitFresh(c, base, top, p, n);
    NonZero(c, base, top);
    OneFoot(c', base, top, p + n);
    ChunkAt(c', base, top, p + n);
    TagsAfter(mem, mem', c, c', base, top, 0, 0, p, p + n, p + n + rest);
  }

  lemma NonZero(c: Chunks, base: int, top: int)
    requires Tiled(c, base, top) && base > 0
    ensures forall a :: a in c ==> a != 0
  {
    forall a | a in c ensures a != 0 { ChunkAt(c, base, top, a); }
  }

  // ----- a hole and the free chunk after it become one free chunk -----

  function MergeFreed(c: Chunks, h: int): Chunks
    requires h in c && h + c[h].size in c
  {
    var n := h + c[h].size;
    (c - {n})[h := Chunk(c[h].size + c[n].size, false, true)]
  }

  lemma MergeFreedTiled(c: Chunks, base: int, top: int, h: int)
    requires Tiled(c, base, top) && Aligned(c) && h in c && c[h].cin && c[h].pin && h + c[h].size in c
        && !c[h + c[h].size].cin
    ensures Tiled(MergeFreed(c, h), base, top) && Aligned(MergeFreed(c, h))
  {
    var n := h + c[h].size;
    ChunkAt(c, base, top, h);
    ChunkAt(c, base, top, n);
    var end := n + c[n].size;
    ChunkAt(c, base, top, end);
    var c1 := SetCin(c, n, true);
    SetCinTiled(c, c1, base, top, n, true);
    CinAligned(c, c1, n, true);
    var c2 := Merge(c1, h);
    MergeTiled(c1, c2, base, top, h);
    MergeAligned(c1, c2, h);
    var c3 := SetCin(c2, h, false);
    SetCinTiled(c2, c3, base, top, h, false);
    CinAligned(c2, c3, h, false);
    assert c3 == MergeFreed(c, h);
  }

  lemma FreeChunkWords(mem: Mem, p: int, s: int)
    requires s > 8
    ensures var mem' := SetSizeAndPinuseOfFreeChunk(mem, p, s);
            OnlyWords(mem, mem', p + HEAD, p + HEAD, p + s, p + s) && Rd(mem', p + HEAD) == s + 1
                && Rd(mem', p + s) == s
  {
  }

  lemma MergeNext(mem: Mem, mem': Mem, c: Chunks, c': Chunks, base: int, top: int, h: int, n: int, s: int)
    requires Tags(mem, c, base, top, h) && h in c && c[h].cin && c[h].pin && n == h + c[h].size && n in c && !c[n].cin
    requires s == c[h].size + c[n].size && c' == MergeFreed(c, h) && mem' == SetSizeAndPinuseOfFreeChunk(mem, h, s)
    ensures Tags(mem', c', base, top, 0) && TagWrites(mem, mem', c', top, h, h, h + s)
    ensures FreeSame(c, c', n, h) && h in c' && c'[h].size == s
  {
    hide Tiled, Heads, Feet;
    ChunkAt(c, base, top, h);
    ChunkAt(c, base, top, n);
    MergeFreedTiled(c, base, top, h);
    NonZero(c, base, top);
    FreeChunkWords(mem, h, s);
    OneFoot(c', base, top, h);
    ChunkAt(c', base, top, h);
    TagsAfter(mem, mem', c, c', base, top, h, 0, h, h, h + s);
  }

  // ----- the ghost step of consolidating backward: no word is written -----

  /** The free chunk q and the hole p after it count as one hole. */
  function MergeBack(c: Chunks, q: int): Chunks
    requires q in c && q + c[q].size in c
  {
    var p := q + c[q].size;
    (c - {p})[q := Chunk(c[q].size + c[p].size, true, true)]
  }

  lemma MergeBackTiled(c: Chunks, base: int, top: int, q: int)
    requires Tiled(c, base, top) && Aligned(c) && q in c && !c[q].cin && q + c[q].size in c
    ensures Tiled(MergeBack(c, q), base, top) && Aligned(MergeBack(c, q))
  {
    var p := q + c[q].size;
    ChunkAt(c, base, top, q);
    ChunkAt(c, base, top, p);
    var c1 := SetCin(c, q, true);
    SetCinTiled(c, c1, base, top, q, true);
    CinAligned(c, c1, q, true);
    var c2 := Merge(c1, q);
    MergeTiled(c1, c2, base, top, q);
    MergeAligned(c1, c2, q);
    assert c2 == MergeBack(c, q);
  }

  lemma MergePrev(mem: Mem, c: Chunks, c': Chunks, base: int, top: int, q: int, p: int)
    requires Tags(mem, c, base, top, p) && q in c && !c[q].cin && p == q + c[q].size && p in c && c' == MergeBack(c, q)
    ensures Tags(mem, c', base, top, q)
    ensures FreeSame(c, c', q, 0) && q in c' && c'[q].size == c[q].size + c[p].size && c'[q].cin && c'[q].pin
        && p !in c'
  {
    MergeBackTiled(c, base, top, q);
    ChunkAt(c, base, top, q);
    NonZero(c, base, top);
  }

  // ----- a chunk in use is divided -----

  lemma SplitSame(c: Chunks, c': Chunks, base: int, top: int, p: int, n: int, hole: int, hole': int)
    requires Tiled(c, base, top) && SplitAt(c, c', p, n) && c[p].cin && base > 0
    requires (hole == 0 || hole == p) && (hole' == 0 || hole' == p || hole' == p + n)
    ensures HeadsSame(c, c', hole, hole', p, p + n) && FeetSame(c, c', p + HEAD) && FreeSame(c, c', 0, 0)
  {
    NonZero(c, base, top);
    SplitFresh(c, base, top, p, n);
  }

  /** Both parts of p get their tags; one of them is on its way back to the free chunks. */
  lemma SplitUsed(mem: Mem, mem': Mem, c: Chunks, c': Chunks, base: int, top: int, p: int, n: int, hole: int,
      hole': int)
    requires Tags(mem, c, base, top, hole) && p in c && c[p].cin && SplitAt(c, c', p, n) && 32 <= n
        && c[p].size - n >= 32 && n % 16 == 0
    requires (hole == 0 || hole == p) && (hole' == 0 || hole' == p || hole' == p + n)
    requires OnlyWords(mem, mem', p + HEAD, p + n + HEAD, p + HEAD, p + HEAD)
    requires hole' != p ==> Rd(mem', p + HEAD) == HeadWord(c'[p])
    requires hole' != p + n ==> Rd(mem', p + n + HEAD) == HeadWord(c'[p + n])
    ensures Tags(mem', c', base, top, hole') && TagWrites(mem, mem', c', top, p, p + n, p + HEAD)
        && FreeSame(c, c', 0, 0)
  {
    SplitTiled(c, c', base, top, p, n);
    SplitAligned(c, c', p, n);
    SplitSame(c, c', base, top, p, n, hole, hole');
    NotFootHere(c', base, top, p);
    TagsAfter(mem, mem', c, c', base, top, hole, hole', p, p + n, p + HEAD);
  }

  // ----- two neighbouring chunks in use become one -----

  lemma MergeSame(c: Chunks, c': Chunks, base: int, top: int, p: int)
    requires Tiled(c, base, top) && MergedAt(c, c', p) && c[p].cin && c[p + c[p].size].cin && base > 0
    ensures HeadsSame(c, c', 0, 0, p, p) && FeetSame(c, c', p + HEAD) && FreeSame(c, c', 0, 0)
  {
    NonZero(c, base, top);
  }

  lemma MergeUsed(mem: Mem, mem': Mem, c: Chunks, c': Chunks, base: int, top: int, p: int)
    requires Tags(mem, c, base, top, 0) && MergedAt(c, c', p) && c[p].cin && c[p + c[p].size].cin
    requires OnlyWords(mem, mem', p + HEAD, p + HEAD, p + HEAD, p + HEAD) && Rd(mem', p + HEAD) == HeadWord(c'[p])
    ensures Tags(mem', c', base, top, 0) && TagWrites(mem, mem', c', top, p, p, p + HEAD) && FreeSame(c, c', 0, 0)
  {
    MergeTiled(c, c', base, top, p);
    MergeAligned(c, c', p);
    MergeSame(c, c', base, top, p);
    NotFootHere(c', base, top, p);
    TagsAfter(mem, mem', c, c', base, top, 0, 0, p, p, p + HEAD);
  }

  // ----- a chunk in use takes over the free chunk after it -----

  function Grown(c: Chunks, p: int): Chunks
    requires p in c && p + c[p].size in c
  {
    var n := p + c[p].size;
    var end := n + c[n].size;
    var d := (c - {n})[p := Chunk(c[p].size + c[n].size, true, c[p].pin)];
    if end in c then d[end := c[end].(pin := true)] else d
  }

  lemma GrownTiled(c: Chunks, base: int, top: int, p: int)
    requires Tiled(c, base, top) && Aligned(c) && p in c && c[p].cin && p + c[p].size in c && !c[p + c[p].size].cin
    ensures Tiled(Grown(c, p), base, top) && Aligned(Grown(c, p))
    ensures var n := p + c[p].size; n + c[n].size in c && n + c[n].size > n && n > p
  {
    var n := p + c[p].size;
    ChunkAt(c, base, top, p);
    ChunkAt(c, base, top, n);
    var c1 := SetCin(c, n, true);
    SetCinTiled(c, c1, base, top, n, true);
    CinAligned(c, c1, n, true);
    var c2 := Merge(c1, p);
    MergeTiled(c1, c2, base, top, p);
    MergeAligned(c1, c2, p);
    assert c2 == Grown(c, p);
  }

  lemma GrowNextTags(mem: Mem, mem': Mem, c: Chunks, c': Chunks, base: int, top: int, p: int, n: int, s: int)
    requires Tiled(c, base, top) && Tiled(c', base, top) && base > 0 && Heads(mem, c, 0) && Feet(mem, c)
    requires p in c && c[p].cin && n == p + c[p].size && n in c && !c[n].cin && s == c[p].size + c[n].size
        && c' == Grown(c, p) && p + s in c && p + s > n && n > p
    requires OnlyWords(mem, mem', p + HEAD, p + s + HEAD, p + HEAD, p + HEAD)
    requires Rd(mem', p + HEAD) == HeadWord(c'[p]) && Rd(mem', p + s + HEAD) == HeadWord(c'[p + s])
    ensures Heads(mem', c', 0) && Feet(mem', c') && TagWrites(mem, mem', c', top, p, p + s, p + HEAD)
        && FreeSame(c, c', n, 0)
  {
    hide Tiled, OnlyWords;
    NonZero(c, base, top);
    NotFootHere(c', base, top, p);
    TagsAfter(mem, mem', c, c', base, top, 0, 0, p, p + s, p + HEAD);
  }

  lemma GrowNext(mem: Mem, mem': Mem, c: Chunks, c': Chunks, base: int, top: int, p: int, n: int, s: int)
    requires Tags(mem, c, base, top, 0) && p in c && c[p].cin && n == p + c[p].size && n in c && !c[n].cin
    requires s == c[p].size + c[n].size && c' == Grown(c, p) && mem' == SetInuse(mem, p, s)
    ensures Tags(mem', c', base, top, 0) && TagWrites(mem, mem', c', top, p, p + s, p + HEAD)
    ensures FreeSame(c, c', n, 0) && p in c' && p + s in c'
  {
    GrownTiled(c, base, top, p);
    NonZero(c, base, top);
    ReadTags(mem, c, base, top, 0, p);
    ReadTags(mem, c, base, top, 0, p + s);
    InuseWords(mem, p, s);
    GrowNextTags(mem, mem', c, c', base, top, p, n, s);
  }

  lemma InuseWords(mem: Mem, p: int, s: int)
    requires s > 0
    ensures var mem' := SetInuse(mem, p, s);
            && OnlyWords(mem, mem', p + HEAD, p + s + HEAD, p + HEAD, p + HEAD)
            && Rd(mem', p + HEAD) == s + 2 + (if PinOf(Rd(mem, p + HEAD)) then 1 else 0)
            && Rd(mem', p + s + HEAD) == OrPin(Rd(mem, p + s + HEAD))
  {
  }

  // ----- a chunk in use takes the front of the free chunk after it -----

  function GrownPart(c: Chunks, p: int, n: int): Chunks
    requires p in c && p + c[p].size in c
  {
    var q := p + c[p].size;
    (c - {q})[p := Chunk(n, true, c[p].pin)][p + n := Chunk(c[p].size + c[q].size - n, false, true)]
  }

  lemma GrownPartTiled(c: Chunks, base: int, top: int, p: int, n: int)
    requires Tiled(c, base, top) && Aligned(c) && p in c && c[p].cin && p + c[p].size in c && !c[p + c[p].size].cin
    requires n % 16 == 0 && c[p].size < n && c[p].size + c[p + c[p].size].size - n >= 32
    ensures Tiled(GrownPart(c, p, n), base, top) && Aligned(GrownPart(c, p, n))
    ensures p + n !in c && p + c[p].size + c[p + c[p].size].size in c && !c[p + c[p].size + c[p + c[p].size].size].pin
  {
    var q := p + c[p].size;
    ChunkAt(c, base, top, p);
    ChunkAt(c, base, top, q);
    GrownTiled(c, base, top, p);
    var c1 := Grown(c, p);
    SplitFresh(c1, base, top, p, n);
    var c2 := Split(c1, p, n);
    SplitTiled(c1, c2, base, top, p, n);
    SplitAligned(c1, c2, p, n);
    var c3 := SetCin(c2, p + n, false);
    SetCinTiled(c2, c3, base, top, p + n, false);
    CinAligned(c2, c3, p + n, false);
    assert p + n != q;
    assert c3 == GrownPart(c, p, n);
  }

  lemma GrowPartWords(mem: Mem, p: int, n: int, rest: int)
    requires n > 8 && rest > 8 && ClearPin(Rd(mem, p + n + rest + HEAD)) == Rd(mem, p + n + rest + HEAD)
    ensures var mem' := ClearPinuse(SetSizeAndPinuseOfFreeChunk(SetInuse(mem, p, n), p + n, rest), p + n + rest);
            && OnlyWords(mem, mem', p + HEAD, p + n + HEAD, p + n + rest, p + n + rest)
            && Rd(mem', p + HEAD) == n + 2 + (if PinOf(Rd(mem, p + HEAD)) then 1 else 0)
            && Rd(mem', p + n + HEAD) == rest + 1 && Rd(mem', p + n + rest) == rest
  {
  }

  lemma GrowPart(mem: Mem, mem': Mem, c: Chunks, c': Chunks, base: int, top: int, p: int, q: int, n: int, rest: int)
    requires Tags(mem, c, base, top, 0) && p in c && c[p].cin && q == p + c[p].size && q in c && !c[q].cin
    requires n % 16 == 0 && c[p].size < n && rest >= 32 && n + rest == c[p].size + c[q].size && c' == GrownPart(c, p, n)
    requires mem' == ClearPinuse(SetSizeAndPinuseOfFreeChunk(SetInuse(mem, p, n), p + n, rest), p + n + rest)
    ensures Tags(mem', c', base, top, 0) && TagWrites(mem, mem', c', top, p, p + n, p + n + rest)
    ensures FreeSame(c, c', q, p + n) && c'[p] == c[p].(size := n) && c'[p + n] == Chunk(rest, false, true)
  {
    GrownPartTiled(c, base, top, p, n);
    NonZero(c, base, top);
    ReadTags(mem, c, base, top, 0, p);
    ReadTags(mem, c, base, top, 0, p + n + rest);
    ChunkAt(c, base, top, p);
    GrowPartWords(mem, p, n, rest);
    GrowPartTags(mem, mem', c, c', base, top, p, q, n, rest);
  }

  lemma GrowPartTags(mem: Mem, mem': Mem, c: Chunks, c': Chunks, base: int, top: int, p: int, q: int, n: int, rest: int)
    requires Heads(mem, c, 0) && Feet(mem, c) && Tiled(c, base, top) && base > 0 && Tiled(c', base, top)
    requires p in c && q == p + c[p].size && q in c && c[p].cin && c' == GrownPart(c, p, n)
        && n + rest == c[p].size + c[q].size && p + n !in c && n != 0
    requires OnlyWords(mem, mem', p + HEAD, p + n + HEAD, p + n + rest, p + n + rest)
    requires Rd(mem', p + HEAD) == HeadWord(c'[p]) && Rd(mem', p + n + HEAD) == rest + 1
        && Rd(mem', p + n + rest) == rest
    ensures Heads(mem', c', 0) && Feet(mem', c') && FreeSame(c, c', q, p + n)
        && TagWrites(mem, mem', c', top, p, p + n, p + n + rest)
  {
    hide Tiled, Tiling.Aligned, Heads, Feet, HeadsSame, FeetSame, FreeSame;
    OneFoot(c', base, top, p + n);
    EndIsStart(c', base, top, p + n);
    GrowPartSame(c, c', base, top, p, q, n);
    TagsAfter(mem, mem', c, c', base, top, 0, 0, p, p + n, p + n + rest);
  }

  lemma GrowPartSame(c: Chunks, c': Chunks, base: int, top: int, p: int, q: int, n: int)
    requires Tiled(c, base, top) && base > 0
    requires p in c && q == p + c[p].size && q in c && c[p].cin && c' == GrownPart(c, p, n) && p + n !in c && n != 0
    ensures HeadsSame(c, c', 0, 0, p, p + n) && FeetSame(c, c', q + c[q].size) && FreeSame(c, c', q, p + n)
  {
    NonZero(c, base, top);
  }

  // ----- steps that move top -----

  lemma TakeTop(mem: Mem, mem': Mem, c: Chunks, c': Chunks, base: int, top: int, topsize: int, end: int, n: int)
    requires Tags(mem, c, base, top, 0) && TopOk(mem, top, topsize, end) && 32 <= n < topsize && n % 16 == 0
    requires c' == c[top := Chunk(n, true, true)]
    requires mem' == SetSizeAndPinuseOfInuseChunk(mem[top + n + HEAD := topsize - n + PINUSE_BIT], top, n)
    ensures Tags(mem', c', base, top + n, 0) && TagWrites(mem, mem', c', top + n, top, top + n, top + HEAD)
    ensures FreeSame(c, c', 0, 0) && TopOk(mem', top + n, topsize - n, end) && top !in c
  {
    hide Tiled, Heads, Feet, HeadsSame, FeetSame, FreeSame;
    TakeTopTiled(c, c', base, top, n);
    TopNotIn(c, base, top);
    TakeTopSame(c, c', base, top, n);
    NotFootHere(c', base, top + n, top);
    TopNotIn(c', base, top + n);
    TakeTopWords(mem, top, n, topsize - n);
    TagsAfter(mem, mem', c, c', base, top + n, 0, 0, top, top + n, top + HEAD);
  }

  lemma TakeTopSame(c: Chunks, c': Chunks, base: int, top: int, n: int)
    requires Tiled(c, base, top) && base > 0 && top !in c && c' == c[top := Chunk(n, true, true)]
    ensures HeadsSame(c, c', 0, 0, top, top + n) && FeetSame(c, c', top + HEAD) && FreeSame(c, c', 0, 0)
  {
    NonZero(c, base, top);
  }

  lemma TakeTopWords(mem: Mem, top: int, n: int, rest: int)
    requires n > 8
    ensures var mem' := SetSizeAndPinuseOfInuseChunk(mem[top + n + HEAD := rest + PINUSE_BIT], top, n);
            && OnlyWords(mem, mem', top + HEAD, top + n + HEAD, top + HEAD, top + HEAD)
            && Rd(mem', top + HEAD) == n + 3 && Rd(mem', top + n + HEAD) == rest + 1
  {
  }

  lemma GiveTopSame(c: Chunks, c': Chunks, h: int, y: int)
    requires h in c && c[h].cin && c' == c - {h} && Tiling.Aligned(c)
    ensures HeadsSame(c, c', h, 0, h, h) && FeetSame(c, c', y) && FreeSame(c, c', 0, 0)
    ensures Tiling.Aligned(c') && h % 16 == 0 && c[h].size % 16 == 0
  {
  }

  lemma GiveTop(mem: Mem, mem': Mem, c: Chunks, c': Chunks, base: int, top: int, topsize: int, end: int, h: int,
      tsize: int)
    requires Tags(mem, c, base, top, h) && TopOk(mem, top, topsize, end) && h in c && c[h].cin && c[h].pin
        && h + c[h].size == top
    requires c' == c - {h} && tsize == topsize + c[h].size && mem' == mem[h + HEAD := tsize + PINUSE_BIT]
    ensures Tags(mem', c', base, h, 0) && TagWrites(mem, mem', c', h, h, h, h + HEAD)
    ensures FreeSame(c, c', 0, 0) && TopOk(mem', h, tsize, end) && h >= base && h < top
  {
    hide Tiled, Tiling.Aligned, Heads, Feet, HeadsSame, FeetSame, FreeSame;
    GiveTopSame(c, c', h, h + HEAD);
    GiveTopTiled(c, c', base, top, h);
    NonZero(c, base, top);
    ChunkAt(c, base, top, h);
    GiveTopFoot(c', base, h);
    TagsAfter(mem, mem', c, c', base, h, h, 0, h, h, h + HEAD);
  }

  lemma GiveTopFoot(c: Chunks, base: int, top: int)
    requires Tiled(c, base, top)
    ensures forall a :: a in c ==> a + c[a].size != top + HEAD
  {
    forall a | a in c ensures a + c[a].size != top + HEAD { ChunkAt(c, base, top, a); }
  }

  function GrownTop(c: Chunks, p: int, n: int): Chunks
    requires p in c
  {
    c[p := c[p].(size := n)]
  }

  lemma GrownTopTiled(c: Chunks, base: int, top: int, p: int, n: int)
    requires Tiled(c, base, top) && p in c && c[p].cin && p + c[p].size == top && n > c[p].size
    ensures Tiled(GrownTop(c, p, n), base, p + n)
  {
    var c' := GrownTop(c, p, n);
    ChunkAt(c, base, top, p);
    forall a | a in c' ensures ChunkOk(c', base, p + n, a) {
      ChunkAt(c, base, top, a);
      NextStart(c, base, top, a, p);
    }
    forall a, b ensures Before(c', a, b) {
      if b in c { ChunkAt(c, base, top, b); }
      assert Before(c, a, b);
    }
  }

  lemma GrowTopWords(mem: Mem, p: int, n: int, tsize: int)
    requires n > 0
    ensures var mem' := SetInuse(mem, p, n)[p + n + HEAD := tsize + PINUSE_BIT];
            && OnlyWords(mem, mem', p + HEAD, p + n + HEAD, p + HEAD, p + HEAD)
            && Rd(mem', p + HEAD) == n + 2 + (if PinOf(Rd(mem, p + HEAD)) then 1 else 0)
            && Rd(mem', p + n + HEAD) == tsize + 1
  {
  }

  lemma GrowTopSame(c: Chunks, c': Chunks, base: int, top: int, p: int, n: int)
    requires Tiled(c, base, top) && base > 0 && p in c && c[p].cin && c' == GrownTop(c, p, n)
    ensures HeadsSame(c, c', 0, 0, p, p + n) && FeetSame(c, c', p + HEAD) && FreeSame(c, c', 0, 0)
  {
    NonZero(c, base, top);
  }

  lemma GrowTop(mem: Mem, mem': Mem, c: Chunks, c': Chunks, base: int, top: int, topsize: int, end: int, p: int,
      n: int, tsize: int)
    requires Tags(mem, c, base, top, 0) && TopOk(mem, top, topsize, end) && p in c && c[p].cin && p + c[p].size == top
    requires c[p].size < n < c[p].size + topsize && n % 16 == 0 && c' == GrownTop(c, p, n)
        && tsize == c[p].size + topsize - n
    requires mem' == SetInuse(mem, p, n)[p + n + HEAD := tsize + PINUSE_BIT]
    ensures Tags(mem', c', base, p + n, 0) && TagWrites(mem, mem', c', p + n, p, p + n, p + HEAD)
    ensures FreeSame(c, c', 0, 0) && TopOk(mem', p + n, tsize, end)
  {
    hide Tiled, Heads, Feet, TagWrites, FreeSame, OnlyWords, SetInuse;
    ChunkAt(c, base, top, p);
    GrownTopTiled(c, base, top, p, n);
    GrowTopWords(mem, p, n, tsize);
    GrowTopOk(mem, mem', c, base, top, topsize, end, p, n, tsize);
    GrowTopHead(mem, c, base, top, p, n);
    GrowTopAligned(c, p, n);
    GrowTopTags(mem, mem', c, c', base, p + n, top, p, n, tsize);
  }

  lemma GrowTopAligned(c: Chunks, p: int, n: int)
    requires Aligned(c) && p in c && n % 16 == 0
    ensures Aligned(GrownTop(c, p, n)) && p % 16 == 0
  {
  }

  lemma GrowTopOk(mem: Mem, mem': Mem, c: Chunks, base: int, top: int, topsize: int, end: int, p: int, n: int,
      tsize: int)
    requires Tiled(c, base, top) && TopOk(mem, top, topsize, end) && p in c && p + c[p].size == top && Aligned(c)
    requires c[p].size < n < c[p].size + topsize && n % 16 == 0 && tsize == c[p].size + topsize - n
    requires OnlyWords(mem, mem', p + HEAD, p + n + HEAD, p + HEAD, p + HEAD) && Rd(mem', p + n + HEAD) == tsize + 1
    ensures TopOk(mem', p + n, tsize, end)
  {
    hide Tiled;
    ChunkAt(c, base, top, p);
    assert p % 16 == 0;
    assert c[p].size % 16 == 0;
  }

  lemma GrowTopHead(mem: Mem, c: Chunks, base: int, top: int, p: int, n: int)
    requires Tags(mem, c, base, top, 0) && p in c && c[p].cin
    ensures n + 2 + (if PinOf(Rd(mem, p + HEAD)) then 1 else 0) == HeadWord(GrownTop(c, p, n)[p])
  {
    NonZero(c, base, top);
    ReadTags(mem, c, base, top, 0, p);
  }

  lemma GrowTopTags(mem: Mem, mem': Mem, c: Chunks, c': Chunks, base: int, top': int, top: int, p: int, n: int,
      tsize: int)
    requires Tiled(c, base, top) && Tiled(c', base, top') && base > 0 && Heads(mem, c, 0) && Feet(mem, c)
    requires p in c && c[p].cin && c' == GrownTop(c, p, n) && top' == p + n
    requires OnlyWords(mem, mem', p + HEAD, p + n + HEAD, p + HEAD, p + HEAD) && Rd(mem', p + HEAD) == HeadWord(c'[p])
    ensures Heads(mem', c', 0) && Feet(mem', c') && TagWrites(mem, mem', c', top', p, p + n, p + HEAD)
        && FreeSame(c, c', 0, 0)
  {
    GrowTopSame(c, c', base, top, p, n);
    NotFootHere(c', base, top', p);
    TopNotIn(c', base, top');
    TagsAfter(mem, mem', c, c', base, top', 0, 0, p, p + n, p + HEAD);
  }
}
