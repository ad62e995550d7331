/** The boundary-tag macros as changes of the tiling: each group of head and foot writes turns
    memory that shows one tiling into memory that shows the next (src/mm/malloc.c:2291-2300, 3058-3073). */
module HeapTags {
  import opened Memory
  import opened Tiling
  import opened HeapLemmas

  /** A chunk start is never the head word of a chunk. */
  lemma StartNotHead(c: Chunks, base: int, top: int, a: int, n: int)
    requires Tiled(c, base, top) && a in c && (n in c || n == top)
    ensures a + HEAD != n
  {
    ChunkAt(c, base, top, a);
    assert Before(c, a, n);
    if n in c { ChunkAt(c, base, top, n); }
  }

  lemma EndIsStart(c: Chunks, base: int, top: int, a: int)
    requires Tiled(c, base, top) && a in c
    ensures a + c[a].size in c || a + c[a].size == top
  {
    ChunkAt(c, base, top, a);
  }

  /** Only the head words of u and v and the word y, which is a chunk start, were written. */
  ghost predicate TagWrites(mem: Mem, mem': Mem, c': Chunks, top': int, u: int, v: int, y: int) {
    && OnlyWords(mem, mem', u + HEAD, v + HEAD, y, y)
    && (u in c' || u >= top') && (v in c' || v >= top') && (y in c' || y == top' || y == u + HEAD)
  }

  lemma HeadKept(mem: Mem, mem': Mem, c': Chunks, base': int, top': int, u: int, v: int, y: int, a: int)
    requires Tiled(c', base', top') && TagWrites(mem, mem', c', top', u, v, y)
    requires a in c' && a != u && a != v
    ensures Rd(mem', a + HEAD) == Rd(mem, a + HEAD)
  {
    if y != u + HEAD { StartNotHead(c', base', top', a, y); }
  }

  lemma FootKept(mem: Mem, mem': Mem, c': Chunks, base': int, top': int, u: int, v: int, y: int, a: int)
    requires Tiled(c', base', top') && TagWrites(mem, mem', c', top', u, v, y)
    requires a in c' && a + c'[a].size != y
    ensures Rd(mem', a + c'[a].size) == Rd(mem, a + c'[a].size)
  {
    var n := a + c'[a].size;
    ChunkAt(c', base', top', a);
    EndIsStart(c', base', top', a);
    if u in c' { StartNotHead(c', base', top', u, n); }
    if v in c' { StartNotHead(c', base', top', v, n); }
  }

  ghost predicate HeadsSame(c: Chunks, c': Chunks, hole: int, hole': int, u: int, v: int) {
    forall a :: a in c' && a != hole' && a != u && a != v ==> a in c && c[a] == c'[a] && a != hole
  }

  ghost predicate FeetSame(c: Chunks, c': Chunks, y: int) {
    forall a :: a in c' && !c'[a].cin && a + c'[a].size != y ==> a in c && !c[a].cin && c[a].size == c'[a].size
  }

  /** An old chunk that is kept still shows its tags; u, v and y show the new ones. */
  lemma TagsAfter(mem: Mem, mem': Mem, c: Chunks, c': Chunks, base': int, top': int,
                  hole: int, hole': int, u: int, v: int, y: int)
    requires Tiled(c', base', top') && TagWrites(mem, mem', c', top', u, v, y)
    requires Heads(mem, c, hole) && Feet(mem, c)
    requires HeadsSame(c, c', hole, hole', u, v) && FeetSame(c, c', y)
    requires u in c' && u != hole' ==> Rd(mem', u + HEAD) == HeadWord(c'[u])
    requires v in c' && v != hole' ==> Rd(mem', v + HEAD) == HeadWord(c'[v])
    requires forall a :: a in c' && !c'[a].cin && a + c'[a].size == y ==> Rd(mem', y) == c'[a].size
    ensures Heads(mem', c', hole') && Feet(mem', c')
  {
    forall a | a in c' && a != hole' ensures Rd(mem', a + HEAD) == HeadWord(c'[a]) {
      if a != u && a != v { HeadKept(mem, mem', c', base', top', u, v, y, a); }
    }
    forall a | a in c' && !c'[a].cin ensures Rd(mem', a + c'[a].size) == c'[a].size {
      if a + c'[a].size != y { FootKept(mem, mem', c', base', top', u, v, y, a); }
    }
  }
}
