/** How writes to boundary-tag words relate to the tiling, the index and the payloads. */
module HeapLemmas {
  import opened Memory
  import opened Tiling
  import opened Index

  /** mem' differs from mem at most at the words u, v, y and z. */
  ghost predicate OnlyWords(mem: Mem, mem': Mem, u: int, v: int, y: int, z: int) {
    forall w {:trigger Rd(mem', w)} :: w != u && w != v && w != y && w != z ==> Rd(mem', w) == Rd(mem, w)
  }

  /** w is no body word of the chunks of m. */
  ghost predicate OutsideBodies(m: Sizes, w: int) {
    forall a :: a in m ==> !(a + 16 <= w <= a + m[a])
  }

  /** m lists some of the chunks of c. */
  ghost predicate SomeOf(m: Sizes, c: Chunks) {
    forall a :: a in m ==> a in c && m[a] == c[a].size
  }

  lemma HeadOutside(c: Chunks, base: int, top: int, m: Sizes, x: int)
    requires Tiled(c, base, top) && SomeOf(m, c) && (x in c || x >= top)
    ensures OutsideBodies(m, x + HEAD)
  {
    forall a | a in m ensures !(a + 16 <= x + HEAD <= a + m[a]) {
      ChunkAt(c, base, top, a);
      assert Before(c, a, x) && Before(c, x, a);
    }
  }

  lemma FootOutside(c: Chunks, base: int, top: int, m: Sizes, x: int)
    requires Tiled(c, base, top) && SomeOf(m, c) && x in c && x !in m
    ensures OutsideBodies(m, x + c[x].size)
  {
    ChunkAt(c, base, top, x);
    forall a | a in m ensures !(a + 16 <= x + c[x].size <= a + m[a]) {
      NextStart(c, base, top, a, x);
      if x + c[x].size < top { assert x + c[x].size in c; }
    }
  }

  lemma WritesOutside(mem: Mem, mem': Mem, m: Sizes, u: int, v: int, y: int, z: int)
    requires OnlyWords(mem, mem', u, v, y, z)
    requires OutsideBodies(m, u) && OutsideBodies(m, v) && OutsideBodies(m, y) && OutsideBodies(m, z)
    ensures BodiesSame(mem, mem', m)
  {
  }

  lemma BodiesSameTrans(mem0: Mem, mem1: Mem, mem2: Mem, m: Sizes)
    requires BodiesSame(mem0, mem1, m) && BodiesSame(mem1, mem2, m)
    ensures BodiesSame(mem0, mem2, m)
  {
    forall a, w {:trigger a in m, Rd(mem2, w)} | a in m && a + 16 <= w <= a + m[a] ensures Rd(mem2, w) == Rd(mem0, w) {
      assert Rd(mem1, w) == Rd(mem0, w);
    }
  }

  lemma BodiesSameSub(mem: Mem, mem': Mem, m: Sizes, n: Sizes)
    requires BodiesSame(mem, mem', m)
    requires forall a :: a in n ==> a in m && n[a] <= m[a]
    ensures BodiesSame(mem, mem', n)
  {
  }

  /** Link writes in the bodies of binned chunks keep every tag, every word from top on, and every
      payload of a chunk that is not binned. */
  lemma LinksKeepTags(mem: Mem, mem': Mem, c: Chunks, base: int, top: int, g: Sizes, hole: int)
    requires Tiled(c, base, top) && base >= HEAP_FLOOR && SomeOf(g, c) && LinksOnly(mem, mem', g)
    requires Heads(mem, c, hole) && Feet(mem, c)
    ensures Heads(mem', c, hole) && Feet(mem', c)
    ensures forall w {:trigger Rd(mem', w)} :: w >= top ==> Rd(mem', w) == Rd(mem, w)
  {
    forall a | a in c ensures Rd(mem', a + HEAD) == Rd(mem, a + HEAD) {
      ChunkAt(c, base, top, a);
      HeadOutside(c, base, top, g, a);
    }
    forall a | a in c && !c[a].cin ensures Rd(mem', a + c[a].size) == Rd(mem, a + c[a].size) {
      ChunkAt(c, base, top, a);
      FootNotInside(c, base, top, g, a);
    }
    forall w | w >= top ensures Rd(mem', w) == Rd(mem, w) {
      forall a | a in g ensures !(a + 16 <= w < a + g[a]) { ChunkAt(c, base, top, a); }
    }
  }

  lemma FootNotInside(c: Chunks, base: int, top: int, g: Sizes, x: int)
    requires Tiled(c, base, top) && SomeOf(g, c) && x in c
    ensures forall a :: a in g ==> !(a + 16 <= x + c[x].size < a + g[a])
  {
    ChunkAt(c, base, top, x);
    forall a | a in g ensures !(a + 16 <= x + c[x].size < a + g[a]) {
      NextStart(c, base, top, a, x);
      if x + c[x].size < top { assert x + c[x].size in c; }
    }
  }

  lemma LinksKeepBodies(mem: Mem, mem': Mem, c: Chunks, base: int, top: int, g: Sizes, m: Sizes)
    requires Tiled(c, base, top) && base >= HEAP_FLOOR && SomeOf(g, c) && SomeOf(m, c) && LinksOnly(mem, mem', g)
    requires forall a :: a in m ==> a !in g
    ensures BodiesSame(mem, mem', m)
  {
    forall a, w {:trigger a in m, Rd(mem', w)} | a in m && a + 16 <= w <= a + m[a] ensures Rd(mem', w) == Rd(mem, w) {
      ChunkAt(c, base, top, a);
      forall b | b in g ensures !(b + 16 <= w < b + g[b]) { NextStart(c, base, top, b, a); }
    }
  }
}
