/** The physical chunks of the one segment and the boundary tags that describe them
    (src/mm/malloc.c:2060-2169, 2240-2300, 3236-3306). */
module Tiling {
  import opened Memory

  /** A chunk: its size, whether it is in use (CINUSE), and whether the chunk before it is (PINUSE). */
  datatype Chunk = Chunk(size: int, cin: bool, pin: bool)

  /** The chunks below top, by address. */
  type Chunks = map<int, Chunk>

  const MIN_CHUNK_SIZE := 32
  const TOP_FOOT_SIZE := 80

  /** What do_check_inuse_chunk and do_check_free_chunk ask of one chunk, in terms of its neighbour:
      the next chunk's PINUSE agrees, and a free chunk lies between chunks in use. */
  ghost predicate ChunkOk(c: Chunks, base: int, top: int, a: int) {
    && a in c && c[a].size >= MIN_CHUNK_SIZE
    && base <= a && a + c[a].size <= top
    && (a + c[a].size < top ==> a + c[a].size in c && c[a + c[a].size].pin == c[a].cin)
    && (!c[a].cin ==> c[a].pin && a + c[a].size < top && c[a + c[a].size].cin)
  }

  /** Chunk a, when it starts first, ends before b starts. */
  ghost predicate Before(c: Chunks, a: int, b: int) {
    a in c && b in c && a < b ==> a + c[a].size <= b
  }

  /** No two chunks overlap. */
  ghost predicate NoOverlap(c: Chunks) {
    forall a, b {:trigger Before(c, a, b)} :: Before(c, a, b)
  }

  /** The chunks tile [base, top) without gap or overlap, their tags agree, and no two free chunks
      (top counts as free) are neighbours. */
  ghost predicate Tiled(c: Chunks, base: int, top: int) {
    && base <= top
    && (base < top ==> base in c && c[base].pin)
    && (forall a {:trigger ChunkOk(c, base, top, a)} :: a in c ==> ChunkOk(c, base, top, a))
    && NoOverlap(c)
  }

  /** Addresses and sizes are multiples of MALLOC_ALIGNMENT. */
  ghost predicate Aligned(c: Chunks) {
    forall a :: a in c ==> a % 16 == 0 && c[a].size % 16 == 0
  }

  function HeadWord(ch: Chunk): int {
    ch.size + (if ch.cin then 2 else 0) + (if ch.pin then 1 else 0)
  }

  /** Every head word holds the size and the two bits of its chunk; `hole` is exempt. */
  ghost predicate Heads(mem: Mem, c: Chunks, hole: int) {
    forall a :: a in c && a != hole ==> Rd(mem, a + HEAD) == HeadWord(c[a])
  }

  /** Every free chunk repeats its size in its trailing word. */
  ghost predicate Feet(mem: Mem, c: Chunks) {
    forall a :: a in c && !c[a].cin ==> Rd(mem, a + c[a].size) == c[a].size
  }

  // ----- reading the bits -----

  function SizeOf(head: int): int { head - head % 8 }

  predicate CinOf(head: int) { head / 2 % 2 == 1 }

  predicate PinOf(head: int) { head % 2 == 1 }

  /** head |= PINUSE_BIT and head &= ~PINUSE_BIT. */
  function OrPin(head: int): int { if PinOf(head) then head else head + 1 }

  function ClearPin(head: int): int { if PinOf(head) then head - 1 else head }

  /** The macros read back what the head word was built from. */
  lemma HeadBits(ch: Chunk, k: int)
    requires ch.size == 16 * k
    ensures SizeOf(HeadWord(ch)) == ch.size && CinOf(HeadWord(ch)) == ch.cin && PinOf(HeadWord(ch)) == ch.pin
    ensures OrPin(HeadWord(ch)) == HeadWord(ch.(pin := true))
    ensures ClearPin(HeadWord(ch)) == HeadWord(ch.(pin := false))
  {
    var f := HeadWord(ch) - 16 * k;
    assert 0 <= f < 4;
    assert (16 * k + f) % 8 == f && (16 * k + f) % 2 == f % 2 && (16 * k + f) / 2 == 8 * k + f / 2;
    assert (8 * k + f / 2) % 2 == f / 2;
  }

  // ----- the elementary changes of a tiling -----

  /** Only the use of p, and the matching tag of the chunk after it, differ. */
  ghost predicate CinSet(c: Chunks, c': Chunks, p: int, cin: bool) {
    && p in c && c'.Keys == c.Keys
    && forall a :: a in c ==> c'[a] == if a == p then c[a].(cin := cin)
                                       else if a == p + c[p].size then c[a].(pin := cin) else c[a]
  }

  /** Chunk p may become free: it lies between chunks in use. */
  ghost predicate FreeAllowed(c: Chunks, p: int) {
    p in c && c[p].pin && p + c[p].size in c && c[p + c[p].size].cin
  }

  lemma ChunkAt(c: Chunks, base: int, top: int, a: int)
    requires Tiled(c, base, top) && a in c
    ensures ChunkOk(c, base, top, a) && a < top
  {
    assert ChunkOk(c, base, top, a);
  }

  lemma NextStart(c: Chunks, base: int, top: int, a: int, p: int)
    requires Tiled(c, base, top) && a in c && p in c
    ensures a + c[a].size == p ==> a < p && c[p].pin == c[a].cin
    ensures a + c[a].size == p + c[p].size ==> a == p
    ensures ChunkOk(c, base, top, a) && Before(c, a, p) && Before(c, p, a)
  {
    assert ChunkOk(c, base, top, a) && ChunkOk(c, base, top, p);
    assert Before(c, a, p) && Before(c, p, a);
  }

  lemma SetCinTiled(c: Chunks, c': Chunks, base: int, top: int, p: int, cin: bool)
    requires Tiled(c, base, top) && CinSet(c, c', p, cin)
    requires cin || FreeAllowed(c, p)
    ensures Tiled(c', base, top)
  {
    assert ChunkOk(c, base, top, p);
    if !cin { assert ChunkOk(c, base, top, p + c[p].size); }
    forall a | a in c' ensures ChunkOk(c', base, top, a) {
      assert ChunkOk(c, base, top, a);
      NextStart(c, base, top, a, p);
    }
    forall a, b ensures Before(c', a, b) { assert Before(c, a, b); }
  }

  /** Chunk p is divided into [p, p + n) and the rest; both keep p's use. */
  ghost predicate SplitAt(c: Chunks, c': Chunks, p: int, n: int) {
    && p in c && 0 < n < c[p].size && c'.Keys == c.Keys + {p + n}
    && c'[p] == c[p].(size := n)
    && c'[p + n] == Chunk(c[p].size - n, c[p].cin, c[p].cin)
    && forall a :: a in c && a != p && a != p + n ==> c'[a] == c[a]
  }

  lemma SplitFresh(c: Chunks, base: int, top: int, p: int, n: int)
    requires Tiled(c, base, top) && p in c && 0 < n < c[p].size
    ensures p + n !in c
  {
    ChunkAt(c, base, top, p);
    assert Before(c, p, p + n);
  }

  lemma SplitTiled(c: Chunks, c': Chunks, base: int, top: int, p: int, n: int)
    requires Tiled(c, base, top) && SplitAt(c, c', p, n) && c[p].cin
    requires n >= MIN_CHUNK_SIZE && c[p].size - n >= MIN_CHUNK_SIZE
    ensures Tiled(c', base, top)
  {
    SplitFresh(c, base, top, p, n);
    assert ChunkOk(c, base, top, p);
    forall a | a in c' ensures ChunkOk(c', base, top, a) {
      if a != p + n {
        ChunkAt(c, base, top, a);
        NextStart(c, base, top, a, p);
      }
    }
    SplitNoOverlap(c, c', p, n);
  }

  lemma SplitNoOverlap(c: Chunks, c': Chunks, p: int, n: int)
    requires NoOverlap(c) && SplitAt(c, c', p, n) && p + n !in c
    ensures NoOverlap(c')
  {
    forall a, b ensures Before(c', a, b) {
      var a0, b0 := if a == p + n then p else a, if b == p + n then p else b;
      assert Before(c, a0, b0) && Before(c, b0, a0);
    }
  }

  /** Chunk p and the chunk right after it become one chunk with p's use and preceding tag. */
  ghost predicate MergedAt(c: Chunks, c': Chunks, p: int) {
    && p in c && c[p].size > 0 && p + c[p].size in c && c'.Keys == c.Keys - {p + c[p].size}
    && c'[p] == c[p].(size := c[p].size + c[p + c[p].size].size)
    && forall a :: a in c && a != p && a != p + c[p].size ==> c'[a] == c[a]
  }

  lemma MergeTiled(c: Chunks, c': Chunks, base: int, top: int, p: int)
    requires Tiled(c, base, top) && MergedAt(c, c', p)
    requires c[p].cin && c[p + c[p].size].cin
    ensures Tiled(c', base, top)
  {
    var q := p + c[p].size;
    assert ChunkOk(c, base, top, p) && ChunkOk(c, base, top, q);
    forall a | a in c' ensures ChunkOk(c', base, top, a) {
      assert ChunkOk(c, base, top, a);
      NextStart(c, base, top, a, p);
      NextStart(c, base, top, a, q);
    }
    MergeNoOverlap(c, c', p);
  }

  lemma MergeNoOverlap(c: Chunks, c': Chunks, p: int)
    requires NoOverlap(c) && MergedAt(c, c', p) && c[p + c[p].size].size > 0
    ensures NoOverlap(c')
  {
    var q := p + c[p].size;
    forall a, b ensures Before(c', a, b) {
      assert Before(c, a, b) && Before(c, p, b) && Before(c, q, b);
    }
  }

  /** Top gives its first n bytes to a new chunk in use. */
  ghost predicate TakenFromTop(c: Chunks, c': Chunks, top: int, n: int) {
    c' == c[top := Chunk(n, true, true)]
  }

  lemma TopNotIn(c: Chunks, base: int, top: int)
    requires Tiled(c, base, top)
    ensures top !in c
  {
    if top in c { ChunkAt(c, base, top, top); }
  }

  lemma TakeTopTiled(c: Chunks, c': Chunks, base: int, top: int, n: int)
    requires Tiled(c, base, top) && TakenFromTop(c, c', top, n) && n >= MIN_CHUNK_SIZE
    ensures Tiled(c', base, top + n)
  {
    TopNotIn(c, base, top);
    forall a | a in c' ensures ChunkOk(c', base, top + n, a) {
      if a != top { assert ChunkOk(c, base, top, a); }
    }
    forall a, b ensures Before(c', a, b) {
      if b in c { ChunkAt(c, base, top, b); }
      if a in c { ChunkAt(c, base, top, a); }
      assert Before(c, a, b);
    }
  }

  /** The last chunk p goes back to top. */
  lemma GiveTopTiled(c: Chunks, c': Chunks, base: int, top: int, p: int)
    requires Tiled(c, base, top) && p in c && p + c[p].size == top && c[p].pin && c' == c - {p}
    ensures Tiled(c', base, p)
  {
    assert ChunkOk(c, base, top, p);
    if base < p { assert ChunkOk(c, base, top, base); }
    forall a | a in c' ensures ChunkOk(c', base, p, a) {
      assert ChunkOk(c, base, top, a);
      NextStart(c, base, top, a, p);
    }
    forall a, b ensures Before(c', a, b) { assert Before(c, a, b); }
  }

  /** Every chunk but the first has a predecessor that ends where it starts. */
  lemma {:induction false} PrevFrom(c: Chunks, base: int, top: int, b: int, a: int) returns (q: int)
    requires Tiled(c, base, top) && a in c && a < b && (b in c || b == top)
    ensures q in c && q + c[q].size == b
    decreases b - a
  {
    ChunkAt(c, base, top, a);
    if b in c { ChunkAt(c, base, top, b); }
    assert Before(c, a, b);
    var n := a + c[a].size;
    if n == b { q := a; } else { q := PrevFrom(c, base, top, b, n); }
  }

  lemma Prev(c: Chunks, base: int, top: int, b: int) returns (q: int)
    requires Tiled(c, base, top) && (b in c || b == top) && b != base
    ensures q in c && q + c[q].size == b && q < b
    ensures b in c ==> c[b].pin == c[q].cin
  {
    if b in c { assert ChunkOk(c, base, top, b); }
    q := PrevFrom(c, base, top, b, base);
    assert ChunkOk(c, base, top, q);
  }

  // ----- canonical form -----

  /** The blocks in use, by chunk address. */
  ghost predicate LiveIs(c: Chunks, live: map<int, int>, hole: int) {
    forall a :: a in live <==> a in c && c[a].cin && a != hole
  }

  ghost predicate LiveSizes(c: Chunks, live: map<int, int>) {
    forall a :: a in live && a in c ==> live[a] == c[a].size
  }

  ghost predicate Tiles(c: Chunks, base: int, top: int, live: map<int, int>) {
    Tiled(c, base, top) && LiveIs(c, live, 0) && LiveSizes(c, live) && base > 0
  }

  lemma SameChunk(c: Chunks, d: Chunks, base: int, top: int, top': int, live: map<int, int>, a: int)
    requires Tiles(c, base, top, live) && Tiles(d, base, top', live)
    requires a in c && a in d && c[a].pin == d[a].pin
    ensures c[a] == d[a]
  {
    ChunkAt(c, base, top, a);
    ChunkAt(d, base, top', a);
    if !c[a].cin {
      var m, n := a + c[a].size, a + d[a].size;
      assert m in live && n in live;
      assert Before(d, a, m) && Before(c, a, n);
    }
  }

  /** Past the last block in use of one tiling there is nothing in the other either. */
  lemma SameEnd(c: Chunks, d: Chunks, base: int, top: int, top': int, live: map<int, int>, n: int)
    requires Tiles(c, base, top, live) && Tiles(d, base, top', live) && n == top && base <= n
    ensures n !in d
  {
    if n in d {
      ChunkAt(d, base, top', n);
      var m := if d[n].cin then n else n + d[n].size;
      assert m in live;
      ChunkAt(c, base, top, m);
    }
  }

  /** Walking two tilings of the same live blocks from a common chunk: they never part. */
  lemma {:induction false} SameFrom(c: Chunks, d: Chunks, base: int, top: int, top': int, live: map<int, int>, a: int)
    requires Tiles(c, base, top, live) && Tiles(d, base, top', live)
    requires a in c && a in d && c[a].pin == d[a].pin
    ensures top == top'
    ensures forall b :: a <= b ==> (b in c <==> b in d) && (b in c ==> c[b] == d[b])
    decreases top - a
  {
    SameChunk(c, d, base, top, top', live, a);
    ChunkAt(c, base, top, a);
    ChunkAt(d, base, top', a);
    var n := a + c[a].size;
    if n == top || n == top' {
      if n == top { SameEnd(c, d, base, top, top', live, n); } else { SameEnd(d, c, base, top', top, live, n); }
      forall b | a < b ensures b !in c && b !in d {
        assert Before(c, a, b) && Before(d, a, b);
        if b in c { ChunkAt(c, base, top, b); }
        if b in d { ChunkAt(d, base, top', b); }
      }
    } else {
      SameFrom(c, d, base, top, top', live, n);
      forall b | a < b < n ensures b !in c && b !in d { assert Before(c, a, b) && Before(d, a, b); }
    }
  }

  /** The tiling, and with it every run of free space and top, is a function of the blocks in use
      alone: whatever the history, two coalesced heaps with one base and the same live blocks
      have the same chunks and the same top. */
  lemma Canonical(c: Chunks, d: Chunks, base: int, top: int, top': int, live: map<int, int>)
    requires Tiles(c, base, top, live) && Tiles(d, base, top', live)
    ensures c == d && top == top'
  {
    if base == top {
      SameEnd(c, d, base, top, top', live, base);
    } else if base == top' {
      SameEnd(d, c, base, top', top, live, base);
    } else {
      SameFrom(c, d, base, top, top', live, base);
    }
    forall b ensures (b in c ==> base <= b < top) && (b in d ==> base <= b < top') {
      if b in c { ChunkAt(c, base, top, b); }
      if b in d { ChunkAt(d, base, top', b); }
    }
  }
}
