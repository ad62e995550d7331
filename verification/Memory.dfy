/** The machine memory the allocator works on: 8-byte words by address, and the field offsets of
    `malloc_chunk`, `malloc_tree_chunk` and the bin arrays of `malloc_state`
    (src/mm/malloc.c:2173-2178, 2389-2399, 2586-2612). */
module Memory {

  /** Word-addressed memory; a word never written reads as zero. */
  type Mem = map<int, int>

  function Rd(mem: Mem, a: int): int { if a in mem then mem[a] else 0 }

  // Field offsets, in bytes.
  const PREV_FOOT := 0
  const HEAD := 8
  const FD := 16
  const BK := 24
  const CHILD0 := 32
  const CHILD1 := 40
  const PARENT := 48
  const INDEX := 56

  /** The bin arrays of the one malloc_state lie below every heap address.  The model puts
      malloc_state at address 0 of its address space, so these are field offsets. */
  const SMALLBINS := 72
  const TREEBINS := 600
  const HEAP_FLOOR := 4096

  /** smallbin_at: the bin header is placed so that its fd and bk are array slots 2i+2 and 2i+3. */
  function SmallBinAt(i: nat): int { SMALLBINS + 16 * i }

  function TreeBinAt(i: nat): int { TREEBINS + 8 * i }

  /** Every word strictly inside the bodies of the chunks of `m` (address to size), the trailing
      word included, is the same in both memories. */
  ghost predicate BodiesSame(mem: Mem, mem': Mem, m: map<int, int>) {
    forall a, w {:trigger a in m, Rd(mem', w)} :: a in m && a + 16 <= w <= a + m[a] ==> Rd(mem', w) == Rd(mem, w)
  }

  /** The words of malloc_state are the same in both memories. */
  ghost predicate LowSame(mem: Mem, mem': Mem) {
    forall w {:trigger Rd(mem', w)} :: w < HEAP_FLOOR ==> Rd(mem', w) == Rd(mem, w)
  }
}
