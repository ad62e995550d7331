/** The heap as its clients see it: a table of byte arrays, one for each live block, and what each call
    does to the table. */
module HeapTables {
  import opened Bits
  import opened BinIndex
  import opened Memory
  import opened Bytes
  import opened Tiling
  import opened Index
  import opened HeapState
  import opened HeapSys
  import opened HeapViews
  import opened HeapMalloc
  import opened HeapCalloc
  import opened HeapRealloc
  import opened HeapMemalign
  import opened HeapRelease
  import opened HeapIalloc
  import opened HeapBulk

  /** The blocks as their owners see them: the bytes at each pointer. */
  type Table = map<int, seq<int>>

  /** The table shows every live block with all its usable bytes. */
  ghost predicate Agree(mem: Mem, live: Sizes, table: Table) {
    && (forall p :: p in live ==> p + 16 in table)
    && (forall a {:trigger a in table} :: a in table ==> a - 16 in live && Shows(mem, live, a, table[a]))
  }

  ghost predicate Shows(mem: Mem, live: Sizes, a: int, s: seq<int>) {
    a - 16 in live && |s| == live[a - 16] - 8 && forall i {:trigger BlockAt(mem, a, i)} :: 0 <= i < |s| ==>
        BlockAt(mem, a, i) == s[i]
  }

  ghost predicate AlignedLive(live: Sizes) {
    forall p :: p in live ==> p % 8 == 0 && live[p] % 8 == 0 && live[p] >= 32
  }

  /** The bytes of a block as they are in memory. */
  ghost function Contents(mem: Mem, a: int, n: nat): (s: seq<int>)
    ensures |s| == n && forall i {:trigger BlockAt(mem, a, i)} :: 0 <= i < n ==> s[i] == BlockAt(mem, a, i)
  {
    seq(n, i requires 0 <= i < n => BlockAt(mem, a, i))
  }

  lemma AllAligned(m: Heap)
    requires m.Valid()
    ensures AlignedLive(m.live)
  {
    hide Tiled, Tiling.Aligned, Heads, Feet, IndexOk, TopOk, Partition, LiveOk;
    forall p | p in m.live ensures p % 8 == 0 && m.live[p] % 8 == 0 && m.live[p] >= 32 {
      LiveMeansTop(m, p);
      LegalSize(m, p);
    }
  }

  /** A block whose words were kept still shows the same bytes. */
  lemma ShowsKept(mem: Mem, mem': Mem, live: Sizes, live': Sizes, kept: Sizes, a: int, s: seq<int>)
    requires Shows(mem, live, a, s) && a - 16 in kept && kept[a - 16] == live[a - 16] && a - 16 in live'
        && live'[a - 16] == live[a - 16]
    requires BodiesSame(mem, mem', kept) && AlignedLive(live)
    ensures Shows(mem', live', a, s)
  {
    hide BodiesSame, BlockAt;
    forall i {:trigger BlockAt(mem', a, i)} | 0 <= i < |s| ensures BlockAt(mem', a, i) == s[i] {
      KeptByte(mem, mem', kept, a - 16, i);
    }
  }

  /** Nothing but kept blocks: the table stays. */
  lemma AgreeKept(mem: Mem, mem': Mem, live: Sizes, table: Table)
    requires Agree(mem, live, table) && BodiesSame(mem, mem', live) && AlignedLive(live)
    ensures Agree(mem', live, table)
  {
    hide BodiesSame, Shows;
    forall a {:trigger a in table} | a in table ensures Shows(mem', live, a,
        table[a]) { ShowsKept(mem, mem', live, live, live, a, table[a]); }
  }

  lemma AgreeAdded(mem: Mem, mem': Mem, live: Sizes, live': Sizes, table: Table, p: int, s: seq<int>)
    requires Agree(mem, live, table) && BodiesSame(mem, mem', live) && AlignedLive(live)
    requires p !in live && p in live' && live' == live[p := live'[p]] && Shows(mem', live', p + 16, s)
    ensures Agree(mem', live', table[p + 16 := s]) && p + 16 !in table
  {
    hide BodiesSame, Shows, Agree, AlignedLive;
    var t := table[p + 16 := s];
    NotListed(mem, live, table, p);
    forall a | a in t ensures a - 16 in live' && Shows(mem', live', a, t[a]) {
      if a != p + 16 { AddedElsewhere(mem, mem', live, live', table, p, a); }
    }
    forall q | q in live' ensures q + 16 in t {
      if q != p { Listed(mem, live, table, q); }
    }
    AgreeFrom(mem', live', t);
  }

  lemma AgreeFrom(mem: Mem, live: Sizes, t: Table)
    requires forall p :: p in live ==> p + 16 in t
    requires forall a :: a in t ==> a - 16 in live && Shows(mem, live, a, t[a])
    ensures Agree(mem, live, t)
  {
  }

  lemma Listed(mem: Mem, live: Sizes, table: Table, p: int)
    requires Agree(mem, live, table) && p in live
    ensures p + 16 in table
  {
  }

  lemma NotListed(mem: Mem, live: Sizes, table: Table, p: int)
    requires Agree(mem, live, table) && p !in live
    ensures p + 16 !in table
  {
  }

  lemma AddedElsewhere(mem: Mem, mem': Mem, live: Sizes, live': Sizes, table: Table, p: int, a: int)
    requires Agree(mem, live, table) && BodiesSame(mem, mem', live) && AlignedLive(live) && a in table
    requires p !in live && p in live' && live' == live[p := live'[p]]
    ensures a - 16 in live' && Shows(mem', live', a, table[a])
  {
    hide BodiesSame, Shows;
    ShowsKept(mem, mem', live, live', live, a, table[a]);
  }

  lemma AgreeRemoved(mem: Mem, mem': Mem, live: Sizes, table: Table, p: int)
    requires Agree(mem, live, table) && p in live && BodiesSame(mem, mem', live - {p}) && AlignedLive(live)
    ensures Agree(mem', live - {p}, table - {p + 16})
  {
    hide BodiesSame, Shows;
    var t, l := table - {p + 16}, live - {p};
    forall a {:trigger a in t} | a in t ensures a - 16 in l
        && Shows(mem', l, a, t[a]) { ShowsKept(mem, mem', live, l, l, a, table[a]); }
  }

  // ----- the calls -----

  datatype Op =
    | OpMalloc(bytes: int)
    | OpCalloc(n: int, e: int)
    | OpFree(a: int)
    | OpRealloc(a: int, bytes: int)
    | OpMemalign(alignment: int, bytes: int)
    | OpStore(a: int, i: int, v: int)
    | OpTrim(pad: int)
    | OpBulkFree(ptrs: seq<int>)
    | OpIndependent(elements: nat, sizes: seq<int>, same: bool, clear: bool, supplied: bool)

  predicate InRange(x: int) { 0 <= x < SIZE_RANGE }

  /** The arguments a caller may pass: sizes on size_t, and pointers that are null or live. */
  ghost predicate Allowed(op: Op, table: Table) {
    match op
    case OpMalloc(bytes) => InRange(bytes)
    case OpCalloc(n, e) => InRange(n) && InRange(e)
    case OpFree(a) => a == 0 || a in table
    case OpRealloc(a, bytes) => InRange(bytes) && (a == 0 || a in table)
    case OpMemalign(alignment, bytes) => InRange(bytes) && 0 <= alignment <= 0x8000_0000_0000_0000
    case OpStore(a, i, v) => a in table && 0 <= i < |table[a]| && 0 <= v < 256
    case OpTrim(pad) => InRange(pad)
    case OpBulkFree(ptrs) => Distinct(ptrs) && forall k :: 0 <= k < |ptrs| ==> ptrs[k] == 0 || ptrs[k] in table
    case OpIndependent(n, sizes, same, clear, supplied) =>
      |sizes| == (if same then 1 else n)
      && NoOverflow(n, sizes, same, supplied)
  }

  /** No pointer but null is listed twice. */
  predicate Distinct(ptrs: seq<int>) {
    forall j, k :: 0 <= j < |ptrs| && j < k < |ptrs| && ptrs[j] != 0 ==> ptrs[j] != ptrs[k]
  }

  /** No change when the call fails, else one new array of at least n bytes. */
  ghost predicate Fresh(fails: bool, t: Table, t': Table, n: int) {
    if fails then t' == t else exists a :: a !in t && a in t' && t' == t[a := t'[a]] && |t'[a]| >= n
  }

  /** The abstract effect of a call on the table, which fails exactly when v, the heap before it, has no room; a
      store writes one byte. */
  ghost predicate Effect(op: Op, v: View, t: Table, t': Table) {
    match op
    case OpMalloc(bytes) => Fresh(NoRoom(v, bytes), t, t', bytes)
    case OpCalloc(n, e) => if NoRoom(v, n * e) then t' == t else exists a ::
        a !in t && a in t' && t' == t[a := t'[a]] && |t'[a]| >= n * e
        && ZeroPrefix(t'[a], n * e)
    case OpFree(a) => t' == if a == 0 then t else t - {a}
    case OpRealloc(a, bytes) =>
      if a == 0 then Fresh(NoRoom(v, bytes), t, t', bytes)
      else a in t && if ReallocFails(v, a - 16, bytes) then t' == t else ReallocEffect(t, t', a, bytes)
    case OpMemalign(alignment, bytes) => if NoAligned(v, alignment, bytes) then t' == t else exists a ::
        a !in t && a in t' && t' == t[a := t'[a]]
        && |t'[a]| >= bytes && AlignedTo(a, alignment)
    case OpStore(a, i, v) => a in t && 0 <= i < |t[a]| && t' == t[a := t[a][i := v]]
    case OpTrim(pad) => t' == t
    case OpBulkFree(ptrs) => t' == t - (set a | a in ptrs)
    case OpIndependent(n, sizes, same, clear, supplied) =>
      |sizes| == (if same then 1 else n)
      && if MakesNothing(v, n, sizes, same, supplied) then t' == t
         else exists ptrs, arr :: NewBlocks(t, t', ptrs, Wanted(n, sizes, same), arr, clear)
  }

  /** When ialloc makes nothing: no elements in an array of the caller's, or no room for all of them. */
  ghost predicate MakesNothing(v: View, n: nat, sizes: seq<int>, same: bool, supplied: bool)
    requires |sizes| == if same then 1 else n
  {
    if n == 0 then supplied || NoRoom(v, 0) else NoRoom(v, WholeSize(n, sizes, same, supplied) - 8)
  }

  /** What the call does to the chunks and in dealing with the system. */
  ghost predicate Follows(op: Op, v0: View, v: View) {
    match op
    case OpMalloc(bytes) => Allocates(v0, v, RequestSize(bytes))
    case OpCalloc(n, e) => Allocates(v0, v, RequestSize(n * e))
    case OpFree(a) => FreedTo(v0, v, a)
    case OpRealloc(a, bytes) =>
      if a == 0 then Allocates(v0, v, RequestSize(bytes)) else if bytes >= MAX_REQUEST then v == v0
      else Reallocates(v0, v, a - 16, Request2Size(bytes))
    case OpMemalign(alignment, bytes) =>
      if alignment <= 16 then Allocates(v0, v, RequestSize(bytes))
      else exists a :: Rounded(alignment, a) && TriesAligned(v0, v, a, bytes)
    case OpStore(a, i, b) => v == v0
    case OpTrim(pad) => TrimmedTo(v0, v, pad)
    case OpBulkFree(ptrs) => BulkFreedTo(v0, v, ptrs)
    case OpIndependent(n, sizes, same, clear, supplied) =>
      |sizes| == (if same then 1 else n)
      && if n == 0 then if supplied then v == v0 else Allocates(v0, v, MIN_CHUNK_SIZE)
         else Divides(v0, v, WholeSize(n, sizes, same, supplied), ChunkSizes(n, sizes, same))
  }

  ghost predicate Allocates(v0: View, v: View, nb: int) { exists mem :: Allocated(v0, v, nb, mem) }

  ghost predicate Reallocates(v0: View, v: View, p0: int, nb: int) { exists mem :: ReallocatedTo(v0, v, p0, nb, mem) }

  ghost predicate TriesAligned(v0: View, v: View, a: int, bytes: int) {
    if bytes >= MAX_REQUEST - a then v == v0 else exists mem :: Aligns(v0, v, a, Request2Size(bytes), mem)
  }

  ghost predicate Divides(v0: View, v: View, size: int, reqs: seq<int>) {
    Allocated(v0, v, RequestSize(size - 8), 0) || exists arr, ptrs :: Aggregated(v0, v, size, reqs, arr, ptrs)
  }

  /** What sys_trim does to the chunks: nothing, but to top. */
  ghost predicate TrimmedTo(v0: View, v: View, pad: int) {
    && v.live == v0.live && v.chunks == v0.chunks && v.binned == v0.binned && v.victim == v0.victim && v.top == v0.top
    && v.bins == v0.bins && SameSystem(v0, v)
    && if v0.top == 0 || pad >= MAX_REQUEST then v.accounts == v0.accounts && v.sys.topsize == v0.sys.topsize
       else Trimmed(v0.accounts, v0.sys.topsize, v.accounts, v.sys.topsize, pad, v0.threshold)
  }

  /** The table has an array for each live block of the heap, as long as its usable size. */
  ghost predicate Matches(v: View, t: Table) {
    && (forall p :: p in v.live ==> p + 16 in t)
    && (forall a {:trigger a in t} :: a in t ==> a - 16 in v.live && |t[a]| == v.live[a - 16] - 8)
  }

  /** a is a multiple of some power of two that is no less than the alignment asked for. */
  ghost predicate AlignedTo(a: int, alignment: int) { exists q :: PowerFrom(q, alignment) && a % q == 0 }

  ghost predicate PowerFrom(q: int, alignment: int) { q >= alignment && q > 0 && exists k: nat :: q == Pow2(k) }

  function Wanted(n: nat, sizes: seq<int>, same: bool): (w: seq<int>)
    requires |sizes| == (if same then 1 else n)
    ensures |w| == n && forall k :: 0 <= k < n ==> w[k] == if same then sizes[0] else sizes[k]
  {
    seq(n, k requires 0 <= k < n => if same then sizes[0] else sizes[k])
  }

  /** New arrays at ptrs, one for each of the sizes, all zero when they are to be cleared, and possibly one more, at
      arr, for the pointers; the others are as they were. */
  ghost predicate NewBlocks(t: Table, t': Table, ptrs: seq<int>, sizes: seq<int>, arr: int, clear: bool) {
    && |ptrs| == |sizes|
    && (forall a :: a in t' <==> a in t || a in ptrs || (arr != 0 && a == arr))
    && (forall a :: a in t ==> a in t' && t'[a] == t[a])
    && (forall k {:trigger ptrs[k]} :: 0 <= k < |ptrs| ==> NewBlockAt(t, t', ptrs[k], sizes[k], arr, clear))
    && (forall j, k :: 0 <= j < k < |ptrs| ==> ptrs[j] != ptrs[k])
    && (arr != 0 ==> arr !in t && arr in t' && |t'[arr]| >= 8 * |ptrs|)
  }

  ghost predicate NewBlockAt(t: Table, t': Table, a: int, size: int, arr: int, clear: bool) {
    a !in t && a != arr && a in t' && |t'[a]| >= size && (clear ==> ZeroPrefix(t'[a], size))
  }

  ghost predicate ZeroPrefix(s: seq<int>, n: int) {
    forall i :: 0 <= i < n && i < |s| ==> s[i] == 0
  }

  ghost predicate SamePrefix(s: seq<int>, s': seq<int>, n: int) {
    forall i :: 0 <= i < n && i < |s| && i < |s'| ==> s'[i] == s[i]
  }

  ghost predicate ReallocEffect(t: Table, t': Table, a: int, bytes: int)
    requires a in t
  {
    exists b ::
      b in t' && (b == a || b !in t) && t' == (t - {a})[b := t'[b]] && |t'[b]| >= bytes
      && SamePrefix(t[a], t'[b], bytes)
  }

  /** The pointers a client holds after a call that gave it `got`. */
  function Held(held: set<int>, op: Op, got: set<int>): set<int> {
    match op
    case OpFree(a) => if a == 0 then held else held - {a}
    case OpRealloc(a, bytes) => if got == {} then held else (if a == 0 then held else held - {a}) + got
    case OpStore(_, _, _) => held
    case OpTrim(_) => held
    case OpBulkFree(ptrs) => held - (set a | a in ptrs)
    case _ => held + got
  }

  function One(mem: int): set<int> { if mem == 0 then {} else {mem} }

  lemma FreshBlock(mem: Mem, mem': Mem, live: Sizes, live': Sizes, table: Table, p: int, bytes: int)
      returns (table': Table)
    requires Agree(mem, live, table) && BodiesSame(mem, mem', live) && AlignedLive(live)
    requires p !in live && p in live' && live' == live[p := live'[p]] && bytes + 8 <= live'[p] && live'[p] >= 8
    ensures table' == table[p + 16 := Contents(mem', p + 16, live'[p] - 8)] && p + 16 !in table
    ensures Agree(mem', live', table') && Fresh(false, table, table', bytes)
  {
    var s := Contents(mem', p + 16, live'[p] - 8);
    assert Shows(mem', live', p + 16, s);
    hide Shows, BodiesSame;
    AgreeAdded(mem, mem', live, live', table, p, s);
    table' := table[p + 16 := s];
    assert table'[p + 16] == s;
  }

  lemma SizeHolds(bytes: int)
    requires 0 <= bytes < MAX_REQUEST
    ensures RequestSize(bytes) == Request2Size(bytes) >= bytes + 8 && Request2Size(bytes) >= 32
  {
    LeastSize(bytes, MIN_CHUNK_SIZE);
  }

  method DoMalloc(m: Heap, bytes: int, ghost table: Table) returns (mem: int, ghost table': Table)
    requires m.Valid() && Agree(m.mem, m.live, table) && InRange(bytes)
    modifies m
    ensures m.Valid() && Agree(m.mem, m.live, table') && Effect(OpMalloc(bytes), old(ViewOf(m)), table, table')
    ensures Follows(OpMalloc(bytes), old(ViewOf(m)), ViewOf(m))
    ensures table'.Keys == Held(table.Keys, OpMalloc(bytes), One(mem))
  {
    hide Tiled, Tiling.Aligned, Heads, Feet, IndexOk, TopOk, Partition, LiveOk, BodiesSame, Agree,
        Exhausted, ServedFrom, Denied, BrkOk, AlignedLive, Allocated, NoRoom;
    ghost var mem0, live0 := m.mem, m.live;
    AllAligned(m);
    mem := Malloc(m, bytes);
    table' := table;
    if mem == 0 {
      AgreeKept(mem0, m.mem, live0, table);
    } else {
      SizeHolds(bytes);
      table' := FreshBlock(mem0, m.mem, live0, m.live, table, mem - 16, bytes);
    }
  }

  lemma ZeroShown(mem: Mem, a: int, n: int, k: nat)
    requires Zeroed(mem, a, n)
    ensures ZeroPrefix(Contents(mem, a, k), n)
  {
    hide BlockAt;
    var s := Contents(mem, a, k);
    forall i | 0 <= i < n && i < |s| ensures s[i] == 0 { assert s[i] == BlockAt(mem, a, i); }
  }

  method DoCalloc(m: Heap, n: int, e: int, ghost table: Table) returns (mem: int, ghost table': Table)
    requires m.Valid() && Agree(m.mem, m.live, table) && InRange(n) && InRange(e)
    modifies m
    ensures m.Valid() && Agree(m.mem, m.live, table') && Effect(OpCalloc(n, e), old(ViewOf(m)), table, table')
    ensures Follows(OpCalloc(n, e), old(ViewOf(m)), ViewOf(m))
    ensures table'.Keys == Held(table.Keys, OpCalloc(n, e), One(mem))
  {
    hide Tiled, Tiling.Aligned, Heads, Feet, IndexOk, TopOk, Partition, LiveOk, BodiesSame, Agree, BrkOk,
        AlignedLive, Zeroed, RequestSize, ZeroPrefix, Allocated, NoRoom;
    ghost var mem0, live0 := m.mem, m.live;
    AllAligned(m);
    mem := Calloc(m, n, e);
    table' := table;
    if mem == 0 {
      AgreeKept(mem0, m.mem, live0, table);
    } else {
      ghost var k := n * e;
      MulNonNeg(n, e);
      table' := FreshBlock(mem0, m.mem, live0, m.live, table, mem - 16, k);
      ZeroShown(m.mem, mem, k, m.live[mem - 16] - 8);
    }
  }

  method DoFree(m: Heap, a: int, ghost table: Table) returns (ghost table': Table)
    requires m.Valid() && Agree(m.mem, m.live, table) && (a == 0 || a in table)
    modifies m
    ensures m.Valid() && Agree(m.mem, m.live, table') && Effect(OpFree(a), old(ViewOf(m)), table, table')
    ensures Follows(OpFree(a), old(ViewOf(m)), ViewOf(m))
    ensures table'.Keys == Held(table.Keys, OpFree(a), {})
  {
    hide Tiled, Tiling.Aligned, Heads, Feet, IndexOk, TopOk, Partition, LiveOk, BodiesSame, Agree, BrkOk,
        AlignedLive, Shows, FreedTo;
    ghost var mem0, live0 := m.mem, m.live;
    AllAligned(m);
    InTable(m.mem, m.live, table, a);
    Free(m, a);
    if a == 0 {
      table' := table;
      AgreeKept(mem0, m.mem, live0, table);
    } else {
      table' := table - {a};
      AgreeRemoved(mem0, m.mem, live0, table, a - 16);
    }
  }

  lemma InTable(mem: Mem, live: Sizes, table: Table, a: int)
    requires Agree(mem, live, table)
    ensures a in table ==> a - 16 in live && |table[a]| == live[a - 16] - 8 && Shows(mem, live, a, table[a])
  {
  }

  /** The block moved or stayed; either way it starts with its old bytes. */
  lemma PrefixKept(mem0: Mem, mem: Mem, live0: Sizes, live: Sizes, a: int, b: int, s: seq<int>, bytes: int)
    requires Shows(mem0, live0, a, s) && Moved(mem0, mem, a, b, Min(live0[a - 16] - 8, bytes)) && b - 16 in live
        && live[b - 16] >= 8
    ensures SamePrefix(s, Contents(mem, b, live[b - 16] - 8), bytes)
  {
    hide BlockAt;
    var s' := Contents(mem, b, live[b - 16] - 8);
    forall i | 0 <= i < bytes && i < |s| && i < |s'| ensures s'[i] == s[i] {
      assert s'[i] == BlockAt(mem, b, i) && BlockAt(mem0, a, i) == s[i];
    }
  }

  lemma NoChange(mem: Mem, live: Sizes)
    ensures BodiesSame(mem, mem, live)
  {
  }

  lemma ReallocShown(mem0: Mem, mem: Mem, live0: Sizes, live: Sizes, table: Table, a: int, b: int, nb: int,
      bytes: int) returns (table': Table)
    requires Agree(mem0, live0, table) && a in table && AlignedLive(live0) && AlignedLive(live - {b - 16})
    requires Reallocated(mem0, mem, live0, live, a - 16, b - 16, nb, bytes) && nb >= bytes + 8 && nb >= 32
    ensures Agree(mem, live, table') && a in table && ReallocEffect(table, table', a, bytes)
    ensures table'.Keys == table.Keys - {a} + {b}
  {
    hide BodiesSame, Moved, Agree, AlignedLive, Shows, SamePrefix;
    InTable(mem0, live0, table, a);
    PrefixKept(mem0, mem, live0, live, a, b, table[a], bytes);
    AgreeRemoved(mem0, mem, live0, table, a - 16);
    NoChange(mem, live0 - {a - 16});
    OthersAligned(live0, live, a - 16, b - 16);
    table' := FreshBlock(mem, mem, live0 - {a - 16}, live, table - {a}, b - 16, bytes);
    TableKeys(mem0, live0, table, b);
    assert table'[b] == Contents(mem, b, live[b - 16] - 8);
  }

  lemma OthersAligned(live0: Sizes, live: Sizes, p0: int, p: int)
    requires AlignedLive(live0)
    ensures AlignedLive(live0 - {p0})
  {
  }

  lemma TableKeys(mem: Mem, live: Sizes, table: Table, b: int)
    requires Agree(mem, live, table)
    ensures b - 16 !in live ==> b !in table
  {
  }

  method DoRealloc(m: Heap, a: int, bytes: int, ghost table: Table) returns (mem: int, ghost table': Table)
    requires m.Valid() && Agree(m.mem, m.live, table) && InRange(bytes) && (a == 0 || a in table)
    modifies m
    ensures m.Valid() && Agree(m.mem, m.live, table') && Effect(OpRealloc(a, bytes), old(ViewOf(m)), table, table')
    ensures Follows(OpRealloc(a, bytes), old(ViewOf(m)), ViewOf(m))
    ensures table'.Keys == Held(table.Keys, OpRealloc(a, bytes), One(mem))
  {
    hide Tiled, Tiling.Aligned, Heads, Feet, IndexOk, TopOk, Partition, LiveOk, BodiesSame, Agree, BrkOk,
        AlignedLive, Reallocated, InPlace, Shows, Allocated, NoRoom, ReallocatedTo, ReallocFails, ReallocEffect;
    ghost var mem0, live0 := m.mem, m.live;
    AllAligned(m);
    InTable(m.mem, m.live, table, a);
    mem := Realloc(m, a, bytes);
    table' := table;
    if mem == 0 {
      NoChange(mem0, live0);
    } else {
      SizeHolds(bytes);
      if a == 0 {
        table' := FreshBlock(mem0, m.mem, live0, m.live, table, mem - 16, bytes);
      } else {
        AllAligned(m);
        OthersAligned(m.live, m.live, mem - 16, 0);
        table' := ReallocShown(mem0, m.mem, live0, m.live, table, a, mem, Request2Size(bytes), bytes);
      }
    }
  }

  method DoMemalign(m: Heap, alignment: int, bytes: int, ghost table: Table) returns (mem: int, ghost table': Table)
    requires m.Valid() && Agree(m.mem, m.live, table) && InRange(bytes) && 0 <= alignment <= 0x8000_0000_0000_0000
    modifies m
    ensures m.Valid() && Agree(m.mem, m.live, table')
        && Effect(OpMemalign(alignment, bytes), old(ViewOf(m)), table, table')
    ensures Follows(OpMemalign(alignment, bytes), old(ViewOf(m)), ViewOf(m))
    ensures table'.Keys == Held(table.Keys, OpMemalign(alignment, bytes), One(mem))
  {
    hide Tiled, Tiling.Aligned, Heads, Feet, IndexOk, TopOk, Partition, LiveOk, BodiesSame, Agree, BrkOk,
        AlignedLive, Allocated, NoRoom, Aligns, NoAligned;
    ghost var mem0, live0 := m.mem, m.live;
    AllAligned(m);
    mem := Memalign(m, alignment, bytes);
    table' := table;
    if mem == 0 {
      NoChange(mem0, live0);
    } else {
      SizeHolds(bytes);
      ghost var a :| a >= alignment && (exists k: nat :: a == Pow2(k))
          && AlignedBlockOf(live0, m.live, Request2Size(bytes), a, mem);
      assert PowerFrom(a, alignment) && mem % a == 0;
      table' := FreshBlock(mem0, m.mem, live0, m.live, table, mem - 16, bytes);
    }
  }

  lemma PointerAligned(live: Sizes, a: int)
    requires AlignedLive(live) && a - 16 in live
    ensures a % 8 == 0 && live[a - 16] % 8 == 0
  {
    assert (a - 16) % 8 == 0 && live[a - 16] % 8 == 0;
    Bits.DivUnique(a, 8, (a - 16) / 8 + 2, 0);
  }

  /** The word that holds byte i of the block at a, with the byte replaced. */
  function StoredWord(mem: Mem, a: int, i: nat, v: int): int { WithByte(Rd(mem, Word(a, i / 8)), i % 8, v) }

  lemma StoreShown(mem: Mem, live: Sizes, a: int, s: seq<int>, i: nat, v: int)
    requires Shows(mem, live, a, s) && a % 8 == 0 && i < |s| && 0 <= v < 256
    ensures Shows(mem[Word(a, i / 8) := StoredWord(mem, a, i, v)], live, a, s[i := v])
    ensures live[a - 16] % 8 == 0 ==>
        OnlyPayload(mem, mem[Word(a, i / 8) := StoredWord(mem, a, i, v)], a - 16, live[a - 16])
  {
    hide BlockAt, Byte, WithByte, Word;
    var mem', s' := mem[Word(a, i / 8) := StoredWord(mem, a, i, v)], s[i := v];
    forall b {:trigger BlockAt(mem', a, b)} | 0 <= b < |s'| ensures BlockAt(mem', a, b) == s'[b] {
      ByteStored(mem, a, i, v, b);
      assert BlockAt(mem, a, b) == s[b];
    }
    if live[a - 16] % 8 == 0 { WordInside(a, i, live[a - 16]); }
  }

  lemma WordInside(a: int, i: nat, size: int)
    requires i < size - 8 && size % 8 == 0
    ensures a <= Word(a, i / 8) <= a - 16 + size
  {
  }

  lemma ByteStored(mem: Mem, a: int, i: nat, v: int, b: nat)
    requires a % 8 == 0 && 0 <= v < 256
    ensures BlockAt(mem[Word(a, i / 8) := StoredWord(mem, a, i, v)], a, b) == if b == i then v else BlockAt(mem, a, b)
  {
    hide BlockAt, Byte, WithByte;
    var mem' := mem[Word(a, i / 8) := StoredWord(mem, a, i, v)];
    BlockByte(mem', a, b);
    BlockByte(mem, a, b);
    if b / 8 == i / 8 { ByteReplaced(Rd(mem, Word(a, i / 8)), i % 8, v, b % 8); }
  }

  /** The owner of a block stores a byte. */
  method DoStore(m: Heap, a: int, i: int, v: int, ghost table: Table) returns (ghost table': Table)
    requires m.Valid() && Agree(m.mem, m.live, table) && a in table && 0 <= i < |table[a]| && 0 <= v < 256
    modifies m
    ensures m.Valid() && Agree(m.mem, m.live, table') && Effect(OpStore(a, i, v), old(ViewOf(m)), table, table')
    ensures Follows(OpStore(a, i, v), old(ViewOf(m)), ViewOf(m))
    ensures table'.Keys == table.Keys
  {
    hide Tiled, Tiling.Aligned, Heads, Feet, IndexOk, TopOk, Partition, LiveOk, BodiesSame, Agree, BrkOk,
        AlignedLive, Shows, OnlyPayload, StoredWord, Word;
    ghost var mem0, live0 := m.mem, m.live;
    AllAligned(m);
    InTable(m.mem, m.live, table, a);
    ghost var s := table[a];
    PointerAligned(m.live, a);
    ghost var s' := s[i := v];
    StoreShown(m.mem, m.live, a, s, i, v);
    SetPayload(m, a - 16, m.mem[Word(a, i / 8) := StoredWord(m.mem, a, i, v)]);
    AgreeRemoved(mem0, m.mem, live0, table, a - 16);
    NoChange(m.mem, live0 - {a - 16});
    OthersAligned(live0, live0, a - 16, 0);
    table' := table[a := s'];
    assert (table - {a})[a := s'] == table';
    assert (live0 - {a - 16})[a - 16 := live0[a - 16]] == live0;
    AgreeAdded(m.mem, m.mem, live0 - {a - 16}, live0, table - {a}, a - 16, s');
  }

  method DoTrim(m: Heap, pad: int, ghost table: Table)
    requires m.Valid() && Agree(m.mem, m.live, table) && InRange(pad)
    modifies m
    ensures m.Valid() && Agree(m.mem, m.live, table)
    ensures Follows(OpTrim(pad), old(ViewOf(m)), ViewOf(m))
  {
    hide Tiled, Tiling.Aligned, Heads, Feet, IndexOk, TopOk, Partition, LiveOk, BodiesSame, Agree, BrkOk, AlignedLive;
    ghost var mem0 := m.mem;
    AllAligned(m);
    var done := SysTrim(m, pad);
    AgreeKept(mem0, m.mem, m.live, table);
  }
}
