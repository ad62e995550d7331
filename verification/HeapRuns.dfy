/** Whole runs: whatever its clients call, the heap stays well formed and behaves as a table of byte
    arrays, one for each live block, that change only when their owners store into them. */
module HeapRuns {
  import opened BinIndex
  import opened Memory
  import opened Bytes
  import opened Tiling
  import opened Index
  import opened HeapState
  import opened HeapViews
  import opened HeapMalloc
  import opened HeapRelease
  import opened HeapIalloc
  import opened HeapBulk
  import opened HeapTables
  import HeapRealloc
  import HeapMemalign
  import HeapChecks
  import Macros

  // ----- calls that change many blocks -----

  /** The table of a heap: there is only one. */
  ghost function TableOf(mem: Mem, live: Sizes): Table {
    map a | a in (set p | p in live :: p + 16) :: ShownAt(mem, live, a)
  }

  ghost function ShownAt(mem: Mem, live: Sizes, a: int): seq<int> {
    if a - 16 in live && live[a - 16] >= 8 then HeapTables.Contents(mem, a, live[a - 16] - 8) else []
  }

  lemma TableAgrees(mem: Mem, live: Sizes)
    requires AlignedLive(live)
    ensures Agree(mem, live, TableOf(mem, live))
  {
    hide Shows, TableOf, AlignedLive;
    var t := TableOf(mem, live);
    forall p | p in live ensures p + 16 in t { EntryOf(mem, live, p + 16); }
    forall a {:trigger a in t} | a in t ensures a - 16 in live && Shows(mem, live, a, t[a]) {
      EntryOf(mem, live, a);
      EntrySize(live, a);
      ShowsShown(mem, live, a);
    }
  }

  lemma EntryOf(mem: Mem, live: Sizes, a: int)
    ensures a in TableOf(mem, live) <==> a - 16 in live
    ensures a in TableOf(mem, live) ==> TableOf(mem, live)[a] == ShownAt(mem, live, a)
  {
    hide ShownAt;
    if a - 16 in live { assert a == a - 16 + 16; }
  }

  lemma EntrySize(live: Sizes, a: int)
    requires AlignedLive(live) && a - 16 in live
    ensures live[a - 16] >= 8
  {
  }

  lemma ShowsShown(mem: Mem, live: Sizes, a: int)
    requires a - 16 in live && live[a - 16] >= 8
    ensures Shows(mem, live, a, ShownAt(mem, live, a))
  {
    hide BlockAt;
  }

  /** A block that kept its size and its words keeps its bytes. */
  lemma EntryKept(mem0: Mem, mem: Mem, live0: Sizes, live: Sizes, kept: Sizes, t: Table, a: int)
    requires Agree(mem0, live0, t) && a in t && a - 16 in kept && kept[a - 16] == live0[a - 16]
    requires a - 16 in live && live[a - 16] == live0[a - 16] && BodiesSame(mem0, mem, kept) && AlignedLive(live0)
    ensures a in TableOf(mem, live) && TableOf(mem, live)[a] == t[a]
  {
    hide BlockAt, BodiesSame, TableOf;
    EntryOf(mem, live, a);
    ShowsKept(mem0, mem, live0, live, kept, a, t[a]);
    assert ShownAt(mem, live, a) == t[a];
  }

  // ----- bulk_free -----

  lemma TargetsOf(mem: Mem, live: Sizes, t: Table, ptrs: seq<int>)
    requires Agree(mem, live, t) && Distinct(ptrs) && forall k :: 0 <= k < |ptrs| ==> ptrs[k] == 0 || ptrs[k] in t
    ensures Targets(live, ptrs, 0)
  {
  }

  /** The blocks the array does not list are those whose pointers it does not list. */
  lemma NotFreed(mem: Mem, live: Sizes, t: Table, ptrs: seq<int>, a: int)
    requires Agree(mem, live, t) && 0 !in t
    ensures a in t && a !in ptrs <==> a - 16 in Without(live, ptrs)
    ensures a in t && a !in ptrs ==> Without(live, ptrs)[a - 16] == live[a - 16]
  {
    if a in t && a !in ptrs {
      assert Kept(a - 16, ptrs, 0);
    }
    if a - 16 in Without(live, ptrs) {
      assert a - 16 + 16 in t;
    }
  }

  lemma BulkFreed(mem0: Mem, mem: Mem, live0: Sizes, t: Table, ptrs: seq<int>)
    requires Agree(mem0, live0, t) && AlignedLive(live0) && BodiesSame(mem0, mem, Without(live0, ptrs)) && 0 !in t
    ensures TableOf(mem, Without(live0, ptrs)) == t - (set a | a in ptrs)
  {
    hide BodiesSame, Agree, AlignedLive, Without, TableOf;
    var live := Without(live0, ptrs);
    var t', t'' := TableOf(mem, live), t - (set a | a in ptrs);
    forall a ensures a in t' <==> a in t'' { NotFreed(mem0, live0, t, ptrs, a); EntryOf(mem, live, a); }
    forall a | a in t' ensures t'[a] == t''[a] {
      NotFreed(mem0, live0, t, ptrs, a);
      EntryOf(mem, live, a);
      SizeIn(mem0, live0, t, a);
      EntryKept(mem0, mem, live0, live, live, t, a);
    }
  }

  lemma SizeIn(mem: Mem, live: Sizes, t: Table, a: int)
    requires Agree(mem, live, t) && a in t
    ensures a - 16 in live
  {
  }

  lemma NullNotIn(m: Heap, t: Table)
    requires m.Valid() && Agree(m.mem, m.live, t)
    ensures 0 !in t
  {
    hide Tiled, Tiling.Aligned, Heads, Feet, IndexOk, TopOk, Partition, LiveOk, Shows;
    if 0 in t {
      LiveMeansTop(m, -16);
      HeapRealloc.LegalSize(m, -16);
    }
  }

  method DoBulkFree(m: Heap, ptrs: seq<int>, ghost table: Table) returns (ghost table': Table)
    requires m.Valid() && Agree(m.mem, m.live, table) && Allowed(OpBulkFree(ptrs), table)
    modifies m
    ensures m.Valid() && Agree(m.mem, m.live, table') && Effect(OpBulkFree(ptrs), old(ViewOf(m)), table, table')
    ensures Follows(OpBulkFree(ptrs), old(ViewOf(m)), ViewOf(m))
    ensures table'.Keys == Held(table.Keys, OpBulkFree(ptrs), {})
  {
    hide Tiled, Tiling.Aligned, Heads, Feet, IndexOk, TopOk, Partition, LiveOk, BodiesSame, Agree, BrkOk,
        AlignedLive, Targets, Without, Distinct, TableOf, BulkFreedTo, Heap.Inv, Heap.Uninitialised;
    ghost var mem0, live0 := m.mem, m.live;
    AllAligned(m);
    NullNotIn(m, table);
    TargetsOf(m.mem, m.live, table, ptrs);
    var arr := new int[|ptrs|](i requires 0 <= i < |ptrs| => ptrs[i]);
    assert arr[..] == ptrs;
    var unfreed := BulkFree(m, arr, |ptrs|);
    AllAligned(m);
    BulkFreed(mem0, m.mem, live0, table, ptrs);
    TableAgrees(m.mem, m.live);
    table' := TableOf(m.mem, m.live);
  }

  // ----- independent_calloc and independent_comalloc -----

  lemma DividedApart(p0: int, reqs: seq<int>, ptrs: seq<int>, j: nat, k: nat)
    requires Pointers(ptrs, p0, reqs, |reqs|) && Legal(reqs) && j < k < |reqs|
    ensures ptrs[j] != ptrs[k]
  {
    hide Sum;
    SumMono(reqs, j, k);
    assert ptrs[j] == p0 + Sum(reqs, j) + 16 && ptrs[k] == p0 + Sum(reqs, k) + 16;
  }

  function ArrayAt(arr: PointerArray): int { if arr.InHeap? then arr.at else 0 }

  /** The blocks before the division: the others, and the pointer array when it is a block. */
  function WithArray(live0: Sizes, arr: PointerArray, s: int): Sizes {
    if arr.InHeap? then live0[arr.at - 16 := s] else live0
  }

  lemma IndependentFacts(live0: Sizes, live: Sizes, reqs: seq<int>, arr: PointerArray, ptrs: seq<int>, p0: int,
      total: int, s: int)
    requires IndependentAt(live0, live, reqs, arr, ptrs, p0, total, s) && Legal(reqs)
    ensures Divided(WithArray(live0, arr, s), live, p0, total, reqs, ptrs) && Sum(reqs, |reqs|) <= total
        && Apart(live0, p0, total) && |ptrs| == |reqs| > 0
    ensures Pointers(ptrs, p0, reqs, |reqs|)
    ensures arr.InHeap? ==> arr.at - 16 == p0 + total && arr.at - 16 !in live0 && s >= 8 * |reqs| + 8
  {
    hide Sum, Legal;
    SumMono(reqs, 0, |reqs|);
  }

  /** Every key of the new table is an old one, an element, or the array. */
  lemma IndependentKeys(live0: Sizes, live: Sizes, reqs: seq<int>, arr: PointerArray, ptrs: seq<int>, p0: int,
      total: int, s: int, a: int)
    requires IndependentAt(live0, live, reqs, arr, ptrs, p0, total, s) && Legal(reqs)
    ensures a - 16 in live ==> a - 16 in live0 || a in ptrs || (arr.InHeap? && a == arr.at)
    ensures a - 16 in live0 ==>
        a - 16 in live && live[a - 16] == live0[a - 16] && a !in ptrs && (arr.InHeap? ==> a != arr.at)
    ensures arr.InHeap? && a == arr.at ==> a - 16 in live && live[a - 16] >= 8 * |ptrs| + 8 && a !in ptrs
    ensures a in ptrs ==> a - 16 in live
  {
    hide IndependentAt, Divided, Sum, Legal;
    IndependentFacts(live0, live, reqs, arr, ptrs, p0, total, s);
    var live1 := WithArray(live0, arr, s);
    DividedKeys(live1, live, p0, total, reqs, ptrs, a - 16);
    if a in ptrs {
      var k: nat :| k < |ptrs| && ptrs[k] == a;
      DividedAt(live1, live, p0, total, reqs, ptrs, k);
    }
  }

  lemma ElementShown(mem: Mem, live: Sizes, p0: int, reqs: seq<int>, k: nat, size: int, clear: bool)
    requires k < |reqs| && size + 8 <= reqs[k] && (clear ==> ElementsZero(mem, p0, reqs))
    requires p0 + Sum(reqs, k) in live && live[p0 + Sum(reqs, k)] >= reqs[k] && size >= 0
    ensures var s := ShownAt(mem, live, p0 + Sum(reqs, k) + 16); |s| >= size && (clear ==> ZeroPrefix(s, size))
  {
    hide BlockAt, Sum;
    var a := p0 + Sum(reqs, k) + 16;
    assert a - 16 == p0 + Sum(reqs, k);
    var s := ShownAt(mem, live, a);
    if clear {
      forall i | 0 <= i < size && i < |s| ensures s[i] == 0 { assert s[i] == BlockAt(mem, p0 + Sum(reqs, k) + 16, i); }
    }
  }

  /** What a request for `elements` blocks of these sizes leaves in the table. */
  lemma IndependentShown(mem0: Mem, mem: Mem, live0: Sizes, live: Sizes, t: Table, sizes: seq<int>, reqs: seq<int>,
      arr: PointerArray, ptrs: seq<int>, clear: bool)
    requires Agree(mem0, live0, t) && AlignedLive(live0) && BodiesSame(mem0, mem, live0)
    requires Independent(live0, live, reqs, arr, ptrs) && Legal(reqs) && |sizes| == |reqs|
    requires forall k :: 0 <= k < |sizes| ==> 0 <= sizes[k] && sizes[k] + 8 <= reqs[k]
    requires clear ==> |ptrs| > 0 && ElementsZero(mem, ptrs[0] - 16, reqs)
    requires 0 !in TableOf(mem, live)
    ensures NewBlocks(t, TableOf(mem, live), ptrs, sizes, ArrayAt(arr), clear)
  {
    hide Sum, BodiesSame, AlignedLive, Agree, ElementsZero, TableOf, ShownAt, IndependentAt, Divided, Legal, NewBlockAt;
    var p0: int, total: int, s: int :| IndependentAt(live0, live, reqs, arr, ptrs, p0, total, s);
    var t' := TableOf(mem, live);
    IndependentFacts(live0, live, reqs, arr, ptrs, p0, total, s);
    ArrayNotNull(mem, live0, live, reqs, arr, ptrs, p0, total, s);
    forall a ensures a in t' <==> a in t || a in ptrs || (ArrayAt(arr) != 0 && a == ArrayAt(arr)) {
      IndependentKeys(live0, live, reqs, arr, ptrs, p0, total, s, a);
      EntryOf(mem, live, a);
      KeyOf(mem0, live0, t, a);
    }
    forall a | a in t ensures a in t' && t'[a] == t[a] {
      IndependentKeys(live0, live, reqs, arr, ptrs, p0, total, s, a);
      KeyOf(mem0, live0, t, a);
      EntryKept(mem0, mem, live0, live, live0, t, a);
    }
    forall k {:trigger ptrs[k]} | 0 <= k < |ptrs| ensures NewBlockAt(t, t', ptrs[k], sizes[k], ArrayAt(arr), clear) {
      ElementNew(mem0, mem, live0, live, t, sizes, reqs, arr, ptrs, clear, p0, total, s, k);
    }
    forall j, k | 0 <= j < k < |ptrs| ensures ptrs[j] != ptrs[k] { DividedApart(p0, reqs, ptrs, j, k); }
    ArrayNew(mem0, mem, live0, live, t, reqs, arr, ptrs, p0, total, s);
  }

  lemma KeyOf(mem: Mem, live: Sizes, t: Table, a: int)
    requires Agree(mem, live, t)
    ensures a in t <==> a - 16 in live
  {
    if a - 16 in live { assert a - 16 + 16 in t; }
  }

  lemma ArrayNotNull(mem: Mem, live0: Sizes, live: Sizes, reqs: seq<int>, arr: PointerArray, ptrs: seq<int>, p0: int,
      total: int, s: int)
    requires IndependentAt(live0, live, reqs, arr, ptrs, p0, total, s) && Legal(reqs) && 0 !in TableOf(mem, live)
    ensures arr.InHeap? <==> ArrayAt(arr) != 0
  {
    hide IndependentAt, Legal, TableOf;
    if arr.InHeap? {
      IndependentKeys(live0, live, reqs, arr, ptrs, p0, total, s, arr.at);
      EntryOf(mem, live, arr.at);
    }
  }

  lemma ArrayNew(mem0: Mem, mem: Mem, live0: Sizes, live: Sizes, t: Table, reqs: seq<int>, arr: PointerArray,
      ptrs: seq<int>, p0: int, total: int, s: int)
    requires Agree(mem0, live0, t) && IndependentAt(live0, live, reqs, arr, ptrs, p0, total, s) && Legal(reqs)
    ensures arr.InHeap? ==> arr.at !in t && arr.at in TableOf(mem, live) && |TableOf(mem, live)[arr.at]| >= 8 * |ptrs|
  {
    hide IndependentAt, Legal, TableOf, Agree, BlockAt;
    if arr.InHeap? {
      IndependentFacts(live0, live, reqs, arr, ptrs, p0, total, s);
      IndependentKeys(live0, live, reqs, arr, ptrs, p0, total, s, arr.at);
      EntryOf(mem, live, arr.at);
      KeyOf(mem0, live0, t, arr.at);
    }
  }

  lemma ElementNew(mem0: Mem, mem: Mem, live0: Sizes, live: Sizes, t: Table, sizes: seq<int>, reqs: seq<int>,
      arr: PointerArray, ptrs: seq<int>, clear: bool,
                   p0: int, total: int, s: int, k: nat)
    requires Agree(mem0, live0, t) && IndependentAt(live0, live, reqs, arr, ptrs, p0, total, s) && Legal(reqs)
        && |sizes| == |reqs|
    requires k < |ptrs| && |ptrs| == |reqs| && 0 <= sizes[k] && sizes[k] + 8 <= reqs[k]
    requires clear ==> ElementsZero(mem, ptrs[0] - 16, reqs)
    requires 0 !in TableOf(mem, live)
    ensures NewBlockAt(t, TableOf(mem, live), ptrs[k], sizes[k], ArrayAt(arr), clear)
  {
    hide Sum, Agree, ElementsZero, TableOf, ShownAt, IndependentAt, Divided, Legal;
    var a, live1 := ptrs[k], WithArray(live0, arr, s);
    IndependentFacts(live0, live, reqs, arr, ptrs, p0, total, s);
    DividedAt(live1, live, p0, total, reqs, ptrs, k);
    FirstAt(live1, live, p0, total, reqs, ptrs);
    IndependentKeys(live0, live, reqs, arr, ptrs, p0, total, s, a);
    EntryOf(mem, live, a);
    KeyOf(mem0, live0, t, a);
    ElementShown(mem, live, p0, reqs, k, sizes[k], clear);
    if arr.InHeap? { IndependentKeys(live0, live, reqs, arr, ptrs, p0, total, s, arr.at); }
  }

  lemma FirstAt(live0: Sizes, live: Sizes, p0: int, total: int, reqs: seq<int>, ptrs: seq<int>)
    requires Divided(live0, live, p0, total, reqs, ptrs)
    ensures |ptrs| > 0 && ptrs[0] == p0 + 16
  {
    assert ptrs[0] == p0 + Sum(reqs, 0) + 16;
  }

  /** One more block stands for an empty array. */
  lemma EmptyShown(mem0: Mem, mem: Mem, live0: Sizes, live: Sizes, t: Table, p: int, clear: bool)
    requires Agree(mem0, live0, t) && AlignedLive(live0) && BodiesSame(mem0, mem, live0)
    requires p !in live0 && p in live && live == live0[p := live[p]] && p + 16 != 0
    ensures NewBlocks(t, TableOf(mem, live), [], [], p + 16, clear)
  {
    hide BodiesSame, AlignedLive, Agree, TableOf, ShownAt, NewBlockAt;
    var t' := TableOf(mem, live);
    forall a ensures a in t' <==> a in t || a == p + 16 {
      EntryOf(mem, live, a);
      KeyOf(mem0, live0, t, a);
    }
    KeyOf(mem0, live0, t, p + 16);
    forall a | a in t ensures a in t' && t'[a] == t[a] {
      KeyOf(mem0, live0, t, a);
      EntryKept(mem0, mem, live0, live, live0, t, a);
    }
  }

  lemma WantedFits(n: nat, sizes: seq<int>, same: bool)
    requires |sizes| == (if same then 1 else n) && forall i :: 0 <= i < |sizes| ==> Padded(sizes[i])
    ensures var w, reqs := Wanted(n, sizes, same), ChunkSizes(n, sizes, same);
            && |w| == |reqs| == n && Legal(reqs) && forall k :: 0 <= k < n ==> 0 <= w[k] && w[k] + 8 <= reqs[k]
  {
    hide Request2Size;
    SizesLegal(n, sizes, same);
    forall k | 0 <= k < n ensures 0 <= Wanted(n, sizes, same)[k]
        && Wanted(n, sizes, same)[k] + 8 <= ChunkSizes(n, sizes, same)[k] {
      LeastSize(if same then sizes[0] else sizes[k], MIN_CHUNK_SIZE);
    }
  }

  /** The pointers ialloc hands out. */
  function Got(r: Result): set<int> {
    match r
    case Null => {}
    case Unchanged => {}
    case Empty(mem) => {mem}
    case Elements(arr, ptrs) => (set a | a in ptrs) + if arr.InHeap? then {arr.at} else {}
  }

  lemma GotKeys(t: Table, t': Table, ptrs: seq<int>, sizes: seq<int>, arr: PointerArray, clear: bool)
    requires NewBlocks(t, t', ptrs, sizes, ArrayAt(arr), clear) && (arr.InHeap? ==> arr.at != 0)
    ensures t'.Keys == t.Keys + Got(Elements(arr, ptrs))
  {
    hide NewBlockAt;
    forall a ensures a in t'.Keys <==> a in t.Keys + Got(Elements(arr, ptrs)) {
      assert a in t' <==> a in t || a in ptrs || (ArrayAt(arr) != 0 && a == ArrayAt(arr));
    }
  }

  lemma ArrayThere(mem: Mem, live0: Sizes, live: Sizes, reqs: seq<int>, arr: PointerArray, ptrs: seq<int>)
    requires Independent(live0, live, reqs, arr, ptrs) && Legal(reqs) && 0 !in TableOf(mem, live)
    ensures arr.InHeap? ==> arr.at != 0
  {
    hide IndependentAt, TableOf, Legal;
    var p0: int, total: int, s: int :| IndependentAt(live0, live, reqs, arr, ptrs, p0, total, s);
    ArrayNotNull(mem, live0, live, reqs, arr, ptrs, p0, total, s);
  }

  lemma EmptyPointer(mem: Mem, live0: Sizes, live: Sizes, a: int)
    requires NewBlock(live0, live, MIN_CHUNK_SIZE, a - 16) && 0 !in TableOf(mem, live)
    ensures a != 0 && a - 16 !in live0 && a - 16 in live && live == live0[a - 16 := live[a - 16]]
  {
    hide TableOf;
    EntryOf(mem, live, a);
  }

  lemma EmptyKeys(t: Table, t': Table, a: int, clear: bool)
    requires NewBlocks(t, t', [], [], a, clear) && a != 0
    ensures t'.Keys == t.Keys + {a}
  {
    forall b ensures b in t'.Keys <==> b in t.Keys + {a} { assert b in t' <==> b in t || b == a; }
  }

  lemma DividesFollows(v0: View, v: View, n: nat, sizes: seq<int>, same: bool, clear: bool, supplied: bool, r: Result)
    requires |sizes| == (if same then 1 else n)
    requires n == 0 && supplied ==> r == Unchanged
    requires n == 0 && !supplied ==> r.Null? || r.Empty?
    requires n > 0 ==> r.Null? || r.Elements?
    requires r.Unchanged? ==> v == v0
    requires r.Null? ==>
        Allocated(v0, v, if n == 0 then MIN_CHUNK_SIZE else RequestSize(WholeSize(n, sizes, same, supplied) - 8), 0)
    requires r.Empty? ==> Allocated(v0, v, MIN_CHUNK_SIZE, r.mem)
    requires r.Elements? ==>
        Aggregated(v0, v, WholeSize(n, sizes, same, supplied), ChunkSizes(n, sizes, same), r.arr, r.ptrs)
    ensures Follows(OpIndependent(n, sizes, same, clear, supplied), v0, v)
  {
    hide Allocated, Aggregated, RequestSize, WholeSize, ChunkSizes;
  }

  method DoIndependent(m: Heap, n: nat, sizes: seq<int>, same: bool, clear: bool, supplied: bool, ghost table: Table)
      returns (r: Result, ghost table': Table)
    requires m.Valid() && Agree(m.mem, m.live, table) && |sizes| == (if same then 1 else n)
        && NoOverflow(n, sizes, same, supplied)
    modifies m
    ensures m.Valid() && Agree(m.mem, m.live, table')
        && Effect(OpIndependent(n, sizes, same, clear, supplied), old(ViewOf(m)), table, table')
    ensures Follows(OpIndependent(n, sizes, same, clear, supplied), old(ViewOf(m)), ViewOf(m))
    ensures table'.Keys == Held(table.Keys, OpIndependent(n, sizes, same, clear, supplied), Got(r))
  {
    hide Tiled, Tiling.Aligned, Heads, Feet, IndexOk, TopOk, Partition, LiveOk, BodiesSame, Agree, BrkOk,
        AlignedLive, TableOf, Stored, Independent, ElementsZero, Legal, Sum, NewBlocks, Aggregated, Allocated,
        NoRoom, Heap.Inv, Heap.Uninitialised, NewBlock, Allocates, Follows;
    ghost var mem0, live0, v0 := m.mem, m.live, ViewOf(m);
    ghost var w, reqs := Wanted(n, sizes, same), ChunkSizes(n, sizes, same);
    AllAligned(m);
    WantedFits(n, sizes, same);
    r := Ialloc(m, n, sizes, same, clear, supplied);
    DividesFollows(v0, ViewOf(m), n, sizes, same, clear, supplied, r);
    AllAligned(m);
    TableAgrees(m.mem, m.live);
    table' := TableOf(m.mem, m.live);
    NullNotIn(m, table');
    match r {
      case Empty(mem) =>
        EmptyPointer(m.mem, live0, m.live, mem);
        EmptyShown(mem0, m.mem, live0, m.live, table, mem - 16, clear);
        EmptyKeys(table, table', mem, clear);
        assert w == [];
      case Elements(arr, ptrs) =>
        IndependentShown(mem0, m.mem, live0, m.live, table, w, reqs, arr, ptrs, clear);
        ArrayThere(m.mem, live0, m.live, reqs, arr, ptrs);
        GotKeys(table, table', ptrs, w, arr, clear);
      case _ =>
        table' := table;
    }
  }

  // ----- runs -----

  /** One call: the heap stays well formed, and the table changes as the call promises. */
  method Step(m: Heap, op: Op, ghost table: Table) returns (got: set<int>, ghost table': Table)
    requires m.Valid() && Agree(m.mem, m.live, table) && Allowed(op, table)
    modifies m
    ensures m.Valid() && Agree(m.mem, m.live, table') && Effect(op, old(ViewOf(m)), table, table')
    ensures Follows(op, old(ViewOf(m)), ViewOf(m))
    ensures table'.Keys == Held(table.Keys, op, got)
  {
    hide Tiled, Tiling.Aligned, Heads, Feet, IndexOk, TopOk, Partition, LiveOk, Agree, BrkOk, Fresh, ReallocEffect,
        NewBlocks, Distinct, NoOverflow, Allocates, FreedTo, Reallocates, TriesAligned, TrimmedTo, BulkFreedTo, Divides,
        NoRoom, HeapRealloc.ReallocFails, HeapMemalign.NoAligned, HeapMemalign.Rounded;
    got := {};
    var mem;
    match op {
      case OpMalloc(bytes) => mem, table' := DoMalloc(m, bytes, table); got := One(mem);
      case OpCalloc(n, e) => mem, table' := DoCalloc(m, n, e, table); got := One(mem);
      case OpFree(a) => table' := DoFree(m, a, table);
      case OpRealloc(a, bytes) => mem, table' := DoRealloc(m, a, bytes, table); got := One(mem);
      case OpMemalign(alignment, bytes) => mem, table' := DoMemalign(m, alignment, bytes, table); got := One(mem);
      case OpStore(a, i, v) => table' := DoStore(m, a, i, v, table);
      case OpTrim(pad) =>
        DoTrim(m, pad, table);
        table' := table;
      case OpBulkFree(ptrs) => table' := DoBulkFree(m, ptrs, table);
      case OpIndependent(n, sizes, same, clear, supplied) =>
        var r;
        r, table' := DoIndependent(m, n, sizes, same, clear, supplied, table);
        got := Got(r);
    }
  }

  /** A history: every call has its effect on the table, and on the chunks, as the call before left them, and
      throughout the table shows the live blocks. */
  ghost predicate History(ops: seq<Op>, views: seq<View>, tables: seq<Table>) {
    && |tables| == |ops| + 1 && |views| == |ops| + 1
    && (forall k: nat {:trigger ops[k]} :: k < |ops| ==>
          Effect(ops[k], views[k], tables[k], tables[k + 1]) && Follows(ops[k], views[k], views[k + 1]))
    && (forall k: nat {:trigger views[k]} :: k < |views| ==> Matches(views[k], tables[k]))
  }

  lemma HistoryMore(ops: seq<Op>, views: seq<View>, tables: seq<Table>, op: Op, view': View, table': Table)
    requires History(ops, views, tables) && Effect(op, views[|ops|], tables[|ops|], table')
    requires Follows(op, views[|ops|], view') && Matches(view', table')
    ensures History(ops + [op], views + [view'], tables + [table'])
  {
    hide Effect, Follows, Matches;
    var o, w, t := ops + [op], views + [view'], tables + [table'];
    forall k: nat {:trigger o[k]} | k < |o| ensures Effect(o[k], w[k], t[k], t[k + 1])
        && Follows(o[k], w[k], w[k + 1]) {
      if k < |ops| {
        assert o[k] == ops[k] && w[k] == views[k] && w[k + 1] == views[k + 1];
        assert t[k] == tables[k] && t[k + 1] == tables[k + 1];
      }
    }
    forall k: nat {:trigger w[k]} | k < |w| ensures Matches(w[k], t[k]) {
      if k < |views| { assert w[k] == views[k] && t[k] == tables[k]; }
    }
  }

  lemma Matching(m: Heap, table: Table)
    requires Agree(m.mem, m.live, table)
    ensures Matches(ViewOf(m), table)
  {
  }

  /** `made` are the calls of `ops` that the callers may make, each judged by the table at its turn; only
      those are passed over that they may not make. */
  ghost predicate Made(ops: seq<Op>, made: seq<Op>, tables: seq<Table>)
    requires |tables| == |made| + 1
    decreases |ops|
  {
    if ops == [] then made == []
    else
      var before, op := ops[..|ops| - 1], ops[|ops| - 1];
      || (made != [] && made[|made| - 1] == op && Allowed(op, tables[|made| - 1])
          && Made(before, made[..|made| - 1], tables[..|made|]))
      || (!Allowed(op, tables[|made|]) && Made(before, made, tables))
  }

  lemma MadeMore(ops: seq<Op>, made: seq<Op>, tables: seq<Table>, op: Op, table': Table)
    requires |tables| == |made| + 1 && Made(ops, made, tables)
    ensures Allowed(op, tables[|made|]) ==> Made(ops + [op], made + [op], tables + [table'])
    ensures !Allowed(op, tables[|made|]) ==> Made(ops + [op], made, tables)
  {
    hide Allowed;
    assert (ops + [op])[..|ops|] == ops;
    assert (made + [op])[..|made|] == made && (tables + [table'])[..|made| + 1] == tables;
  }

  /** The callers' side of the contract, as they can check it: pointers are null or held, and stores
      stay inside the block. */
  method IsAllowed(m: Heap, op: Op, held: set<int>, ghost table: Table) returns (b: bool)
    requires m.Valid() && Agree(m.mem, m.live, table) && held == table.Keys
    ensures b <==> Allowed(op, table)
  {
    hide Tiled, Tiling.Aligned, Heads, Feet, IndexOk, TopOk, Partition, LiveOk, BrkOk, HeapChecks.InuseChunk, Shows,
        Distinct, NoOverflow;
    match op {
      case OpMalloc(bytes) => b := InRange(bytes);
      case OpCalloc(n, e) => b := InRange(n) && InRange(e);
      case OpFree(a) => b := a == 0 || a in held;
      case OpRealloc(a, bytes) => b := InRange(bytes) && (a == 0 || a in held);
      case OpMemalign(alignment, bytes) => b := InRange(bytes) && 0 <= alignment <= 0x8000_0000_0000_0000;
      case OpStore(a, i, v) =>
        b := false;
        if a in held {
          InTable(m.mem, m.live, table, a);
          LiveMeansTop(m, a - 16);
          HeapChecks.LiveChecks(m, a - 16);
          b := 0 <= i < Macros.ChunkSize(m.mem, a - 16) - 8 && 0 <= v < 256;
        }
      case OpTrim(pad) => b := InRange(pad);
      case OpBulkFree(ptrs) => b := Distinct(ptrs) && forall k :: 0 <= k < |ptrs| ==> ptrs[k] == 0 || ptrs[k] in held;
      case OpIndependent(n, sizes, same, clear, supplied) => b := |sizes| == (if same then 1 else n)
          && NoOverflow(n, sizes, same, supplied);
    }
  }

  /** Every run: from any well-formed heap, in particular the first, untouched one, the calls of `ops`
      that are allowed when their turn comes keep the heap well formed, and what the callers see is a
      history of independent byte arrays. */
  method Run(m: Heap, ops: seq<Op>, held0: set<int>, ghost table0: Table)
      returns (ghost made: seq<Op>, ghost views: seq<View>, ghost tables: seq<Table>)
    requires m.Valid() && Agree(m.mem, m.live, table0) && held0 == table0.Keys
    modifies m
    ensures m.Valid() && History(made, views, tables) && tables[0] == table0 && Agree(m.mem, m.live, tables[|made|])
    ensures Made(ops, made, tables) && views[0] == old(ViewOf(m)) && views[|made|] == ViewOf(m)
  {
    hide Tiled, Tiling.Aligned, Heads, Feet, IndexOk, TopOk, Partition, LiveOk, Agree, BrkOk, Effect, Held, Allowed,
        Made, Follows, Matches;
    made, views, tables := [], [ViewOf(m)], [table0];
    Matching(m, table0);
    var held := held0;
    NoneMade(table0);
    assert ops[..0] == [];
    for k := 0 to |ops|
      invariant m.Valid() && History(made, views, tables) && tables[0] == table0 && Agree(m.mem, m.live, tables[|made|])
      invariant views[0] == old(ViewOf(m)) && views[|made|] == ViewOf(m)
      invariant held == tables[|made|].Keys && Made(ops[..k], made, tables)
    {
      ghost var table := tables[|made|];
      assert ops[..k + 1] == ops[..k] + [ops[k]];
      var allowed := IsAllowed(m, ops[k], held, table);
      if allowed {
        ghost var table';
        var got;
        got, table' := Step(m, ops[k], table);
        held := Held(held, ops[k], got);
        Matching(m, table');
        HistoryMore(made, views, tables, ops[k], ViewOf(m), table');
        MadeMore(ops[..k], made, tables, ops[k], table');
        made, views, tables := made + [ops[k]], views + [ViewOf(m)], tables + [table'];
      } else {
        MadeMore(ops[..k], made, tables, ops[k], table);
      }
    }
    assert ops[..|ops|] == ops;
  }

  lemma NoneMade(table: Table)
    ensures Made([], [], [table])
  {
  }

  /** The untouched heap: the kernel starts with everything zero and no block. */
  lemma FirstState(m: Heap)
    requires m.top == 0 && m.Uninitialised() && m.curBrk == 0
    requires HEAP_FLOOR < m.endSymbol && m.endSymbol + PAGE < m.maxBrk <= SIZE_RANGE / 2
    ensures m.Valid() && Agree(m.mem, m.live, map[])
  {
  }
}
