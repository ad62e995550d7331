/** What the allocator's decisions depend on and change, apart from the words of memory: the live and the free
    chunks, the bins, top, and the dealings with the system (src/mm/malloc.c:2586-2612). */
module HeapViews {
  import opened Tiling
  import opened Index
  import opened HeapState
  import opened HeapSys

  datatype View = View(live: Sizes, chunks: Chunks, binned: Sizes, bins: Bins, victim: Victim, top: int,
                       accounts: Accounts, sys: System, threshold: int)

  ghost function ViewOf(m: Heap): View
    reads m
  {
    View(m.live, m.chunks, m.binned, m.bins, VictimOf(m), m.top, AccountsOf(m), SystemOf(m), m.trimThreshold)
  }

  /** What no call but a failed extension of the segment, or mallopt, changes. */
  ghost predicate SameSystem(v0: View, v: View) {
    v.sys.noncontiguous == v0.sys.noncontiguous && v.sys.limit == v0.sys.limit && v.threshold == v0.threshold
  }
}
