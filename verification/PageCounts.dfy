/**
 How many pages an operation on a directory takes: one for each page it maps for
 the user, and one for each page table that is not there yet.
 */
module PageCounts {
  import opened Counting
  import opened PageTables

  /** The page tables of a directory. */
  ghost function Tables(d: Dir): (ts: set<nat>)
    requires |d.pdes| == ENTRIES
  {
    set i: nat | i < ENTRIES && d.pdes[i].Pde?
  }

  /** The page tables that pages `lo` to `hi` lie in. */
  ghost function TablesOf(lo: nat, hi: nat): (ts: set<nat>)
  {
    set v: nat | lo <= v < hi :: v / ENTRIES
  }

  /** What it takes to map new pages from `lo` to `hi`. */
  ghost function Need(d: Dir, lo: nat, hi: nat): (n: nat)
    requires |d.pdes| == ENTRIES && lo <= hi
  {
    hi - lo + |TablesOf(lo, hi) - Tables(d)|
  }

  /** What it takes to map a new page at `v`. */
  ghost function Cost(d: Dir, v: nat): (n: nat)
    requires |d.pdes| == ENTRIES && v < NPAGES
  {
    if HasTable(d, v) then 1 else 2
  }

  /** The table of page `v` is there, too. */
  ghost predicate TableAdded(d: Dir, d': Dir, v: nat)
    requires |d.pdes| == ENTRIES && |d'.pdes| == ENTRIES
  {
    Tables(d') == Tables(d) + {v / ENTRIES}
  }

  lemma NothingNeeded(d: Dir, lo: nat)
    requires |d.pdes| == ENTRIES
    ensures Need(d, lo, lo) == 0 && Tables(d) == Tables(d) + TablesOf(lo, lo)
  {
    assert TablesOf(lo, lo) == {};
  }

  /** Page by page it takes what the whole range takes. */
  lemma NeedNext(was: Dir, d: Dir, lo: nat, v: nat)
    requires |was.pdes| == ENTRIES && |d.pdes| == ENTRIES && lo <= v < NPAGES
    requires Tables(d) == Tables(was) + TablesOf(lo, v)
    ensures Need(was, lo, v + 1) == Need(was, lo, v) + Cost(d, v)
    ensures Tables(was) + TablesOf(lo, v + 1) == Tables(d) + {v / ENTRIES}
  {
    TablesOfNext(lo, v);
    var i, ts, had := v / ENTRIES, TablesOf(lo, v), Tables(was);
    assert HasTable(d, v) <==> i in Tables(d);
    hide Tables, TablesOf;
    if i in Tables(d) {
      assert ts + {i} - had == ts - had;
    } else {
      assert ts + {i} - had == (ts - had) + {i};
    }
  }

  lemma TablesOfNext(lo: nat, v: nat)
    requires lo <= v
    ensures TablesOf(lo, v + 1) == TablesOf(lo, v) + {v / ENTRIES}
  {
    forall i | i in TablesOf(lo, v + 1)
      ensures i in TablesOf(lo, v) + {v / ENTRIES}
    {
      var u: nat :| lo <= u < v + 1 && u / ENTRIES == i;
    }
  }

  lemma NeedGrows(d: Dir, lo: nat, mid: nat, hi: nat)
    requires |d.pdes| == ENTRIES && lo <= mid <= hi
    ensures Need(d, lo, mid) <= Need(d, lo, hi)
  {
    SubsetSize(TablesOf(lo, mid) - Tables(d), TablesOf(lo, hi) - Tables(d));
  }

  // ---- The kernel's tables ----

  /** The tables of the kernel's part of every directory. */
  ghost function KernelTables(): (ts: set<nat>)
  {
    TablesOf(0x8_0000, 0x8_E000) + TablesOf(0xF_E000, NPAGES)
  }

  /** The page of the directory and the pages of the kernel's tables. */
  const KERNELPAGES: nat := 65

  /** A range that starts with a table lies in an interval of tables. */
  lemma TablesInterval(lo: nat, hi: nat)
    requires lo % ENTRIES == 0 && lo <= hi
    ensures TablesOf(lo, hi) == Below((hi + ENTRIES - 1) / ENTRIES) - Below(lo / ENTRIES)
  {
    forall i | i in Below((hi + ENTRIES - 1) / ENTRIES) - Below(lo / ENTRIES)
      ensures i in TablesOf(lo, hi)
    {
      assert lo <= i * ENTRIES < hi && i * ENTRIES / ENTRIES == i;
    }
  }

  lemma KernelTablesAre()
    ensures KernelTables() == (Below(568) - Below(512)) + (Below(ENTRIES) - Below(1016))
  {
    hide TablesOf, Below;
    TablesInterval(0x8_0000, 0x8_E000);
    TablesInterval(0xF_E000, NPAGES);
  }

  lemma KernelPages()
    ensures 1 + |KernelTables()| == KERNELPAGES
  {
    hide Below, KernelTables;
    KernelTablesAre();
    SizeOfRange(512, 568);
    SizeOfRange(1016, ENTRIES);
    assert (Below(568) - Below(512)) * (Below(ENTRIES) - Below(1016)) == {};
  }

  /** What it takes to copy the first `n` pages of a directory into a new one. */
  function CopyNeed(n: nat): (pages: nat)
  {
    KERNELPAGES + n + (n + ENTRIES - 1) / ENTRIES
  }

  lemma CopyNeedLeast()
    ensures forall n: nat :: CopyNeed(n) >= KERNELPAGES
  {
  }

  lemma CopyNeedGrows(m: nat, n: nat)
    requires m <= n
    ensures CopyNeed(m) <= CopyNeed(n)
  {
  }

  /** The user's pages and the kernel's have no table in common. */
  lemma CopyNeedIs(e: Dir, n: nat)
    requires |e.pdes| == ENTRIES && Tables(e) == KernelTables() && n <= NUSER
    ensures CopyNeed(n) == KERNELPAGES + Need(e, 0, n)
  {
    hide Tables, KernelTables, TablesOf, Below;
    KernelTablesAre();
    TablesInterval(0, n);
    SizeOfRange(0, (n + ENTRIES - 1) / ENTRIES);
    assert (n + ENTRIES - 1) / ENTRIES <= 512;
    assert TablesOf(0, n) - Tables(e) == TablesOf(0, n);
  }
}
