/**
 The log over the buffer cache: what `commit` and `recover_from_log` do through
 cached buffers is exactly the sequence of block writes whose crashes are
 analysed in `CrashLog`.
 */
module FsLog {
  import opened Blocks
  import opened Counting
  import opened CrashLog
  import opened BufferCache
  import opened Params

  /** Block `n` is in the cache, changed and not yet on the disk. */
  ghost predicate DirtyBlock(bufs: seq<Buf>, n: nat)
  {
    exists i :: 0 <= i < |bufs| && Caches(bufs[i], n) && bufs[i].dirty
  }

  /** The dirty buffers are exactly those of the listed blocks. */
  ghost predicate DirtyAre(bufs: seq<Buf>, lh: seq<nat>)
  {
    && (forall i :: 0 <= i < |bufs| && bufs[i].dirty ==> bufs[i].blockno in lh)
    && (forall k :: 0 <= k < |lh| ==> DirtyBlock(bufs, lh[k]))
  }

  ghost predicate DistinctBlocks(lh: seq<nat>)
  {
    forall i, j :: 0 <= i < j < |lh| ==> lh[i] != lh[j]
  }

  /** The transaction that the in-memory header describes. */
  function Tx(lh: seq<nat>, latest: Disk): (tx: seq<Write>)
    requires forall i :: 0 <= i < |lh| ==> lh[i] < |latest|
    ensures |tx| == |lh| && forall i :: 0 <= i < |lh| ==> tx[i] == Write(lh[i], latest[lh[i]])
  {
    seq(|lh|, i requires 0 <= i < |lh| => Write(lh[i], latest[lh[i]]))
  }

  // ---- Who uses the buffers ----

  ghost function Dirty(bufs: seq<Buf>): (ds: set<nat>)
    ensures forall i :: i in ds <==> 0 <= i < |bufs| && bufs[i].dirty
  {
    set i: nat | i < |bufs| && bufs[i].dirty
  }

  ghost function Referenced(bufs: seq<Buf>): (rs: set<nat>)
    ensures forall i :: i in rs <==> 0 <= i < |bufs| && bufs[i].refcnt > 0
  {
    set i: nat | i < |bufs| && bufs[i].refcnt > 0
  }

  /** The buffers that others refer to hold blocks outside the log and outside the
      list: readers work without a transaction, also during a commit. */
  ghost predicate Elsewhere(bufs: seq<Buf>, r: Region, lh: seq<nat>)
  {
    forall i :: 0 <= i < |bufs| && bufs[i].refcnt > 0 ==> !InLog(r, bufs[i].blockno) && bufs[i].blockno !in lh
  }

  ghost function BufferOf(bufs: seq<Buf>, n: nat): (i: nat)
    requires DirtyBlock(bufs, n)
    ensures i < |bufs| && Caches(bufs[i], n) && bufs[i].dirty
  {
    var i :| 0 <= i < |bufs| && Caches(bufs[i], n) && bufs[i].dirty;
    i
  }

  /** The buffer of the `k`-th listed block, and the place of a buffer's block in
      the list. */
  ghost function DirtyAt(bufs: seq<Buf>, lh: seq<nat>, k: nat): (i: nat)
  {
    if k < |lh| && DirtyBlock(bufs, lh[k]) then BufferOf(bufs, lh[k]) else 0
  }

  ghost function ListedAt(bufs: seq<Buf>, lh: seq<nat>, i: nat): (k: nat)
  {
    if i < |bufs| && bufs[i].blockno in lh then Place(lh, bufs[i].blockno) else 0
  }

  lemma ListedToDirty(bufs: seq<Buf>, lh: seq<nat>, k: nat)
    requires DirtyAre(bufs, lh) && DistinctBlocks(lh) && k < |lh|
    ensures DirtyAt(bufs, lh, k) in Dirty(bufs) && ListedAt(bufs, lh, DirtyAt(bufs, lh, k)) == k
  {
    assert DirtyBlock(bufs, lh[k]);
  }

  lemma DirtyToListed(bufs: seq<Buf>, lh: seq<nat>, i: nat)
    requires Unique(bufs) && DirtyAre(bufs, lh) && i in Dirty(bufs) && bufs[i].dev == DISK
    ensures ListedAt(bufs, lh, i) < |lh| && DirtyAt(bufs, lh, ListedAt(bufs, lh, i)) == i
  {
    var n := bufs[i].blockno;
    assert DirtyBlock(bufs, n);
    UniqueElsewhere(bufs, i, n);
  }

  /** There is one dirty buffer for each listed block. */
  lemma DirtyCount(bufs: seq<Buf>, lh: seq<nat>)
    requires Unique(bufs) && DirtyAre(bufs, lh) && DistinctBlocks(lh)
    requires forall i :: 0 <= i < |bufs| && bufs[i].dirty ==> bufs[i].dev == DISK
    ensures |Dirty(bufs)| == |lh|
  {
    hide DirtyAt, ListedAt, DirtyAre, Unique, DistinctBlocks;
    var f, g := (k: nat) => DirtyAt(bufs, lh, k), (i: nat) => ListedAt(bufs, lh, i);
    forall k | k in Below(|lh|)
      ensures f(k) in Dirty(bufs) && g(f(k)) == k
    {
      ListedToDirty(bufs, lh, k);
    }
    forall i | i in Dirty(bufs)
      ensures g(i) in Below(|lh|) && f(g(i)) == i
    {
      DirtyToListed(bufs, lh, i);
    }
    BijectionSize(Below(|lh|), Dirty(bufs), f, g);
  }

  ghost function Place(lh: seq<nat>, n: nat): (k: nat)
    requires n in lh
    ensures k < |lh| && lh[k] == n
  {
    var k :| 0 <= k < |lh| && lh[k] == n;
    k
  }

  /** No buffer can be recycled if and only if the listed blocks and the buffers
      that others refer to make up all buffers. With as many buffers as blocks
      can be listed, a full list alone does it. */
  lemma AllPinnedIff(bufs: seq<Buf>, r: Region, lh: seq<nat>)
    requires Unique(bufs) && DirtyAre(bufs, lh) && DistinctBlocks(lh) && Elsewhere(bufs, r, lh)
    requires forall i :: 0 <= i < |bufs| && bufs[i].dirty ==> bufs[i].dev == DISK
    ensures AllPinned(bufs) <==> |lh| + |Referenced(bufs)| == |bufs|
    ensures |lh| + |Referenced(bufs)| <= |bufs|
  {
    DirtyCount(bufs, lh);
    var ds, rs, all := Dirty(bufs), Referenced(bufs), Below(|bufs|);
    assert ds !! rs;
    assert |ds + rs| == |ds| + |rs|;
    SubsetSize(ds + rs, all);
    if AllPinned(bufs) {
      forall i | i in all
        ensures i in ds + rs
      {
        assert Pinned(bufs[i]);
      }
      assert ds + rs == all;
    }
    if |ds + rs| == |all| {
      SameSize(ds + rs, all);
      forall i | 0 <= i < |bufs|
        ensures Pinned(bufs[i])
      {
        assert i in ds + rs;
      }
    }
  }

  /** Two buffers can be recycled. */
  ghost predicate TwoFree(bufs: seq<Buf>)
  {
    exists i: nat, j: nat :: i < |bufs| && j < |bufs| && i != j && !Pinned(bufs[i]) && !Pinned(bufs[j])
  }

  ghost predicate Unreferenced(bufs: seq<Buf>, n: nat)
  {
    forall i :: 0 <= i < |bufs| && Caches(bufs[i], n) ==> bufs[i].refcnt == 0
  }

  /** In a quiet cache, a block that is not dirty is up to date on the disk. */
  lemma QuietBlock(bufs: seq<Buf>, disk: Disk, latest: Disk, n: nat)
    requires Coherent(bufs, disk, latest, {}) && n < |disk| && !DirtyBlock(bufs, n)
    ensures disk[n] == latest[n]
  {
    assert UpToDate(bufs, disk, latest, n);
    forall i: nat | i < |bufs| && Caches(bufs[i], n) && bufs[i].valid
      ensures disk[n] == latest[n]
    {
      assert BufOk(bufs, i, {}, disk, latest);
    }
  }

  /** A block that nobody refers to is not locked, and its buffer, if it is not
      dirty, can be recycled. */
  lemma FreeBlock(bufs: seq<Buf>, disk: Disk, latest: Disk, pinned: seq<nat>, n: nat)
    requires Coherent(bufs, disk, latest, {}) && DirtyAre(bufs, pinned) && Unreferenced(bufs, n)
    ensures !HeldByOther(bufs, n)
    ensures n !in pinned && Cached(bufs, n) ==> !AllPinned(bufs)
  {
    forall i: nat | i < |bufs| && Caches(bufs[i], n)
      ensures !bufs[i].locked && (n !in pinned ==> !Pinned(bufs[i]))
    {
      assert BufOk(bufs, i, {}, disk, latest);
      DirtyIffListed(bufs, i, n, pinned);
    }
  }

  /** Reading another block does not push a dirty one out of the cache. */
  lemma StillCached(bufs: seq<Buf>, bufs': seq<Buf>, b: nat, n: nat)
    requires |bufs| == |bufs'| && b < |bufs| && bufs' == bufs[b := bufs'[b]]
    requires DirtyBlock(bufs, n) && !bufs[b].dirty
    ensures exists i :: 0 <= i < |bufs| && i != b && Caches(bufs'[i], n) && bufs'[i].dirty && bufs[i] == bufs'[i]
  {
    var i :| 0 <= i < |bufs| && Caches(bufs[i], n) && bufs[i].dirty;
    assert i != b && bufs'[i] == bufs[i];
  }

  /** The dirty blocks of a cache that differs from another in two buffers. */
  lemma DirtySame(bufs: seq<Buf>, bufs': seq<Buf>, a: nat, b: nat, lh: seq<nat>, lh': seq<nat>)
    requires |bufs| == |bufs'| && a < |bufs| && b < |bufs| && a != b
    requires bufs' == bufs[a := bufs'[a]][b := bufs'[b]]
    requires DirtyAre(bufs, lh)
    requires !bufs[a].dirty && !bufs'[a].dirty
    requires bufs[b].dirty ==> bufs'[b].blockno == bufs[b].blockno && bufs'[b].dev == bufs[b].dev
    requires bufs[b].dirty == bufs'[b].dirty && lh' == lh
    ensures DirtyAre(bufs', lh')
  {
    forall k | 0 <= k < |lh|
      ensures DirtyBlock(bufs', lh[k])
    {
      assert DirtyBlock(bufs, lh[k]);
      var i :| 0 <= i < |bufs| && Caches(bufs[i], lh[k]) && bufs[i].dirty;
      assert Caches(bufs'[i], lh[k]) && bufs'[i].dirty;
    }
  }

  // ---- Readers during a commit ----

  /** A step of a reader: `bread` of a block, the lock of a buffer that it waited
      for, or `brelse`. */
  datatype Act = Get(blockno: nat) | Enter(b: nat) | Put(b: nat)

  /** What the readers do before each block write of a commit. */
  type Plan = nat -> seq<Act>

  ghost predicate Still(plan: Plan)
  {
    forall m: nat :: plan(m) == []
  }

  /** The plan from block write `n` on. */
  function Later(plan: Plan, n: nat): (p: Plan)
  {
    (m: nat) => plan(n + m)
  }

  lemma StillNow(plan: Plan, n: nat)
    ensures Still(plan) ==> plan(n) == []
  {
  }

  lemma StillLater(plan: Plan, n: nat)
    requires Still(plan)
    ensures Still(Later(plan, n))
  {
  }

  class Log {
    const cache: Cache
    const region: Region
    var lh: seq<nat>
    var outstanding: nat

    /** The header lists distinct home blocks. Whether the log has a slot for each
        of them is another matter. */
    ghost predicate HeaderShape()
      reads this, cache
    {
      && FitsDisk(region, cache.disk)
      && |lh| <= LOGSIZE
      && DistinctBlocks(lh)
      && forall i :: 0 <= i < |lh| ==> lh[i] < |cache.disk| && !InLog(region, lh[i])
    }

    ghost predicate Valid()
      reads this, cache, cache.ring, cache.ring.next, cache.ring.prev
    {
      cache.Valid() && HeaderShape() && DirtyAre(cache.bufs, lh)
    }

    /** Nobody writes: what others refer to, they read. */
    ghost predicate Calm()
      reads this, cache
    {
      cache.changed == {} && Elsewhere(cache.bufs, region, lh)
    }

    constructor (c: Cache, r: Region)
      requires c.Valid() && FitsDisk(r, c.disk)
      requires forall i :: 0 <= i < NBUF ==> !c.bufs[i].dirty
      ensures cache == c && region == r && lh == [] && outstanding == 0 && Valid()
    {
      cache := c;
      region := r;
      lh := [];
      outstanding := 0;
    }

    /** The guard of `log_write`, which is read without the lock; false stands for
        the panics. It comes before the search, so a full log rejects even a
        block that is already listed. */
    method LogGuard() returns (ok: bool)
      ensures ok <==> |lh| < LOGSIZE && |lh| + 1 < region.size && outstanding >= 1
    {
      ok := !(|lh| >= LOGSIZE || |lh| >= region.size - 1) && outstanding >= 1;
    }

    /** The rest of `log_write`, under the lock: a held buffer's block is listed and
        the buffer pinned. By then others may have listed blocks as well; the
        operation's claim still has room for its own. */
    method LogAppend(b: nat)
      requires Valid() && b < NBUF && cache.bufs[b].locked && cache.bufs[b].valid
      requires !InLog(region, cache.bufs[b].blockno)
      requires |lh| < LOGSIZE || cache.bufs[b].blockno in lh
      modifies this`lh, cache`bufs, cache`changed
      ensures Valid()
      ensures var n := old(cache.bufs)[b].blockno;
              lh == (if n in old(lh) then old(lh) else old(lh) + [n]) &&
              cache.bufs == old(cache.bufs)[b := old(cache.bufs)[b].(dirty := true)] &&
              cache.changed == old(cache.changed) - {b}
    {
      assert BufOk(cache.bufs, b, cache.changed, cache.disk, cache.latest);
      var n := cache.bufs[b].blockno;
      var i := 0;
      while i < |lh| && lh[i] != n
        invariant 0 <= i <= |lh| && forall j :: 0 <= j < i ==> lh[j] != n
      {
        i := i + 1;
      }
      ghost var was, listed := cache.bufs, lh;
      cache.MarkDirty(b);
      if i == |lh| {
        lh := lh + [n];
      } else {
        lh := lh[i := n];
      }
      DirtyMore(was, cache.bufs, b, listed, lh);
    }

    /** In a commit or a recovery, with the blocks `pinned` still to be written. */
    ghost predicate Working(pinned: seq<nat>)
      reads this, cache, cache.ring, cache.ring.next, cache.ring.prev
    {
      && cache.Valid() && Calm() && HeaderShape() && DirtyAre(cache.bufs, pinned)
      && forall n :: n in pinned ==> n in lh
    }

    /** A reader's step on blocks outside the log and the list. A step that cannot
        be taken is none. */
    method Reader(act: Act, ghost pinned: seq<nat>) returns (panic: bool)
      requires Working(pinned)
      modifies cache, cache.ring, cache.ring.next, cache.ring.prev
      ensures Working(pinned) && cache.View() == old(cache.View())
      ensures panic <==>
        && act.Get? && act.blockno < |cache.disk| && !InLog(region, act.blockno) && act.blockno !in lh
        && !Cached(old(cache.bufs), act.blockno) && AllPinned(old(cache.bufs))
      ensures panic ==> cache.bufs == old(cache.bufs)
    {
      ghost var was := cache.bufs;
      panic := false;
      match act
      case Get(n) =>
        if n < |cache.disk| && !InLog(region, n) && n !in lh {
          var b, _ := cache.Bread(n);
          panic := b == -1;
          if !panic {
            BreadClean(was, cache.bufs, b, n, pinned);
            DirtySameOne(was, cache.bufs, b, pinned);
          }
        }
      case Enter(b) =>
        if b < NBUF && cache.bufs[b].refcnt > 0 && !cache.bufs[b].locked {
          assert BufOk(was, b, {}, cache.disk, cache.latest);
          cache.Lock(b);
          if !cache.bufs[b].valid {
            cache.ReadDisk(b);
          }
          DirtySameOne(was, cache.bufs, b, pinned);
        }
      case Put(b) =>
        if b < NBUF && cache.bufs[b].locked {
          assert BufOk(was, b, {}, cache.disk, cache.latest);
          cache.Brelse(b);
          DirtySameOne(was, cache.bufs, b, pinned);
        }
    }

    /** Any number of steps of readers: no content changes. */
    method Readers(acts: seq<Act>, ghost pinned: seq<nat>) returns (panic: bool)
      requires Working(pinned)
      modifies cache, cache.ring, cache.ring.next, cache.ring.prev
      ensures Working(pinned) && cache.View() == old(cache.View())
      ensures panic ==> AllPinned(cache.bufs)
      ensures acts == [] ==> !panic && cache.bufs == old(cache.bufs)
    {
      hide Coherent, DirtyAre, Elsewhere, DistinctBlocks, FitsDisk;
      var i := 0;
      while i < |acts|
        invariant i <= |acts| && Working(pinned) && cache.View() == old(cache.View())
        invariant acts == [] ==> cache.bufs == old(cache.bufs)
      {
        panic := Reader(acts[i], pinned);
        if panic {
          return;
        }
        i := i + 1;
      }
      panic := false;
    }

    /** One round of `write_log`: a listed block goes to its slot. */
    method CopyToLog(k: nat) returns (panic: bool)
      requires Valid() && Calm() && k < |lh|
      requires |lh| < region.size || (k == 0 && LOGSIZE <= region.size)
      modifies cache, cache.ring, cache.ring.next, cache.ring.prev
      ensures panic <==> AllPinned(old(cache.bufs))
      ensures panic ==> cache.bufs == old(cache.bufs) && cache.View() == old(cache.View())
      ensures panic ==> cache.changed == {} && cache.Valid()
      ensures !panic ==> Valid() && Calm() && !AllPinned(cache.bufs) && |lh| < region.size
      ensures !panic ==> InSlot(region, old(cache.View()), cache.View(), lh, k)
    {
      PinnedCount(cache.bufs, cache.disk, cache.latest, region, lh);
      ghost var was := cache.bufs;
      var to, from, failed := BreadBoth(cache, region.start + 1 + k, lh[k], lh);
      if failed {
        return true;
      }
      CopyBetween(cache, from, to, was, region, lh, lh);
      return false;
    }

    /** The same, with what the rounds before have done. */
    method NextSlot(k: nat, ghost start: Contents) returns (panic: bool)
      requires Valid() && Calm() && k < |lh|
      requires |lh| < region.size || (k == 0 && LOGSIZE <= region.size)
      requires FitsDisk(region, start.disk) && |start.disk| == |start.latest|
      requires forall i :: 0 <= i < |lh| ==> lh[i] < |start.disk| && !InLog(region, lh[i])
      requires Slotted(region, start, cache.View(), lh, k)
      modifies cache, cache.ring, cache.ring.next, cache.ring.prev
      ensures panic <==> AllPinned(old(cache.bufs))
      ensures panic ==> cache.bufs == old(cache.bufs) && cache.View() == old(cache.View())
      ensures panic ==> cache.changed == {} && cache.Valid()
      ensures !panic ==> Valid() && Calm() && !AllPinned(cache.bufs) && |lh| < region.size
      ensures !panic ==> Slotted(region, start, cache.View(), lh, k + 1)
    {
      hide Coherent, DirtyAre, Elsewhere, AllPinned, DistinctBlocks, Slotted, InLog, FitsDisk, Unique, BufOk, InSlot;
      ghost var before := cache.View();
      panic := CopyToLog(k);
      if !panic {
        SlotNext(region, start, before, cache.View(), lh, k);
      }
    }

    /** `write_log`: the listed blocks go to the slots, in order, while readers come
        and go. It panics if all buffers are pinned when a round starts; if no
        reader moves, that is in the first round or not at all. */
    method WriteLog(plan: Plan) returns (panic: bool, ghost done: nat)
      requires Valid() && Calm() && (|lh| < region.size || LOGSIZE <= region.size)
      modifies cache, cache.ring, cache.ring.next, cache.ring.prev
      ensures Valid() && Calm() && done <= |lh| && (done > 0 ==> |lh| < region.size)
      ensures Wrote(old(cache.View()), cache.View(), LogWrites(region, Tx(lh, old(cache.latest)))[..done])
      ensures panic ==> done < |lh| && AllPinned(cache.bufs)
      ensures !panic ==> done == |lh|
      ensures Still(plan) ==> (panic <==> lh != [] && AllPinned(old(cache.bufs)))
      ensures Still(plan) && panic ==> done == 0 && cache.bufs == old(cache.bufs)
      ensures Still(plan) && !panic && lh != [] ==> !AllPinned(cache.bufs)
    {
      ghost var start := cache.View();
      assert FitsDisk(region, start.disk) && |start.disk| == |start.latest|;
      assert forall i :: 0 <= i < |lh| ==> lh[i] < |start.disk| && !InLog(region, lh[i]);
      hide Coherent, DirtyAre, Elsewhere, Apply, AllPinned, Wrote, DistinctBlocks, Slotted, LogWrites, Tx, InLog;
      hide FitsDisk, Unique, BufOk, InSlot, Unpinned, Still;
      panic, done := Rounds(plan, start);
      SlottedWrote(region, start, cache.View(), lh, done);
      if Still(plan) && !panic {
        PinnedAtStart(old(cache.bufs), cache.bufs, |lh|);
      }
    }

    /** The loop of `write_log`. */
    method Rounds(plan: Plan, ghost start: Contents) returns (panic: bool, ghost done: nat)
      requires Valid() && Calm() && (|lh| < region.size || LOGSIZE <= region.size) && start == cache.View()
      requires FitsDisk(region, start.disk) && |start.disk| == |start.latest|
      requires forall i :: 0 <= i < |lh| ==> lh[i] < |start.disk| && !InLog(region, lh[i])
      modifies cache, cache.ring, cache.ring.next, cache.ring.prev
      ensures Valid() && Calm() && done <= |lh| && Slotted(region, start, cache.View(), lh, done)
      ensures panic ==> done < |lh| && AllPinned(cache.bufs)
      ensures !panic ==> done == |lh|
      ensures Still(plan) ==> (panic <==> lh != [] && AllPinned(old(cache.bufs)))
      ensures Still(plan) && panic ==> done == 0 && cache.bufs == old(cache.bufs)
      ensures Still(plan) && !panic ==> Unpinned(old(cache.bufs), cache.bufs, |lh|)
    {
      hide Coherent, DirtyAre, Elsewhere, AllPinned, DistinctBlocks, Slotted, InLog, FitsDisk, Unique, BufOk, Unpinned;
      var tail := 0;
      NotYet(cache.bufs);
      NoneSlotted(region, start, lh);
      while tail < |lh|
        invariant tail <= |lh| && Valid() && Calm() && Slotted(region, start, cache.View(), lh, tail)
        invariant Still(plan) ==> Unpinned(old(cache.bufs), cache.bufs, tail)
        invariant Still(plan) && tail > 0 ==> !AllPinned(old(cache.bufs))
      {
        SlottedSize(region, start, cache.View(), lh, tail);
        panic := Readers(plan(tail), lh);
        if panic {
          return true, tail;
        }
        ghost var before := cache.bufs;
        if Still(plan) {
          PinnedAtStart(old(cache.bufs), before, tail);
        }
        panic := NextSlot(tail, start);
        if panic {
          return true, tail;
        }
        if Still(plan) {
          OneRound(old(cache.bufs), before, cache.bufs, tail);
        }
        tail := tail + 1;
      }
      return false, tail;
    }

    /** `install_trans`: the slots go to the listed blocks, in order. After a
        restart no home block is dirty; in a commit each one is, until then, and
        readers come and go. */
    method InstallTrans(plan: Plan, ghost tx: seq<Write>, ghost commit: bool) returns (panic: bool, ghost done: nat)
      requires Working(if commit then lh else []) && Targets(tx) == lh && SlotsHold(region, cache.View(), tx)
      requires !commit ==> Still(plan) && TwoFree(cache.bufs)
      modifies cache, cache.ring, cache.ring.next, cache.ring.prev
      ensures cache.Valid() && Calm() && HeaderShape() && done <= |lh|
      ensures Wrote(old(cache.View()), cache.View(), tx[..done])
      ensures panic ==> done < |lh| && AllPinned(cache.bufs)
      ensures !panic ==> done == |lh| && DirtyAre(cache.bufs, [])
      ensures Still(plan) && !AllPinned(old(cache.bufs)) ==> !panic && !AllPinned(cache.bufs)
    {
      ghost var start := cache.View();
      ghost var pinned := if commit then lh else [];
      var tail := 0;
      assert lh[0..] == lh;
      SlotsFit(region, start, tx);
      hide Coherent, DirtyAre, Elsewhere, DistinctBlocks, FitsDisk, SlotsHold, Wrote, AllPinned, TwoFree, InLog;
      NoneInstalled(region, start, tx);
      while tail < |lh|
        invariant tail <= |lh| && Working(pinned) && Wrote(start, cache.View(), tx[..tail])
        invariant ToInstall(cache.bufs, lh, commit, pinned, tail)
        invariant Still(plan) && !AllPinned(old(cache.bufs)) ==> !AllPinned(cache.bufs)
      {
        panic := InstallRound(plan(tail), tail, commit, pinned, start, tx);
        if panic {
          return true, tail;
        }
        pinned := Fewer(pinned);
        tail := tail + 1;
      }
      AllInstalled(cache.bufs, lh, commit, pinned);
      return false, tail;
    }

    /** One round of `install_trans`, after what the readers do. */
    method InstallRound(acts: seq<Act>, k: nat, ghost commit: bool, ghost pinned: seq<nat>, ghost start: Contents,
                        ghost tx: seq<Write>) returns (panic: bool)
      requires Working(pinned) && Targets(tx) == lh && SlotsHold(region, start, tx) && k < |lh|
      requires Wrote(start, cache.View(), tx[..k]) && ToInstall(cache.bufs, lh, commit, pinned, k)
      requires !commit ==> acts == []
      modifies cache, cache.ring, cache.ring.next, cache.ring.prev
      ensures panic ==> Working(pinned) && AllPinned(cache.bufs) && Wrote(start, cache.View(), tx[..k])
      ensures !panic ==> Working(Fewer(pinned)) && Wrote(start, cache.View(), tx[..k + 1])
      ensures !panic ==> !AllPinned(cache.bufs) && ToInstall(cache.bufs, lh, commit, Fewer(pinned), k + 1)
      ensures acts == [] && !AllPinned(old(cache.bufs)) ==> !panic
    {
      SlotsFit(region, start, tx);
      hide Coherent, DirtyAre, Elsewhere, DistinctBlocks, FitsDisk, SlotsHold, Wrote, AllPinned, TwoFree, InLog;
      hide ToInstall, Fewer;
      ghost var was := cache.bufs;
      panic := Readers(acts, pinned);
      if panic {
        return;
      }
      SameTurn(was, cache.bufs, lh, commit, pinned, k);
      ghost var before := cache.View();
      panic := InstallOne(k, commit, pinned);
      if panic {
        return;
      }
      NextTurn(was, cache.bufs, lh, commit, pinned, k);
      TwoUnpinned(cache.bufs);
      InstallStep(region, start, before, cache.View(), tx, k);
    }

    /** One round of `install_trans`. */
    method InstallOne(k: nat, ghost commit: bool, ghost pinned: seq<nat>) returns (panic: bool)
      requires Working(pinned) && k < |lh| && k + 1 < region.size && ToInstall(cache.bufs, lh, commit, pinned, k)
      modifies cache, cache.ring, cache.ring.next, cache.ring.prev
      ensures panic <==> AllPinned(old(cache.bufs))
      ensures panic ==> Working(pinned) && cache.bufs == old(cache.bufs) && cache.View() == old(cache.View())
      ensures !panic ==> Working(Fewer(pinned)) && TwoFree(cache.bufs)
      ensures !panic ==>
              var data := old(cache.latest)[region.start + 1 + k];
              cache.disk == old(cache.disk)[lh[k] := data] &&
              cache.latest == old(cache.latest)[lh[k] := data] &&
              cache.history == old(cache.history) + [Write(lh[k], data)]
    {
      ghost var was := cache.bufs;
      NotInUse(was, region, lh, region.start + 1 + k);
      NotInUse(was, region, lh, lh[k]);
      DistinctTail(lh, k);
      assert pinned == [] || pinned[1..] == lh[k + 1..];
      hide Coherent, DirtyAre, Elsewhere, DistinctBlocks, AllPinned, TwoFree, Unreferenced, Copied, FitsDisk;
      var from, to, failed := BreadBoth(cache, region.start + 1 + k, lh[k], pinned);
      if failed {
        return true;
      }
      ghost var held := cache.bufs;
      CopyBetween(cache, from, to, was, region, lh, pinned);
      CopiedFree(held, from, to);
      return false;
    }

    /** `commit`, while readers come and go. Whenever it or a reader finds all
        buffers pinned and panics, the block writes so far are the first ones of
        `CommitWrites`, so that is one of the crashes that `CrashAtomicity` covers.
        Otherwise they are all of `CommitWrites`, and afterwards every block's
        latest content is on the disk. If no reader moves, it panics, before
        anything is written, if and only if there is something to commit and every
        buffer is pinned. */
    method Commit(plan: Plan) returns (panic: bool, ghost done: nat)
      requires Valid() && Calm() && Clean(region, cache.disk) && (|lh| < region.size || LOGSIZE <= region.size)
      modifies this`lh, cache, cache.ring, cache.ring.next, cache.ring.prev
      ensures panic ==> AllPinned(cache.bufs) && cache.Valid() && Calm()
      ensures panic ==> CutAt(region, old(cache.View()), cache.View(), Tx(old(lh), old(cache.latest)), done)
      ensures Still(plan) ==> (panic <==> old(lh) != [] && AllPinned(old(cache.bufs)))
      ensures Still(plan) && panic ==>
                lh == old(lh) && cache.bufs == old(cache.bufs) && cache.View() == old(cache.View())
      ensures !panic ==> Valid() && Calm() && lh == [] && Clean(region, cache.disk)
      ensures !panic ==>
              var tx := Tx(old(lh), old(cache.latest));
              var ws := if tx == [] then [] else CommitWrites(region, old(cache.disk), tx);
              ValidTx(region, old(cache.disk), tx) && InRange(old(cache.disk), ws) &&
              cache.history == old(cache.history) + ws &&
              cache.disk == Apply(old(cache.disk), ws)
      ensures !panic ==> |cache.disk| == |cache.latest| == |old(cache.latest)|
      ensures !panic ==> cache.disk == cache.latest && SameHome(region, cache.latest, old(cache.latest))
    {
      ghost var start := cache.View();
      if |lh| > 0 {
        hide Coherent, DirtyAre, CommitWrites, Apply, CutAt, Still, DistinctBlocks, Elsewhere, AllPinned, Clean;
        panic, done := CommitListed(plan);
      } else {
        assert Apply(cache.disk, []) == cache.disk;
        TxValid(region, start, lh);
        panic, done := false, 0;
        NothingDirty(cache.bufs, cache.disk, cache.latest);
      }
    }

    /** The same with something to commit. */
    method CommitListed(plan: Plan) returns (panic: bool, ghost done: nat)
      requires Valid() && Calm() && lh != [] && (|lh| < region.size || LOGSIZE <= region.size)
      modifies this`lh, cache, cache.ring, cache.ring.next, cache.ring.prev
      ensures panic ==> AllPinned(cache.bufs) && cache.Valid() && Calm()
      ensures panic ==> CutAt(region, old(cache.View()), cache.View(), Tx(old(lh), old(cache.latest)), done)
      ensures Still(plan) ==> (panic <==> AllPinned(old(cache.bufs)))
      ensures Still(plan) && panic ==>
                lh == old(lh) && cache.bufs == old(cache.bufs) && cache.View() == old(cache.View())
      ensures !panic ==> Valid() && Calm() && lh == [] && Clean(region, cache.disk)
      ensures !panic ==>
              var tx := Tx(old(lh), old(cache.latest));
              ValidTx(region, old(cache.disk), tx) &&
              Wrote(old(cache.View()), cache.View(), CommitWrites(region, old(cache.disk), tx))
      ensures !panic ==> cache.disk == cache.latest && SameHome(region, cache.latest, old(cache.latest))
    {
      ghost var start := cache.View();
      ghost var tx := Tx(lh, cache.latest);
      HeaderBlockClean(cache.bufs, cache.disk, cache.latest, region, lh);
      assert Listed(region, start, lh);
      hide Coherent, DirtyAre, CommitWrites, LogWrites, EncodeHeader, Apply, SlotsHold, Wrote, CutAt, Still, Later;
      hide FitsDisk, InLog, DistinctBlocks, Elsewhere, AllPinned, Clean, SameHome, ValidTx, FilledLog, Installed;
      hide Listed;
      panic, done := LogTransaction(plan, tx);
      if panic {
        CutInLog(region, start, cache.View(), lh, done);
        return;
      }
      if Still(plan) {
        StillLater(plan, |lh| + 1);
      }
      panic, done := FinishCommit(Later(plan, |lh| + 1), start, tx);
    }

    /** The rest of `commit`, after the first half. */
    method FinishCommit(plan: Plan, ghost start: Contents, ghost tx: seq<Write>) returns (panic: bool, ghost done: nat)
      requires Valid() && Calm() && Listed(region, start, lh)
      requires tx == Tx(lh, start.latest) && FilledLog(region, start, cache.View(), lh, tx)
      modifies this`lh, cache, cache.ring, cache.ring.next, cache.ring.prev
      ensures panic ==> AllPinned(cache.bufs) && cache.Valid() && Calm() && CutAt(region, start, cache.View(), tx, done)
      ensures Still(plan) && !AllPinned(old(cache.bufs)) ==> !panic
      ensures !panic ==> Valid() && Calm() && lh == [] && Clean(region, cache.disk)
      ensures !panic ==>
        ValidTx(region, start.disk, tx) && Wrote(start, cache.View(), CommitWrites(region, start.disk, tx))
      ensures !panic ==> cache.disk == cache.latest && SameHome(region, cache.latest, start.latest)
    {
      hide Coherent, DirtyAre, CommitWrites, LogWrites, EncodeHeader, Apply, SlotsHold, Wrote, CutAt, Still;
      hide FitsDisk, InLog, DistinctBlocks, Elsewhere, AllPinned, Clean, SameHome, ValidTx, FilledLog, Installed;
      hide Listed;
      ghost var logged, listed := cache.View(), lh;
      SlotsInLog(region, start, logged, lh, tx);
      panic, done := InstallAndClear(plan, tx, true);
      if panic {
        CutInInstall(region, start, logged, cache.View(), listed, tx, done);
        done := |tx| + 1 + done;
        return;
      }
      CommitWrote(region, start, logged, cache.View(), listed, tx);
      NothingDirty(cache.bufs, cache.disk, cache.latest);
    }

    /** The first half of `commit`: the log and its header reach the disk. */
    method LogTransaction(plan: Plan, ghost tx: seq<Write>) returns (panic: bool, ghost done: nat)
      requires Valid() && Calm() && lh != [] && (|lh| < region.size || LOGSIZE <= region.size)
      requires tx == Tx(lh, cache.latest)
      requires cache.latest[region.start] == cache.disk[region.start] && region.start !in lh
      modifies cache, cache.ring, cache.ring.next, cache.ring.prev
      ensures Valid() && Calm() && done <= |lh| && (done > 0 || !panic ==> |lh| < region.size)
      ensures panic ==> Wrote(old(cache.View()), cache.View(), LogWrites(region, tx)[..done]) && AllPinned(cache.bufs)
      ensures Still(plan) ==> (panic <==> AllPinned(old(cache.bufs)))
      ensures Still(plan) && panic ==> cache.bufs == old(cache.bufs) && cache.View() == old(cache.View())
      ensures Still(plan) && !panic ==> !AllPinned(cache.bufs)
      ensures !panic ==> FilledLog(region, old(cache.View()), cache.View(), lh, tx)
    {
      ghost var start := cache.View();
      panic, done := WriteLog(plan);
      if panic {
        return;
      }
      assert LogWrites(region, tx)[..|lh|] == LogWrites(region, tx);
      ghost var logged := cache.View();
      SlotsFilled(region, start, logged, lh);
      hide Coherent, DirtyAre, Elsewhere, DistinctBlocks, FitsDisk, SlotsHold, Wrote, EncodeHeader, LogWrites;
      panic := Readers(plan(|lh|), lh);
      if panic {
        return;
      }
      panic := WriteHead(lh);
      if panic {
        return;
      }
      SlotsUnderHeader(region, logged, cache.View(), tx);
      WroteMore(start, logged, cache.View(), LogWrites(region, tx),
                Write(region.start, EncodeHeader(start.disk[region.start], lh)));
    }

    /** The second half of `commit`, and what recovery does after reading the
        header: install the slots and clear the header. */
    method InstallAndClear(plan: Plan, ghost tx: seq<Write>, ghost commit: bool) returns (panic: bool, ghost done: nat)
      requires Working(if commit then lh else []) && Targets(tx) == lh && SlotsHold(region, cache.View(), tx)
      requires !commit ==> Still(plan) && TwoFree(cache.bufs)
      modifies this`lh, cache, cache.ring, cache.ring.next, cache.ring.prev
      ensures panic ==> AllPinned(cache.bufs) && cache.Valid() && Calm()
      ensures panic ==> done <= |tx| && Wrote(old(cache.View()), cache.View(), tx[..done])
      ensures Still(plan) && !AllPinned(old(cache.bufs)) ==> !panic
      ensures !panic ==> Valid() && Calm() && lh == []
      ensures !panic ==> Installed(region, old(cache.View()), cache.View(), tx)
    {
      hide Coherent, DirtyAre, Elsewhere, DistinctBlocks, FitsDisk, SlotsHold, AllPinned, TwoFree, InLog, EncodeHeader;
      hide Wrote, Still;
      ghost var start := cache.View();
      panic, done := InstallTrans(plan, tx, commit);
      if panic {
        return;
      }
      assert tx[..|tx|] == tx;
      ghost var installed := cache.View();
      HeaderKept(region, start, installed, tx);
      EmptyList(cache.bufs, region, lh);
      StillNow(plan, |lh|);
      var n := |lh|;
      lh := [];
      panic := Readers(plan(n), []);
      if panic {
        return;
      }
      panic := WriteHead([]);
      if panic {
        return;
      }
      WroteMore(start, installed, cache.View(), tx,
                Write(region.start, EncodeHeader(start.latest[region.start], [])));
    }

    /** `recover_from_log`, before any other process runs, on a cache that holds
        nothing dirty: the block writes are exactly those of `RecoverWrites`. */
    method Recover()
      requires cache.Valid() && cache.Quiet() && DirtyAre(cache.bufs, [])
      requires Recoverable(region, cache.disk)
      requires var blocks := DecodeHeader(cache.disk[region.start]);
               DistinctBlocks(blocks) && forall i :: 0 <= i < |blocks| ==> !InLog(region, blocks[i])
      modifies this`lh, cache, cache.ring, cache.ring.next, cache.ring.prev
      ensures Valid() && Calm() && lh == []
      ensures cache.history == old(cache.history) + RecoverWrites(region, old(cache.disk))
      ensures cache.disk == Recovered(region, old(cache.disk)) && cache.disk == cache.latest
    {
      ghost var start := cache.View();
      ghost var tx := InstallWrites(region, cache.disk);
      NothingDirty(cache.bufs, cache.disk, cache.latest);
      ReadHead();
      assert Targets(tx) == lh;
      assert !Pinned(cache.bufs[0]) && !Pinned(cache.bufs[1]);
      var _, _ := InstallAndClear((m: nat) => [], tx, false);
      NothingDirty(cache.bufs, cache.disk, cache.latest);
    }

    /** `read_head`: the header comes from its block. */
    method ReadHead()
      requires cache.Valid() && cache.Quiet() && DirtyAre(cache.bufs, [])
      requires FitsDisk(region, cache.disk) && HeaderOk(cache.disk[region.start]) && cache.disk == cache.latest
      modifies this`lh, cache, cache.ring, cache.ring.next, cache.ring.prev
      ensures cache.Valid() && cache.Quiet() && DirtyAre(cache.bufs, []) && cache.View() == old(cache.View())
      ensures lh == DecodeHeader(cache.disk[region.start])
    {
      ghost var was := cache.bufs;
      FreeBlock(was, cache.disk, cache.latest, [], region.start);
      assert !Pinned(was[0]);
      hide Coherent;
      var b, _ := cache.Bread(region.start);
      var h := cache.bufs[b].data;
      var n := Word(h, 0);
      lh := [];
      var i := 0;
      while i < n
        invariant 0 <= i <= n && |lh| == i
        invariant forall j :: 0 <= j < i ==> lh[j] == Word(h, 1 + j)
        modifies this`lh
      {
        lh := lh + [Word(h, 1 + i)];
        i := i + 1;
      }
      cache.Brelse(b);
      DirtySameOne(was, cache.bufs, b, []);
    }

    /** `write_head`: the header goes to its block. `pinned` are the blocks that
        are still dirty. */
    method WriteHead(ghost pinned: seq<nat>) returns (panic: bool)
      requires Working(pinned) && region.start !in pinned
      modifies cache, cache.ring, cache.ring.next, cache.ring.prev
      ensures Working(pinned) && (panic <==> AllPinned(old(cache.bufs)))
      ensures panic ==> cache.bufs == old(cache.bufs) && cache.View() == old(cache.View())
      ensures !panic ==> !AllPinned(cache.bufs)
      ensures !panic ==>
              var h := EncodeHeader(old(cache.latest)[region.start], lh);
              cache.disk == old(cache.disk)[region.start := h] &&
              cache.latest == old(cache.latest)[region.start := h] &&
              cache.history == old(cache.history) + [Write(region.start, h)]
    {
      ghost var was := cache.bufs;
      FreeBlock(was, cache.disk, cache.latest, pinned, region.start);
      var b, _ := cache.Bread(region.start);
      if b == -1 {
        return true;
      }
      BreadClean(was, cache.bufs, b, region.start, pinned);
      hide Coherent, DirtyAre, EncodeHeader;
      var h := FillHeader(cache.bufs[b].data, lh);
      StoreAndWrite(cache, b, h);
      cache.Brelse(b);
      DirtySameOne(was, cache.bufs, b, pinned);
      assert !Pinned(cache.bufs[b]);
      return false;
    }
  }

  /** `bread` of a block that is not dirty gets a buffer that is not. */
  lemma BreadClean(bufs: seq<Buf>, bufs': seq<Buf>, b: nat, n: nat, pinned: seq<nat>)
    requires Unique(bufs) && DirtyAre(bufs, pinned) && b < |bufs| == |bufs'| && n !in pinned
    requires if Cached(bufs, n) then Caches(bufs[b], n) && bufs'[b].dirty == bufs[b].dirty
             else !Pinned(bufs[b]) && !bufs'[b].dirty
    ensures !bufs[b].dirty && !bufs'[b].dirty
  {
    if Cached(bufs, n) {
      DirtyIffListed(bufs, b, n, pinned);
    }
  }

  lemma TwoUnpinned(bufs: seq<Buf>)
    requires TwoFree(bufs)
    ensures !AllPinned(bufs)
  {
  }

  lemma DistinctTail(lh: seq<nat>, k: nat)
    requires DistinctBlocks(lh) && k <= |lh|
    ensures DistinctBlocks(lh[k..])
  {
  }

  lemma NotInUse(bufs: seq<Buf>, r: Region, lh: seq<nat>, n: nat)
    requires Elsewhere(bufs, r, lh) && (InLog(r, n) || n in lh)
    ensures Unreferenced(bufs, n)
  {
  }

  lemma SlotsFit(r: Region, v: Contents, tx: seq<Write>)
    requires SlotsHold(r, v, tx)
    ensures |tx| < r.size
  {
  }

  /** A commit of `tx` has been cut after `done` of its block writes. */
  ghost predicate CutAt(r: Region, v: Contents, w: Contents, tx: seq<Write>, done: nat)
  {
    && FitsDisk(r, v.disk) && |tx| <= LOGSIZE && InRange(v.disk, tx) && done < 2 * |tx| + 2
    && (done == 0 ==> w == v)
    && (done > 0 ==> ValidTx(r, v.disk, tx) && w.disk == CrashedCommit(r, v.disk, tx, done))
    && w.history == v.history + CommitWrites(r, v.disk, tx)[..done]
  }

  lemma CutInLog(r: Region, v: Contents, w: Contents, lh: seq<nat>, done: nat)
    requires Listed(r, v, lh) && lh != [] && done <= |lh| && (done > 0 ==> |lh| < r.size)
    requires Wrote(v, w, LogWrites(r, Tx(lh, v.latest))[..done])
    ensures CutAt(r, v, w, Tx(lh, v.latest), done)
  {
    var tx := Tx(lh, v.latest);
    if done > 0 {
      TxValid(r, v, lh);
    }
    hide EncodeHeader, LogWrites;
    assert CommitWrites(r, v.disk, tx)[..done] == LogWrites(r, tx)[..done];
  }

  lemma CutInInstall(r: Region, v: Contents, w: Contents, x: Contents, lh: seq<nat>, tx: seq<Write>, done: nat)
    requires Listed(r, v, lh) && tx == Tx(lh, v.latest) && FilledLog(r, v, w, lh, tx)
    requires done <= |tx| && Wrote(w, x, tx[..done])
    ensures CutAt(r, v, x, tx, |tx| + 1 + done)
  {
    hide EncodeHeader, LogWrites, Apply, SlotsHold, DistinctBlocks;
    TxValid(r, v, lh);
    var full := EncodeHeader(v.disk[r.start], lh);
    var first := LogWrites(r, tx) + [Write(r.start, full)];
    WroteConcat(v, w, x, first, tx[..done]);
    assert CommitWrites(r, v.disk, tx)[..|tx| + 1 + done] == first + tx[..done];
  }

  /** The list in memory and the disk go together. */
  ghost predicate Listed(r: Region, v: Contents, lh: seq<nat>)
  {
    && FitsDisk(r, v.disk) && |v.latest| == |v.disk| && |lh| <= LOGSIZE && DistinctBlocks(lh)
    && forall i :: 0 <= i < |lh| ==> lh[i] < |v.disk| && !InLog(r, lh[i])
  }

  /** The first half of a commit is done: slots and header are on the disk. */
  ghost predicate FilledLog(r: Region, v: Contents, w: Contents, lh: seq<nat>, tx: seq<Write>)
    requires Listed(r, v, lh)
  {
    var full := EncodeHeader(v.disk[r.start], lh);
    && |lh| < r.size && |tx| == |lh| && Targets(tx) == lh && SlotsHold(r, w, tx)
    && |w.latest| == |v.latest| && w.latest[r.start] == full
    && Wrote(v, w, LogWrites(r, tx) + [Write(r.start, full)])
  }

  lemma SlotsInLog(r: Region, v: Contents, w: Contents, lh: seq<nat>, tx: seq<Write>)
    requires Listed(r, v, lh) && FilledLog(r, v, w, lh, tx)
    ensures Targets(tx) == lh && SlotsHold(r, w, tx)
  {
    hide SlotsHold, EncodeHeader, LogWrites, Wrote;
  }

  /** The second half: the slots are at home and the header is empty. */
  ghost predicate Installed(r: Region, w: Contents, x: Contents, tx: seq<Write>)
  {
    r.start < |w.latest| && Wrote(w, x, tx + [Write(r.start, EncodeHeader(w.latest[r.start], []))])
  }

  /** The blocks that are still dirty in turn `k` of `install_trans`: all that are
      not installed in a commit, and none in a recovery. */
  ghost predicate ToInstall(bufs: seq<Buf>, lh: seq<nat>, commit: bool, pinned: seq<nat>, k: nat)
  {
    if commit then k <= |lh| && pinned == lh[k..] else pinned == [] && TwoFree(bufs)
  }

  ghost function Fewer(pinned: seq<nat>): (r: seq<nat>)
  {
    if pinned == [] then [] else pinned[1..]
  }

  lemma SameTurn(bufs: seq<Buf>, bufs': seq<Buf>, lh: seq<nat>, commit: bool, pinned: seq<nat>, k: nat)
    requires ToInstall(bufs, lh, commit, pinned, k) && (commit || bufs' == bufs)
    ensures ToInstall(bufs', lh, commit, pinned, k)
  {
  }

  lemma NextTurn(bufs: seq<Buf>, bufs': seq<Buf>, lh: seq<nat>, commit: bool, pinned: seq<nat>, k: nat)
    requires ToInstall(bufs, lh, commit, pinned, k) && k < |lh| && TwoFree(bufs')
    ensures ToInstall(bufs', lh, commit, Fewer(pinned), k + 1)
  {
  }

  lemma AllInstalled(bufs: seq<Buf>, lh: seq<nat>, commit: bool, pinned: seq<nat>)
    requires ToInstall(bufs, lh, commit, pinned, |lh|)
    ensures pinned == []
  {
  }

  /** Listed blocks for which there is no slot mean that every buffer is pinned. */
  lemma PinnedCount(bufs: seq<Buf>, disk: Disk, latest: Disk, r: Region, lh: seq<nat>)
    requires Coherent(bufs, disk, latest, {}) && |bufs| == NBUF && DirtyAre(bufs, lh) && DistinctBlocks(lh)
    requires Elsewhere(bufs, r, lh) && |lh| <= LOGSIZE && (|lh| < r.size || LOGSIZE <= r.size)
    ensures |lh| >= r.size ==> AllPinned(bufs)
    ensures !AllPinned(bufs) ==> |lh| < r.size
  {
    DirtyOnDisk(bufs, {}, disk, latest);
    AllPinnedIff(bufs, r, lh);
  }

  /** The first `k` listed blocks are in their slots. */
  ghost predicate Slotted(r: Region, v: Contents, w: Contents, lh: seq<nat>, k: nat)
    requires |v.disk| == |v.latest| && k <= |lh| && forall i :: 0 <= i < |lh| ==> lh[i] < |v.latest|
  {
    && |w.disk| == |w.latest| == |v.disk| && (k == 0 ==> w == v)
    && (k > 0 ==> |lh| < r.size && Wrote(v, w, LogWrites(r, Tx(lh, v.latest))[..k]))
  }

  lemma NoneSlotted(r: Region, v: Contents, lh: seq<nat>)
    requires |v.disk| == |v.latest| && forall i :: 0 <= i < |lh| ==> lh[i] < |v.latest|
    ensures Slotted(r, v, v, lh, 0)
  {
  }

  /** After a round not all buffers are pinned, and before the first they were not. */
  ghost predicate Unpinned(was: seq<Buf>, bufs: seq<Buf>, k: nat)
  {
    if k == 0 then bufs == was else !AllPinned(was) && !AllPinned(bufs)
  }

  lemma NotYet(bufs: seq<Buf>)
    ensures Unpinned(bufs, bufs, 0)
  {
  }

  lemma PinnedAtStart(was: seq<Buf>, bufs: seq<Buf>, k: nat)
    requires Unpinned(was, bufs, k)
    ensures AllPinned(bufs) <==> AllPinned(was)
    ensures AllPinned(bufs) ==> k == 0
    ensures k == 0 ==> bufs == was
  {
  }

  lemma OneRound(was: seq<Buf>, bufs: seq<Buf>, bufs': seq<Buf>, k: nat)
    requires Unpinned(was, bufs, k) && !AllPinned(bufs) && !AllPinned(bufs')
    ensures Unpinned(was, bufs', k + 1)
  {
  }

  lemma SlottedSize(r: Region, v: Contents, w: Contents, lh: seq<nat>, k: nat)
    requires |v.disk| == |v.latest| && k <= |lh| && forall i :: 0 <= i < |lh| ==> lh[i] < |v.latest|
    requires Slotted(r, v, w, lh, k)
    ensures k > 0 ==> |lh| < r.size
  {
  }

  /** Listed block `k` has been written to its slot. */
  ghost predicate InSlot(r: Region, w: Contents, x: Contents, lh: seq<nat>, k: nat)
  {
    && k < |lh| && lh[k] < |w.latest| && r.start + 1 + k < |w.disk| == |w.latest|
    && var slot, data := r.start + 1 + k, w.latest[lh[k]];
       && x.disk == w.disk[slot := data] && x.latest == w.latest[slot := data]
       && x.history == w.history + [Write(slot, data)]
  }

  lemma SlotNext(r: Region, v: Contents, w: Contents, x: Contents, lh: seq<nat>, k: nat)
    requires FitsDisk(r, v.disk) && |v.latest| == |v.disk| && k < |lh| < r.size
    requires forall i :: 0 <= i < |lh| ==> lh[i] < |v.disk| && !InLog(r, lh[i])
    requires Slotted(r, v, w, lh, k) && InSlot(r, w, x, lh, k)
    ensures Slotted(r, v, x, lh, k + 1)
  {
    if k == 0 {
      assert v.history + [] == v.history;
      assert Wrote(v, w, LogWrites(r, Tx(lh, v.latest))[..0]);
    }
    LogStep(r, v, w, x, lh, k);
  }

  lemma SlottedWrote(r: Region, v: Contents, w: Contents, lh: seq<nat>, k: nat)
    requires |v.latest| == |v.disk| && k <= |lh| && forall i :: 0 <= i < |lh| ==> lh[i] < |v.disk|
    requires Slotted(r, v, w, lh, k)
    ensures k > 0 ==> |lh| < r.size
    ensures Wrote(v, w, LogWrites(r, Tx(lh, v.latest))[..k])
  {
    if k == 0 {
      assert v.history + [] == v.history;
    }
  }

  /** What `ws` does to the disk, to the latest contents and to the history. */
  ghost predicate Wrote(v: Contents, w: Contents, ws: seq<Write>)
  {
    && |v.disk| == |v.latest| && InRange(v.disk, ws)
    && w.disk == Apply(v.disk, ws)
    && w.latest == Apply(v.latest, ws)
    && w.history == v.history + ws
  }

  lemma WroteMore(v: Contents, w: Contents, x: Contents, ws: seq<Write>, w1: Write)
    requires Wrote(v, w, ws) && w1.at < |v.disk|
    requires x.disk == w.disk[w1.at := w1.data] && x.latest == w.latest[w1.at := w1.data]
    requires x.history == w.history + [w1]
    ensures Wrote(v, x, ws + [w1])
  {
    ApplyOne(v.disk, ws, w1);
    ApplyOne(v.latest, ws, w1);
  }

  /** The writes of `write_log` up to `k`, and one more. */
  lemma LogStep(r: Region, v: Contents, w: Contents, x: Contents, lh: seq<nat>, k: nat)
    requires FitsDisk(r, v.disk) && |v.latest| == |v.disk| && k < |lh| < r.size
    requires forall i :: 0 <= i < |lh| ==> lh[i] < |v.disk| && !InLog(r, lh[i])
    requires Wrote(v, w, LogWrites(r, Tx(lh, v.latest))[..k])
    requires var slot, data := r.start + 1 + k, w.latest[lh[k]];
             x.disk == w.disk[slot := data] && x.latest == w.latest[slot := data] &&
             x.history == w.history + [Write(slot, data)]
    ensures Wrote(v, x, LogWrites(r, Tx(lh, v.latest))[..k + 1])
  {
    var ws := LogWrites(r, Tx(lh, v.latest));
    ApplyFrame(v.latest, ws[..k], lh[k]);
    assert ws[..k + 1] == ws[..k] + [ws[k]];
    WroteMore(v, w, x, ws[..k], ws[k]);
  }

  /** The slots hold the data of `tx`, whose targets are home blocks. */
  ghost predicate SlotsHold(r: Region, v: Contents, tx: seq<Write>)
  {
    && FitsDisk(r, v.disk) && |v.latest| == |v.disk| && |tx| < r.size
    && InRange(v.disk, tx)
    && forall i :: 0 <= i < |tx| ==> !InLog(r, tx[i].at) && v.latest[r.start + 1 + i] == tx[i].data
  }

  lemma HeaderKept(r: Region, v: Contents, w: Contents, tx: seq<Write>)
    requires SlotsHold(r, v, tx) && Wrote(v, w, tx)
    ensures r.start < |v.disk| == |v.latest| == |w.latest| && w.latest[r.start] == v.latest[r.start]
  {
    ApplyFrame(v.latest, tx, r.start);
  }

  lemma EmptyList(bufs: seq<Buf>, r: Region, lh: seq<nat>)
    requires Elsewhere(bufs, r, lh)
    ensures Elsewhere(bufs, r, []) && DistinctBlocks([])
  {
  }

  lemma NoneInstalled(r: Region, v: Contents, tx: seq<Write>)
    requires SlotsHold(r, v, tx)
    ensures Wrote(v, v, tx[..0])
  {
    assert v.history + [] == v.history;
  }

  lemma InstallStep(r: Region, v: Contents, w: Contents, x: Contents, tx: seq<Write>, k: nat)
    requires SlotsHold(r, v, tx) && k < |tx|
    requires Wrote(v, w, tx[..k])
    requires var data := w.latest[r.start + 1 + k];
             x.disk == w.disk[tx[k].at := data] && x.latest == w.latest[tx[k].at := data] &&
             x.history == w.history + [Write(tx[k].at, data)]
    ensures Wrote(v, x, tx[..k + 1])
  {
    ApplyFrame(v.latest, tx[..k], r.start + 1 + k);
    assert tx[..k + 1] == tx[..k] + [tx[k]];
    WroteMore(v, w, x, tx[..k], tx[k]);
  }

  /** The header block is never listed, so its disk copy is current. */
  lemma HeaderBlockClean(bufs: seq<Buf>, disk: Disk, latest: Disk, r: Region, lh: seq<nat>)
    requires Coherent(bufs, disk, latest, {}) && FitsDisk(r, disk) && DirtyAre(bufs, lh)
    requires forall i :: 0 <= i < |lh| ==> !InLog(r, lh[i])
    ensures disk[r.start] == latest[r.start] && r.start !in lh
  {
    QuietBlock(bufs, disk, latest, r.start);
  }

  lemma NothingDirty(bufs: seq<Buf>, disk: Disk, latest: Disk)
    requires Coherent(bufs, disk, latest, {}) && DirtyAre(bufs, [])
    ensures disk == latest
  {
    forall n | 0 <= n < |disk|
      ensures disk[n] == latest[n]
    {
      QuietBlock(bufs, disk, latest, n);
    }
  }

  lemma TxValid(r: Region, v: Contents, lh: seq<nat>)
    requires FitsDisk(r, v.disk) && |v.latest| == |v.disk| && |lh| <= LOGSIZE && |lh| < r.size && DistinctBlocks(lh)
    requires forall i :: 0 <= i < |lh| ==> lh[i] < |v.disk| && !InLog(r, lh[i])
    ensures ValidTx(r, v.disk, Tx(lh, v.latest)) && Targets(Tx(lh, v.latest)) == lh
  {
  }

  lemma SlotsFilled(r: Region, v: Contents, w: Contents, lh: seq<nat>)
    requires FitsDisk(r, v.disk) && |v.latest| == |v.disk| && |lh| <= LOGSIZE && |lh| < r.size && DistinctBlocks(lh)
    requires forall i :: 0 <= i < |lh| ==> lh[i] < |v.disk| && !InLog(r, lh[i])
    requires Wrote(v, w, LogWrites(r, Tx(lh, v.latest)))
    ensures ValidTx(r, v.disk, Tx(lh, v.latest)) && Targets(Tx(lh, v.latest)) == lh
    ensures SlotsHold(r, w, Tx(lh, v.latest)) && w.latest[r.start] == v.latest[r.start]
    ensures SameHome(r, w.latest, v.latest)
  {
    var tx := Tx(lh, v.latest);
    var ws := LogWrites(r, tx);
    TxValid(r, v, lh);
    FillingSlots(r, v.latest, tx, |tx|);
    assert ws[..|tx|] == ws;
  }

  lemma SlotsUnderHeader(r: Region, w: Contents, x: Contents, tx: seq<Write>)
    requires SlotsHold(r, w, tx) && |tx| <= LOGSIZE && AllWords(Targets(tx))
    requires x.latest == w.latest[r.start := EncodeHeader(w.latest[r.start], Targets(tx))] && |x.disk| == |w.disk|
    ensures SlotsHold(r, x, tx)
  {
  }

  /** The two halves add up to `CommitWrites`, which leaves every home block
      with its latest content and the log empty. */
  lemma CommitWrote(r: Region, v: Contents, w: Contents, x: Contents, lh: seq<nat>, tx: seq<Write>)
    requires Listed(r, v, lh) && tx == Tx(lh, v.latest) && FilledLog(r, v, w, lh, tx) && Installed(r, w, x, tx)
    ensures ValidTx(r, v.disk, tx) && Wrote(v, x, CommitWrites(r, v.disk, tx))
    ensures Clean(r, x.disk) && SameHome(r, x.latest, v.latest)
  {
    hide EncodeHeader, LogWrites, Apply, SlotsHold, DistinctBlocks;
    TxValid(r, v, lh);
    var full := EncodeHeader(v.disk[r.start], lh);
    var first, second := LogWrites(r, tx) + [Write(r.start, full)], tx + [Write(r.start, EncodeHeader(full, []))];
    WroteConcat(v, w, x, first, second);
    assert first + second == CommitWrites(r, v.disk, tx);
    CommitDurable(r, v, x, tx);
  }

  lemma CommitDurable(r: Region, v: Contents, x: Contents, tx: seq<Write>)
    requires ValidTx(r, v.disk, tx) && |v.latest| == |v.disk|
    requires forall i :: 0 <= i < |tx| ==> tx[i].data == v.latest[tx[i].at]
    requires Wrote(v, x, CommitWrites(r, v.disk, tx))
    ensures Clean(r, x.disk) && SameHome(r, x.latest, v.latest)
  {
    var ws := CommitWrites(r, v.disk, tx);
    assert ws[..2 * |tx| + 2] == ws;
    CommitCompletes(r, v.disk, tx);
    forall b | 0 <= b < |v.latest| && !InLog(r, b)
      ensures x.latest[b] == v.latest[b]
    {
      ApplyIdle(v.latest, ws, b);
    }
  }

  /** Writes that give a block the content it has leave it alone. */
  lemma {:induction false} ApplyIdle(d: Disk, ws: seq<Write>, b: nat)
    requires InRange(d, ws) && b < |d|
    requires forall i :: 0 <= i < |ws| && ws[i].at == b ==> ws[i].data == d[b]
    ensures Apply(d, ws)[b] == d[b]
  {
    if ws != [] {
      ApplyIdle(d, ws[..|ws| - 1], b);
    }
  }

  lemma WroteConcat(v: Contents, w: Contents, x: Contents, ws: seq<Write>, xs: seq<Write>)
    requires Wrote(v, w, ws) && Wrote(w, x, xs)
    ensures Wrote(v, x, ws + xs)
  {
    ApplyConcat(v.disk, ws, xs);
    ApplyConcat(v.latest, ws, xs);
  }

  /** The count and the block numbers, stored into the header block. */
  method FillHeader(data: Block, lh: seq<nat>) returns (h: Block)
    requires |lh| <= LOGSIZE && AllWords(lh)
    ensures h == EncodeHeader(data, lh)
  {
    h := SetWord(data, 0, |lh|);
    var i := 0;
    while i < |lh|
      invariant 0 <= i <= |lh|
      invariant h == SetBlocks(SetWord(data, 0, |lh|), lh[..i])
    {
      assert lh[..i + 1][..i] == lh[..i];
      h := SetWord(h, 1 + i, lh[i]);
      i := i + 1;
    }
    assert lh[..|lh|] == lh;
  }

  lemma DirtySameOne(bufs: seq<Buf>, bufs': seq<Buf>, b: nat, lh: seq<nat>)
    requires |bufs| == |bufs'| && b < |bufs| && bufs' == bufs[b := bufs'[b]]
    requires DirtyAre(bufs, lh) && !bufs[b].dirty && !bufs'[b].dirty
    ensures DirtyAre(bufs', lh)
  {
    forall k | 0 <= k < |lh|
      ensures DirtyBlock(bufs', lh[k])
    {
      assert DirtyBlock(bufs, lh[k]);
      var i :| 0 <= i < |bufs| && Caches(bufs[i], lh[k]) && bufs[i].dirty;
      assert Caches(bufs'[i], lh[k]) && bufs'[i].dirty;
    }
  }

  /** Reads a log slot and then a home block, which either is dirty and thus in
      the cache, or finds another buffer. It fails if and only if every buffer is
      pinned. */
  method BreadBoth(cache: Cache, slot: nat, home: nat, ghost pinned: seq<nat>) returns (a: nat, b: nat, panic: bool)
    requires cache.Valid() && cache.changed == {} && slot < |cache.disk| && home < |cache.disk|
    requires DirtyAre(cache.bufs, pinned) && Unreferenced(cache.bufs, slot) && Unreferenced(cache.bufs, home)
    requires slot != home && slot !in pinned && (home in pinned || TwoFree(cache.bufs))
    modifies cache`bufs
    ensures cache.Valid() && (panic <==> AllPinned(old(cache.bufs)))
    ensures panic ==> cache.bufs == old(cache.bufs)
    ensures !panic ==> a < NBUF && b < NBUF && a != b && cache.Holds(a, slot) && cache.Holds(b, home)
    ensures !panic ==> cache.bufs[a].data == cache.latest[slot] && cache.bufs[b].data == cache.latest[home]
    ensures !panic ==> cache.bufs == old(cache.bufs)[a := cache.bufs[a]][b := cache.bufs[b]]
    ensures !panic ==> BothHeld(cache.bufs, a, b) && DirtyAre(cache.bufs, pinned)
    ensures !panic ==> !cache.bufs[a].dirty && (cache.bufs[b].dirty <==> home in pinned)
  {
    ghost var was := cache.bufs;
    FreeBlock(was, cache.disk, cache.latest, pinned, slot);
    var to, _ := cache.Bread(slot);
    if to == -1 {
      return 0, 0, true;
    }
    ghost var mid := cache.bufs;
    assert !was[to].dirty && mid[to].refcnt == 1 by {
      if Cached(was, slot) {
        DirtyIffListed(was, to, slot, pinned);
      }
    }
    SecondRead(was, mid, to, home, pinned);
    DirtySameOne(was, mid, to, pinned);
    FreeBlock(mid, cache.disk, cache.latest, pinned, home);
    var from, _ := cache.Bread(home);
    a, b, panic := to, from, false;
    assert DirtyAre(cache.bufs, pinned) by {
      DirtySame(was, cache.bufs, a, b, pinned, pinned);
    }
    DirtyIffListed(cache.bufs, b, home, pinned);
  }

  lemma DirtyIffListed(bufs: seq<Buf>, b: nat, n: nat, lh: seq<nat>)
    requires Unique(bufs) && DirtyAre(bufs, lh) && b < |bufs| && Caches(bufs[b], n)
    ensures bufs[b].dirty <==> n in lh
  {
    UniqueElsewhere(bufs, b, n);
    if n in lh {
      var k :| 0 <= k < |lh| && lh[k] == n;
      assert DirtyBlock(bufs, lh[k]);
    }
  }

  /** Two buffers are in use, by one process each. */
  predicate BothHeld(bufs: seq<Buf>, a: nat, b: nat)
  {
    a < |bufs| && b < |bufs| && bufs[a].refcnt == 1 && bufs[b].refcnt == 1
  }

  lemma SecondRead(bufs: seq<Buf>, bufs': seq<Buf>, a: nat, home: nat, pinned: seq<nat>)
    requires |bufs| == |bufs'| == NBUF && a < NBUF && bufs' == bufs[a := bufs'[a]]
    requires DirtyAre(bufs, pinned) && !bufs[a].dirty && !Caches(bufs'[a], home) && Unreferenced(bufs, home)
    requires home in pinned || TwoFree(bufs)
    ensures Unreferenced(bufs', home) && (Cached(bufs', home) || !AllPinned(bufs'))
  {
    if home in pinned {
      StillCached(bufs, bufs', a, home);
    } else {
      var i: nat, j: nat :| i < |bufs| && j < |bufs| && i != j && !Pinned(bufs[i]) && !Pinned(bufs[j]);
      assert !Pinned(bufs'[if i == a then j else i]);
    }
  }

  /** The buffers after one held buffer has been copied to another, that one
      written, and both released. */
  function Copied(bufs: seq<Buf>, from: nat, to: nat): (r: seq<Buf>)
    requires from < |bufs| && to < |bufs| && BothHeld(bufs, from, to)
  {
    bufs[from := bufs[from].(locked := false, refcnt := 0)]
        [to := bufs[to].(data := bufs[from].data, dirty := false, locked := false, refcnt := 0)]
  }

  /** A held buffer gets new data and is written. */
  method StoreAndWrite(cache: Cache, to: nat, data: Block)
    requires cache.Valid() && cache.changed == {} && to < NBUF && cache.bufs[to].locked && cache.bufs[to].valid
    modifies cache`bufs, cache`disk, cache`latest, cache`history, cache`changed
    ensures cache.Valid() && cache.changed == {}
    ensures cache.bufs == old(cache.bufs)[to := old(cache.bufs)[to].(data := data, dirty := false)]
    ensures var n := old(cache.bufs)[to].blockno;
            n < |old(cache.disk)| && n < |old(cache.latest)| &&
            cache.disk == old(cache.disk)[n := data] &&
            cache.latest == old(cache.latest)[n := data] &&
            cache.history == old(cache.history) + [Write(n, data)]
  {
    assert BufOk(cache.bufs, to, cache.changed, cache.disk, cache.latest);
    hide Coherent;
    cache.Store(to, data);
    cache.Bwrite(to);
  }

  method ReleaseBoth(cache: Cache, a: nat, b: nat)
    requires cache.Valid() && cache.changed == {} && a != b && a < NBUF && b < NBUF
    requires cache.bufs[a].locked && cache.bufs[b].locked && cache.bufs[a].refcnt == 1 && cache.bufs[b].refcnt == 1
    modifies cache`bufs, cache.ring, cache.ring.next, cache.ring.prev
    ensures cache.Valid()
    ensures cache.bufs == old(cache.bufs)[a := old(cache.bufs)[a].(locked := false, refcnt := 0)]
                                         [b := old(cache.bufs)[b].(locked := false, refcnt := 0)]
  {
    hide Coherent;
    cache.Brelse(a);
    cache.Brelse(b);
  }

  method CopyHeld(cache: Cache, from: nat, to: nat)
    requires cache.Valid() && cache.changed == {} && from != to && from < NBUF && to < NBUF
    requires cache.bufs[from].locked && cache.bufs[from].valid && cache.bufs[to].locked && cache.bufs[to].valid
    requires BothHeld(cache.bufs, from, to)
    modifies cache, cache.ring, cache.ring.next, cache.ring.prev
    ensures cache.Valid() && cache.changed == {}
    ensures cache.bufs == Copied(old(cache.bufs), from, to)
    ensures var n := old(cache.bufs)[to].blockno;
            var data := old(cache.bufs)[from].data;
            n < |old(cache.disk)| && n < |old(cache.latest)| &&
            cache.disk == old(cache.disk)[n := data] &&
            cache.latest == old(cache.latest)[n := data] &&
            cache.history == old(cache.history) + [Write(n, data)]
  {
    hide Coherent;
    StoreAndWrite(cache, to, cache.bufs[from].data);
    ReleaseBoth(cache, from, to);
  }

  /** The same, and what it means for the dirty blocks and for others. */
  method CopyBetween(cache: Cache, from: nat, to: nat, ghost was: seq<Buf>, ghost r: Region, ghost lh: seq<nat>,
                     ghost pinned: seq<nat>)
    requires cache.Valid() && cache.changed == {} && from != to && from < NBUF && to < NBUF
    requires cache.bufs[from].locked && cache.bufs[from].valid && cache.bufs[to].locked && cache.bufs[to].valid
    requires BothHeld(cache.bufs, from, to) && DirtyAre(cache.bufs, pinned) && Elsewhere(was, r, lh)
    requires |was| == NBUF && cache.bufs == was[from := cache.bufs[from]][to := cache.bufs[to]]
    requires cache.bufs[to].dirty ==> |pinned| > 0 && Caches(cache.bufs[to], pinned[0]) && DistinctBlocks(pinned)
    modifies cache, cache.ring, cache.ring.next, cache.ring.prev
    ensures cache.Valid() && cache.changed == {} && cache.bufs == Copied(old(cache.bufs), from, to)
    ensures DirtyAre(cache.bufs, if old(cache.bufs)[to].dirty then pinned[1..] else pinned)
    ensures Elsewhere(cache.bufs, r, lh) && !AllPinned(cache.bufs)
    ensures var n := old(cache.bufs)[to].blockno;
            var data := old(cache.bufs)[from].data;
            n < |old(cache.disk)| && n < |old(cache.latest)| &&
            cache.disk == old(cache.disk)[n := data] &&
            cache.latest == old(cache.latest)[n := data] &&
            cache.history == old(cache.history) + [Write(n, data)]
  {
    hide Coherent, DirtyAre, Elsewhere, DistinctBlocks, AllPinned, Copied;
    CopiedDirty(cache.bufs, from, to, pinned, cache.changed, cache.disk, cache.latest);
    CopiedElsewhere(was, cache.bufs, from, to, r, lh);
    CopyHeld(cache, from, to);
  }

  lemma CopiedDirty(bufs: seq<Buf>, from: nat, to: nat, pinned: seq<nat>, changed: set<nat>, disk: Disk, latest: Disk)
    requires from < |bufs| && to < |bufs| && from != to && BothHeld(bufs, from, to)
    requires Coherent(bufs, disk, latest, changed) && DirtyAre(bufs, pinned)
    requires bufs[to].dirty ==> |pinned| > 0 && Caches(bufs[to], pinned[0]) && DistinctBlocks(pinned)
    ensures DirtyAre(Copied(bufs, from, to), if bufs[to].dirty then pinned[1..] else pinned)
  {
    DirtyOnDisk(bufs, changed, disk, latest);
    if bufs[to].dirty {
      DirtyFewer(bufs, Copied(bufs, from, to), from, to, pinned);
    } else {
      DirtySame(bufs, Copied(bufs, from, to), to, from, pinned, pinned);
    }
  }

  lemma CopiedFree(held: seq<Buf>, from: nat, to: nat)
    requires from < |held| && to < |held| && from != to && BothHeld(held, from, to) && !held[from].dirty
    ensures TwoFree(Copied(held, from, to))
  {
    assert !Pinned(Copied(held, from, to)[from]) && !Pinned(Copied(held, from, to)[to]);
  }

  /** What others refer to is as before, and the two buffers are free again. */
  lemma CopiedElsewhere(was: seq<Buf>, held: seq<Buf>, from: nat, to: nat, r: Region, lh: seq<nat>)
    requires |held| == |was| && from < |was| && to < |was| && from != to && BothHeld(held, from, to)
    requires held == was[from := held[from]][to := held[to]] && Elsewhere(was, r, lh)
    ensures Elsewhere(Copied(held, from, to), r, lh)
    ensures !Pinned(Copied(held, from, to)[to]) && !AllPinned(Copied(held, from, to))
  {
  }

  lemma DirtyOnDisk(bufs: seq<Buf>, changed: set<nat>, disk: Disk, latest: Disk)
    requires Coherent(bufs, disk, latest, changed)
    ensures forall i :: 0 <= i < |bufs| && bufs[i].dirty ==> bufs[i].dev == DISK
  {
    forall i | 0 <= i < |bufs| && bufs[i].dirty
      ensures bufs[i].dev == DISK
    {
      assert BufOk(bufs, i, changed, disk, latest);
    }
  }

  lemma DirtyFewer(bufs: seq<Buf>, bufs': seq<Buf>, a: nat, b: nat, lh: seq<nat>)
    requires |bufs| == |bufs'| && a < |bufs| && b < |bufs| && a != b
    requires bufs' == bufs[a := bufs'[a]][b := bufs'[b]]
    requires Unique(bufs) && DirtyAre(bufs, lh) && |lh| > 0 && DistinctBlocks(lh)
    requires Caches(bufs[b], lh[0]) && !bufs'[b].dirty
    requires bufs'[a].dirty == bufs[a].dirty && bufs'[a].dev == bufs[a].dev && bufs'[a].blockno == bufs[a].blockno
    requires bufs[a].dirty ==> bufs[a].dev == DISK
    requires forall i :: 0 <= i < |bufs| && bufs[i].dirty ==> bufs[i].dev == DISK
    ensures DirtyAre(bufs', lh[1..])
  {
    UniqueElsewhere(bufs, b, lh[0]);
    forall i | 0 <= i < |bufs'| && bufs'[i].dirty
      ensures bufs'[i].blockno in lh[1..]
    {
      assert bufs[i].dirty && bufs[i].blockno in lh && !Caches(bufs[i], lh[0]);
    }
    forall k | 0 <= k < |lh[1..]|
      ensures DirtyBlock(bufs', lh[1..][k])
    {
      assert DirtyBlock(bufs, lh[k + 1]);
      var i :| 0 <= i < |bufs| && Caches(bufs[i], lh[k + 1]) && bufs[i].dirty;
      assert Caches(bufs'[i], lh[k + 1]) && bufs'[i].dirty;
    }
  }

  lemma DirtyMore(bufs: seq<Buf>, bufs': seq<Buf>, b: nat, lh: seq<nat>, lh': seq<nat>)
    requires DirtyAre(bufs, lh) && b < |bufs| && bufs[b].dev == DISK
    requires bufs' == bufs[b := bufs[b].(dirty := true)]
    requires lh' == lh + [bufs[b].blockno] || (lh' == lh && bufs[b].blockno in lh)
    ensures DirtyAre(bufs', lh')
  {
    assert Caches(bufs'[b], bufs[b].blockno) && bufs'[b].dirty;
    forall k | 0 <= k < |lh|
      ensures DirtyBlock(bufs', lh[k])
    {
      assert DirtyBlock(bufs, lh[k]);
      var i :| 0 <= i < |bufs| && Caches(bufs[i], lh[k]) && bufs[i].dirty;
      assert Caches(bufs'[i], lh[k]) && bufs'[i].dirty;
    }
  }
}
