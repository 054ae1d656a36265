/**
 The file system over the log: what the files are after any number of crashes.
 */
module CrashFiles {
  import opened Blocks
  import opened FsState
  import opened FsChanges
  import opened FsSteps
  import opened FsLogged
  import opened FlatFiles
  import opened Params
  import L = CrashLog

  // ---- What is read from the disk after a restart ----

  ghost function ReadInode(l: Layout, d: seq<Block>, i: nat): (ip: Inode)
    requires ValidLayout(l) && |d| == l.size && i < l.ninodes
  {
    BlocksInRange(l, i, 0);
    var b, at := d[IBlock(l, i)], INODE_WORDS * (i % IPB);
    Inode(Word(b, at), Word(b, at + 1), Word(b, at + 2),
          seq<nat>(NDIRECT + 1, j requires 0 <= j < NDIRECT + 1 => Word(b, at + 3 + j)))
  }

  /** The file system as it is found on a disk. */
  ghost function Mounted(l: Layout, d: seq<Block>): (s: Fs)
    requires ValidLayout(l) && |d| == l.size
  {
    Fs(d, seq(l.ninodes, i requires 0 <= i < l.ninodes => ReadInode(l, d, i)))
  }

  lemma ReadBack(l: Layout, s: Fs, i: nat)
    requires Shape(l, s) && i < l.ninodes && Synced(l, s, i)
    ensures ReadInode(l, s.disk, i) == s.mem[i]
  {
    hide Word;
    BlocksInRange(l, i, 0);
    assert IsInode(s.mem[i]);
    var cs, ip, b, at := InodeWords(s.mem[i]), s.mem[i], s.disk[IBlock(l, i)], INODE_WORDS * (i % IPB);
    assert cs[0] == ip.kind && cs[1] == ip.links && cs[2] == ip.size;
    forall j | 0 <= j < NDIRECT + 1
      ensures Word(b, at + 3 + j) == ip.addrs[j]
    {
      assert cs[3 + j] == ip.addrs[j];
    }
    assert ReadInode(l, s.disk, i).addrs == ip.addrs;
  }

  /** Between operations nothing is only in memory. */
  lemma MountedIs(l: Layout, s: Fs)
    requires Good(l, s)
    ensures Mounted(l, s.disk) == s
  {
    hide Good, ReadInode, Synced, Mapped;
    forall i: nat | i < l.ninodes
      ensures ReadInode(l, s.disk, i) == s.mem[i]
    {
      GoodFile(l, s, i);
      ReadBack(l, s, i);
    }
    assert Mounted(l, s.disk).mem == s.mem;
  }

  // ---- The blocks in front of the inodes do not matter ----

  ghost predicate SameFrom(l: Layout, d: seq<Block>, e: seq<Block>)
    requires ValidLayout(l)
  {
    |d| == |e| == l.size && forall b :: l.inodestart <= b < l.size ==> e[b] == d[b]
  }

  lemma SameFromQuiet(l: Layout, s: Fs, e: seq<Block>)
    requires Inv(l, s) && SameFrom(l, s.disk, e)
    ensures Quiet(l, s, Fs(e, s.mem))
  {
    hide Inv;
    var t := Fs(e, s.mem);
    forall j: nat | j < |s.mem|
      ensures SameSlots(s, t, j)
    {
      SlotInv(l, s, j, INDIRECT);
    }
  }

  lemma SameFromGood(l: Layout, s: Fs, e: seq<Block>)
    requires Good(l, s) && SameFrom(l, s.disk, e)
    ensures Good(l, Fs(e, s.mem))
  {
    hide Inv, Quiet, Addr, Word, InodeWords;
    var t := Fs(e, s.mem);
    SameFromQuiet(l, s, e);
    QuietInv(l, s, t);
    forall j: nat | j < |t.mem|
      ensures FileOk(l, t, j)
    {
      GoodFile(l, s, j);
      BlocksInRange(l, j, 0);
      assert Synced(l, t, j);
      forall bn | 0 <= bn < MAXFILE && bn * BSIZE < t.mem[j].size
        ensures Addr(t, j, SlotOf(bn)) != 0
      {
        QuietAddr(l, s, t, j, SlotOf(bn));
        assert Addr(s, j, SlotOf(bn)) != 0;
      }
    }
  }

  lemma SameFromFiles(l: Layout, s: Fs, e: seq<Block>)
    requires Good(l, s) && SameFrom(l, s.disk, e) && GoodSized(s)
    ensures Files(Fs(e, s.mem)) == Files(s)
  {
    hide Inv, Quiet, Addr, Good;
    var t := Fs(e, s.mem);
    SameFromQuiet(l, s, e);
    forall j: nat, o: nat | j < |s.mem| && o < MAXFILE * BSIZE
      ensures ByteAt(t, j, o) == ByteAt(s, j, o)
    {
      QuietAddr(l, s, t, j, SlotOf(o / BSIZE));
      SlotInv(l, s, j, SlotOf(o / BSIZE));
    }
    SameFiles(s, t);
  }

  // ---- Runs ----

  /** The writes of a commit are the blocks in the log, as they are in memory. */
  ghost predicate IsTx(tx: seq<L.Write>, logged: set<nat>, disk: seq<Block>)
  {
    && L.DistinctTargets(tx)
    && (forall k :: 0 <= k < |tx| ==> tx[k].at in logged && tx[k].at < |disk| && tx[k].data == disk[tx[k].at])
    && (forall b :: b in logged ==> exists k :: 0 <= k < |tx| && tx[k].at == b)
  }

  /** Each commit ends a transaction that made the changes `cs` and left `after` in
      memory; it returns, or a crash cuts it and recoveries follow, the last of them whole. */
  datatype Run = Start | Commit(earlier: Run, after: Fs, cs: seq<Change>, logged: set<nat>, event: L.Event)

  ghost predicate ValidRun(l: Layout, r: L.Region, d: seq<Block>, run: Run)
    decreases run, 0
  {
    match run
    case Start =>
      && ValidLayout(l) && |d| == l.size && L.Clean(r, d) && r.start + r.size <= l.inodestart
      && Good(l, Mounted(l, d))
    case Commit(earlier, after, cs, logged, event) =>
      && ValidRun(l, r, d, earlier) && ValidLayout(l)
      && var now := DiskAfter(l, r, d, earlier);
         && |now| == l.size && L.Clean(r, now) && L.ValidEvent(r, now, event)
         && Transacts(l, Mounted(l, now), after, cs, logged) && IsTx(event.tx, logged, after.disk)
  }

  ghost function DiskAfter(l: Layout, r: L.Region, d: seq<Block>, run: Run): (e: seq<Block>)
    requires ValidRun(l, r, d, run)
    ensures |e| == |d|
    decreases run, 1
  {
    match run
    case Start => d
    case Commit(earlier, _, _, _, event) => L.After(r, DiskAfter(l, r, d, earlier), event)
  }

  /** The files with the changes of the durable transactions, whole and in order. */
  ghost function Expected(fs: seq<seq<Byte>>, run: Run): (r: seq<seq<Byte>>)
  {
    match run
    case Start => fs
    case Commit(earlier, _, cs, _, event) =>
      var before := Expected(fs, earlier);
      if L.Durable(event) then ChangedBy(before, cs) else before
  }

  lemma {:induction false} TxSize(tx: seq<L.Write>, logged: set<nat>)
    requires L.DistinctTargets(tx) && forall k :: 0 <= k < |tx| ==> tx[k].at in logged
    ensures |tx| <= |logged|
  {
    if tx != [] {
      var n := |tx| - 1;
      TxSize(tx[..n], logged - {tx[n].at});
    }
  }

  /** A transaction that logs no more blocks than the log has slots can be
      committed. */
  lemma CanCommit(l: Layout, r: L.Region, now: seq<Block>, after: Fs, cs: seq<Change>, logged: set<nat>,
                  tx: seq<L.Write>)
    requires ValidLayout(l) && |now| == l.size && L.Clean(r, now) && r.start + r.size <= l.inodestart
    requires Transacts(l, Mounted(l, now), after, cs, logged) && IsTx(tx, logged, after.disk)
    requires |logged| <= LOGSIZE && |logged| < r.size
    ensures L.ValidTx(r, now, tx)
  {
    hide Good, Files, ChangedBy, ReadInode;
    TxSize(tx, logged);
    forall k | 0 <= k < |tx|
      ensures tx[k].at < |now| && !L.InLog(r, tx[k].at)
    {
      assert tx[k].at in logged - {};
    }
  }

  /** Installing the transaction gives the disk as it was in memory. */
  lemma TxInstalls(l: Layout, now: seq<Block>, tx: seq<L.Write>, logged: set<nat>, disk: seq<Block>)
    requires LogStep(l, now, {}, disk, logged) && IsTx(tx, logged, disk) && L.InRange(now, tx)
    ensures L.Apply(now, tx) == disk
  {
    hide L.Apply;
    forall b: nat | b < |disk|
      ensures L.Apply(now, tx)[b] == disk[b]
    {
      if b in logged {
        var k :| 0 <= k < |tx| && tx[k].at == b;
        L.ApplyAt(now, tx, k);
      } else {
        L.ApplyFrame(now, tx, b);
      }
    }
  }

  lemma HomeIsFrom(l: Layout, r: L.Region, d: seq<Block>, e: seq<Block>)
    requires ValidLayout(l) && |d| == l.size && L.SameHome(r, e, d) && r.start + r.size <= l.inodestart
    ensures SameFrom(l, d, e)
  {
  }

  /** A disk that agrees with a good state from the inodes on mounts as it. */
  lemma MountsAs(l: Layout, s: Fs, e: seq<Block>)
    requires Good(l, s) && SameFrom(l, s.disk, e)
    ensures Good(l, Mounted(l, e)) && GoodSized(s) && GoodSized(Mounted(l, e)) && Files(Mounted(l, e)) == Files(s)
  {
    hide Good, Mounted, Files, SameFrom;
    SameFromGood(l, s, e);
    MountedIs(l, Fs(e, s.mem));
    GoodSizes(l, s);
    SameFromFiles(l, s, e);
  }

  lemma {:induction false} LogStaysBelow(l: Layout, r: L.Region, d: seq<Block>, run: Run)
    requires ValidRun(l, r, d, run)
    ensures ValidLayout(l) && |d| == l.size && r.start + r.size <= l.inodestart && Good(l, Mounted(l, d))
  {
    hide L.After, Good, Mounted;
    if run.Commit? {
      LogStaysBelow(l, r, d, run.earlier);
    }
  }

  /** Over a whole run with any number of crashes, the file system found on the
      disk is in order, and its files are those that the durable transactions
      left, whole and in order: no change of a transaction is there without the
      others. */
  lemma {:induction false} FilesSurvive(l: Layout, r: L.Region, d: seq<Block>, run: Run)
    requires ValidRun(l, r, d, run)
    ensures ValidLayout(l) && |d| == l.size
    ensures var s, now := Mounted(l, d), Mounted(l, DiskAfter(l, r, d, run));
            && L.Clean(r, DiskAfter(l, r, d, run)) && Good(l, now)
            && GoodSized(s) && GoodSized(now) && Files(now) == Expected(Files(s), run)
  {
    LogStaysBelow(l, r, d, run);
    hide L.After, Good, Mounted, Files, ChangedBy, L.Clean, GoodSized;
    match run
    case Start =>
      GoodSizes(l, Mounted(l, d));
      assert GoodSized(Mounted(l, d)) by { SizesAre(Mounted(l, d)); }
    case Commit(earlier, after, cs, logged, event) =>
      FilesSurvive(l, r, d, earlier);
      OneCommit(l, r, DiskAfter(l, r, d, earlier), after, cs, logged, event);
  }

  lemma SizesAre(s: Fs)
    requires forall j :: 0 <= j < |s.mem| ==> s.mem[j].size <= MAXFILE * BSIZE
    ensures GoodSized(s)
  {
  }

  /** One commit, returned or cut. */
  lemma {:induction false} OneCommit(l: Layout, r: L.Region, now: seq<Block>, after: Fs, cs: seq<Change>,
                                     logged: set<nat>, event: L.Event)
    requires ValidLayout(l) && |now| == l.size && L.Clean(r, now) && L.ValidEvent(r, now, event)
    requires r.start + r.size <= l.inodestart && Good(l, Mounted(l, now))
    requires Transacts(l, Mounted(l, now), after, cs, logged) && IsTx(event.tx, logged, after.disk)
    ensures var s, t := Mounted(l, now), Mounted(l, L.After(r, now, event));
            && L.Clean(r, L.After(r, now, event)) && Good(l, t) && GoodSized(s) && GoodSized(t)
            && Files(t) == if L.Durable(event) then ChangedBy(Files(s), cs) else Files(s)
  {
    hide Good, Files, ChangedBy, LogStep, IsTx, L.After, L.Clean, ReadInode;
    var s, e := Mounted(l, now), L.After(r, now, event);
    L.AfterEvent(r, now, event);
    if L.Durable(event) {
      TxInstalls(l, now, event.tx, logged, after.disk);
      HomeIsFrom(l, r, after.disk, e);
      MountsAs(l, after, e);
    } else {
      HomeIsFrom(l, r, now, e);
      MountsAs(l, s, e);
    }
  }
}
