/**
 Truncation, slot by slot: the direct blocks, the entries of the indirect block,
 and last the indirect block.
 */
module FsTrunc {
  import opened Blocks
  import opened BlockFields
  import opened FsState
  import opened FsChanges
  import opened FsSteps

  /** The slot that `itrunc` frees in its turn `q`. */
  function SlotAt(q: nat): (k: nat)
    requires q < NSLOTS
    ensures k < NSLOTS
  {
    if q < MAXFILE then SlotOf(q) else INDIRECT
  }

  /** The block was in one of the first `q` slots. */
  ghost predicate FreedBefore(s: Fs, i: nat, q: nat, x: nat)
    requires q <= NSLOTS
  {
    exists r: nat {:trigger SlotAt(r)} :: r < q && OwnedBy(s, i, SlotAt(r), x)
  }

  ghost predicate BitFreed(l: Layout, s: Fs, d: seq<Block>, i: nat, q: nat, x: nat)
    requires Shape(l, s) && |d| == l.size && q <= NSLOTS && x < l.size
  {
    Used(l, d, x) <==> Used(l, s.disk, x) && !FreedBefore(s, i, q, x)
  }

  /** The disk after the first `q` slots of inode `i` have been freed. */
  ghost predicate Freeing(l: Layout, s: Fs, d: seq<Block>, i: nat, q: nat)
    requires Shape(l, s) && q <= NSLOTS
    ensures Freeing(l, s, d, i, q) ==> |d| == l.size
  {
    && |d| == l.size
    && (forall x :: 0 <= x < l.size && !(l.bmapstart <= x < l.nmeta) ==> d[x] == s.disk[x])
    && (forall x: nat {:trigger BitFreed(l, s, d, i, q, x)} :: x < l.size ==> BitFreed(l, s, d, i, q, x))
  }

  lemma FreeingNothing(l: Layout, s: Fs, i: nat)
    requires Shape(l, s)
    ensures Freeing(l, s, s.disk, i, 0)
  {
    hide Used;
  }

  /** No slot holds a block that another slot held: the bit is still set. */
  lemma StillUsed(l: Layout, s: Fs, d: seq<Block>, i: nat, q: nat)
    requires Inv(l, s) && i < |s.mem| && q < NSLOTS && Freeing(l, s, d, i, q) && Addr(s, i, SlotAt(q)) != 0
    ensures Addr(s, i, SlotAt(q)) < l.size && Used(l, d, Addr(s, i, SlotAt(q)))
  {
    hide Used, Inv, Addr;
    var b := Addr(s, i, SlotAt(q));
    OwnedIsUsed(l, s, i, SlotAt(q));
    assert BitFreed(l, s, d, i, q, b);
    forall r: nat | r < q
      ensures !OwnedBy(s, i, SlotAt(r), b)
    {
      SlotsInv(l, s, i, SlotAt(r), i, SlotAt(q));
    }
  }

  lemma FreeNext(l: Layout, s: Fs, d: seq<Block>, i: nat, q: nat)
    requires Inv(l, s) && i < |s.mem| && q < NSLOTS && Freeing(l, s, d, i, q)
    ensures var b := Addr(s, i, SlotAt(q));
            if b == 0 then Freeing(l, s, d, i, q + 1)
            else b < l.size && Freeing(l, s, SetUsed(l, d, b, false), i, q + 1)
  {
    hide Used, Inv, Addr, SetUsed;
    var b := Addr(s, i, SlotAt(q));
    if b != 0 {
      OwnedIsUsed(l, s, i, SlotAt(q));
      BlocksInRange(l, 0, b);
    }
    var e, next := if b == 0 then d else SetUsed(l, d, b, false), q + 1;
    forall x: nat | x < l.size
      ensures BitFreed(l, s, e, i, next, x)
    {
      assert BitFreed(l, s, d, i, q, x);
      OneMore(s, i, q, x);
      if b != 0 {
        SetUsedFrame(l, d, b, false, x);
      }
    }
  }

  lemma OneMore(s: Fs, i: nat, q: nat, x: nat)
    requires i < |s.mem| && q < NSLOTS
    ensures FreedBefore(s, i, q + 1, x) <==> FreedBefore(s, i, q, x) || OwnedBy(s, i, SlotAt(q), x)
  {
    hide Addr;
    if FreedBefore(s, i, q + 1, x) {
      var r: nat :| r < q + 1 && OwnedBy(s, i, SlotAt(r), x);
    }
  }

  /** In the end every slot has had its turn. */
  lemma AllFreed(s: Fs, i: nat, x: nat)
    requires i < |s.mem|
    ensures FreedBefore(s, i, NSLOTS, x) <==> exists k: nat :: OwnedBy(s, i, k, x)
  {
    hide Addr;
    if k: nat :| OwnedBy(s, i, k, x) {
      var r := if k < NDIRECT then k else if k == INDIRECT then MAXFILE else k - 1;
      assert SlotAt(r) == k;
    }
  }

  const NO_ADDRS: seq<nat> := [0, 0, 0, 0, 0, 0, 0, 0, 0, 0, 0, 0, 0]

  /** The inode is empty, and the disk `d` has its blocks free. */
  function Emptied(s: Fs, d: seq<Block>, i: nat): (t: Fs)
    requires i < |s.mem|
  {
    Fs(d, s.mem[i := s.mem[i].(size := 0, addrs := NO_ADDRS)])
  }

  lemma EmptiedAddr(l: Layout, s: Fs, d: seq<Block>, i: nat, j: nat, m: nat)
    requires Inv(l, s) && i < |s.mem| && Freeing(l, s, d, i, NSLOTS) && j < |s.mem| && m < NSLOTS
    ensures Addr(Emptied(s, d, i), j, m) == if j == i then 0 else Addr(s, j, m)
  {
    hide Inv, Used, Word;
    SlotInv(l, s, j, INDIRECT);
    SlotInv(l, s, j, m);
  }

  lemma EmptiedShape(l: Layout, s: Fs, d: seq<Block>, i: nat)
    requires Shape(l, s) && i < |s.mem| && |d| == l.size
    ensures Shape(l, Emptied(s, d, i))
  {
    var t := Emptied(s, d, i);
    forall j | 0 <= j < |t.mem|
      ensures IsInode(t.mem[j])
    {
      assert IsInode(s.mem[j]);
    }
  }

  lemma EmptiedBit(l: Layout, s: Fs, d: seq<Block>, i: nat, x: nat)
    requires Inv(l, s) && i < |s.mem| && Freeing(l, s, d, i, NSLOTS) && x < l.size && Shape(l, Emptied(s, d, i))
    ensures BitOk(l, Emptied(s, d, i), x)
  {
    hide Used, Addr, Emptied, FreedBefore;
    var t := Emptied(s, d, i);
    EmptiedIs(s, d, i);
    assert BitFreed(l, s, d, i, NSLOTS, x) && BitOk(l, s, x);
    AllFreed(s, i, x);
    if k: nat :| OwnedBy(s, i, k, x) {
      SlotInv(l, s, i, k);
      if j: nat, m: nat :| OwnedBy(t, j, m, x) {
        EmptiedAddr(l, s, d, i, j, m);
        SlotsInv(l, s, i, k, j, m);
      }
      assert !Owned(t, x);
    } else {
      if Owned(s, x) {
        var j: nat, m: nat :| OwnedBy(s, j, m, x);
        EmptiedAddr(l, s, d, i, j, m);
        assert OwnedBy(t, j, m, x);
      }
      if Owned(t, x) {
        var j: nat, m: nat :| OwnedBy(t, j, m, x);
        EmptiedAddr(l, s, d, i, j, m);
        assert OwnedBy(s, j, m, x);
      }
    }
  }

  lemma EmptiedIs(s: Fs, d: seq<Block>, i: nat)
    requires i < |s.mem|
    ensures Emptied(s, d, i).disk == d && |Emptied(s, d, i).mem| == |s.mem| && Emptied(s, d, i).mem[i].size == 0
    ensures forall j :: 0 <= j < |s.mem| && j != i ==> Emptied(s, d, i).mem[j] == s.mem[j]
  {
  }

  lemma EmptiedInv(l: Layout, s: Fs, d: seq<Block>, i: nat)
    requires Inv(l, s) && i < |s.mem| && Freeing(l, s, d, i, NSLOTS)
    ensures Inv(l, Emptied(s, d, i))
  {
    hide Used, Addr, Emptied, Freeing;
    var t := Emptied(s, d, i);
    EmptiedIs(s, d, i);
    EmptiedShape(l, s, d, i);
    forall j: nat, m: nat | j < |t.mem| && m < NSLOTS
      ensures InRange(l, t, j, m)
    {
      EmptiedAddr(l, s, d, i, j, m);
      SlotInv(l, s, j, m);
    }
    forall j: nat, m: nat, j': nat, m': nat | j < |t.mem| && m < NSLOTS && j' < |t.mem| && m' < NSLOTS
      ensures Apart(t, j, m, j', m')
    {
      EmptiedAddr(l, s, d, i, j, m);
      EmptiedAddr(l, s, d, i, j', m');
      SlotsInv(l, s, j, m, j', m');
    }
    forall x: nat | x < l.size
      ensures BitOk(l, t, x)
    {
      EmptiedBit(l, s, d, i, x);
    }
  }

  lemma EmptiedBytes(l: Layout, s: Fs, d: seq<Block>, i: nat, j: nat, o: nat)
    requires Inv(l, s) && i < |s.mem| && Freeing(l, s, d, i, NSLOTS) && j < |s.mem| && j != i && o < MAXFILE * BSIZE
    ensures ByteAt(Emptied(s, d, i), j, o) == ByteAt(s, j, o)
  {
    hide Used, Addr, Inv, Emptied;
    EmptiedIs(s, d, i);
    EmptiedAddr(l, s, d, i, j, SlotOf(o / BSIZE));
    SlotInv(l, s, j, SlotOf(o / BSIZE));
  }

  lemma EmptiedSynced(l: Layout, s: Fs, d: seq<Block>, i: nat, j: nat)
    requires Inv(l, s) && i < |s.mem| && Freeing(l, s, d, i, NSLOTS) && j < |s.mem| && j != i && Synced(l, s, j)
    ensures Shape(l, Emptied(s, d, i)) && Synced(l, Emptied(s, d, i), j)
  {
    hide Used, Addr, Inv, Emptied, Word, InodeWords;
    EmptiedIs(s, d, i);
    EmptiedShape(l, s, d, i);
    BlocksInRange(l, j, 0);
  }

  /** The whole of `itrunc`. */
  function Truncated(l: Layout, s: Fs, d: seq<Block>, i: nat): (t: Fs)
    requires Shape(l, s) && i < |s.mem| && |d| == l.size
    ensures |t.mem| == |s.mem|
  {
    EmptiedShape(l, s, d, i);
    Updated(l, Emptied(s, d, i), i)
  }

  lemma TruncatedGood(l: Layout, s: Fs, d: seq<Block>, i: nat)
    requires Good(l, s) && i < |s.mem| && Freeing(l, s, d, i, NSLOTS)
    ensures Good(l, Truncated(l, s, d, i)) && Truncated(l, s, d, i).mem == Emptied(s, d, i).mem
  {
    hide Inv, Used, Addr, Emptied, Synced, Quiet, Freeing, InodeWords, SetWords;
    EmptiedIs(s, d, i);
    EmptiedInv(l, s, d, i);
    var t := Emptied(s, d, i);
    UpdatedQuiet(l, t, i);
    var u := Truncated(l, s, d, i);
    QuietInv(l, t, u);
    forall j: nat | j < |u.mem|
      ensures FileOk(l, u, j)
    {
      GoodFile(l, s, j);
      if j != i {
        EmptiedSynced(l, s, d, i, j);
      }
      UpdatedSynced(l, t, i, j);
      TruncatedMapped(l, s, d, i, j);
    }
  }

  lemma TruncatedAddr(l: Layout, s: Fs, d: seq<Block>, i: nat, j: nat, m: nat)
    requires Inv(l, s) && i < |s.mem| && Freeing(l, s, d, i, NSLOTS) && j < |s.mem| && m < NSLOTS
    ensures Addr(Truncated(l, s, d, i), j, m) == if j == i then 0 else Addr(s, j, m)
  {
    hide Inv, Used, Addr, Emptied, Quiet, Updated, Freeing;
    EmptiedIs(s, d, i);
    EmptiedInv(l, s, d, i);
    EmptiedAddr(l, s, d, i, j, m);
    UpdatedQuiet(l, Emptied(s, d, i), i);
    QuietAddr(l, Emptied(s, d, i), Truncated(l, s, d, i), j, m);
  }

  lemma TruncatedMapped(l: Layout, s: Fs, d: seq<Block>, i: nat, j: nat)
    requires Inv(l, s) && i < |s.mem| && Freeing(l, s, d, i, NSLOTS) && j < |s.mem| && Mapped(s, j)
    ensures Mapped(Truncated(l, s, d, i), j)
  {
    hide Inv, Used, Addr, Emptied, Freeing, SetWords, InodeWords;
    EmptiedIs(s, d, i);
    var u := Truncated(l, s, d, i);
    forall bn | 0 <= bn < MAXFILE && bn * BSIZE < u.mem[j].size
      ensures Addr(u, j, SlotOf(bn)) != 0
    {
      TruncatedAddr(l, s, d, i, j, SlotOf(bn));
    }
  }

  lemma TruncatedBytes(l: Layout, s: Fs, d: seq<Block>, i: nat, j: nat, o: nat)
    requires Inv(l, s) && i < |s.mem| && Freeing(l, s, d, i, NSLOTS) && j < |s.mem| && j != i && o < MAXFILE * BSIZE
    ensures ByteAt(Truncated(l, s, d, i), j, o) == ByteAt(s, j, o)
  {
    hide Inv, Used, ByteAt, Emptied, Updated, Freeing;
    EmptiedIs(s, d, i);
    EmptiedInv(l, s, d, i);
    EmptiedBytes(l, s, d, i, j, o);
    UpdatedBytes(l, Emptied(s, d, i), i, j, o);
  }

  /** The free map loses exactly the blocks that the inode owned. */
  lemma TruncatedMap(l: Layout, s: Fs, d: seq<Block>, i: nat, x: nat)
    requires Inv(l, s) && i < |s.mem| && Freeing(l, s, d, i, NSLOTS) && x < l.size
    ensures |Truncated(l, s, d, i).disk| == l.size
    ensures Used(l, Truncated(l, s, d, i).disk, x) <==> Used(l, s.disk, x) && !exists k: nat :: OwnedBy(s, i, k, x)
  {
    hide Inv, Used, Addr, Emptied, Quiet, Updated;
    EmptiedIs(s, d, i);
    EmptiedInv(l, s, d, i);
    UpdatedQuiet(l, Emptied(s, d, i), i);
    QuietBit(l, Emptied(s, d, i), Truncated(l, s, d, i), x);
    assert BitFreed(l, s, d, i, NSLOTS, x);
    AllFreed(s, i, x);
  }

  // ---- Freeing the inode ----

  function Retyped(s: Fs, i: nat, kind: nat): (t: Fs)
    requires i < |s.mem|
  {
    s.(mem := s.mem[i := s.mem[i].(kind := kind)])
  }

  lemma RetypedQuiet(l: Layout, s: Fs, i: nat, kind: nat)
    requires Inv(l, s) && i < |s.mem| && kind < WORD_LIMIT
    ensures Quiet(l, s, Retyped(s, i, kind)) && Inv(l, Retyped(s, i, kind))
  {
    hide Inv;
    var t := Retyped(s, i, kind);
    forall j | 0 <= j < |t.mem|
      ensures IsInode(t.mem[j])
    {
      assert IsInode(s.mem[j]);
    }
    forall j: nat | j < |s.mem|
      ensures SameSlots(s, t, j)
    {
    }
    QuietInv(l, s, t);
  }

  /** The type changes in memory and on the disk. */
  function Released(l: Layout, s: Fs, i: nat, kind: nat): (u: Fs)
    requires Shape(l, s) && i < |s.mem| && Shape(l, Retyped(s, i, kind))
    ensures u.mem == Retyped(s, i, kind).mem
  {
    Updated(l, Retyped(s, i, kind), i)
  }

  lemma ReleasedSame(l: Layout, s: Fs, i: nat, kind: nat)
    requires Inv(l, s) && i < |s.mem| && kind < WORD_LIMIT
    ensures Shape(l, Retyped(s, i, kind)) && Inv(l, Released(l, s, i, kind))
    ensures forall j: nat, m: nat :: j < |s.mem| && m < NSLOTS ==> Addr(Released(l, s, i, kind), j, m) == Addr(s, j, m)
    ensures forall x: nat :: x < l.size ==> (Used(l, Released(l, s, i, kind).disk, x) <==> Used(l, s.disk, x))
  {
    hide Inv, Addr, Quiet, Used, Updated, Retyped;
    RetypedQuiet(l, s, i, kind);
    var t, u := Retyped(s, i, kind), Released(l, s, i, kind);
    RetypedIs(s, i, kind);
    UpdatedQuiet(l, t, i);
    QuietInv(l, t, u);
    forall j: nat, m: nat | j < |s.mem| && m < NSLOTS
      ensures Addr(u, j, m) == Addr(s, j, m)
    {
      QuietAddr(l, s, t, j, m);
      QuietAddr(l, t, u, j, m);
    }
    forall x: nat | x < l.size
      ensures Used(l, u.disk, x) <==> Used(l, s.disk, x)
    {
      QuietBit(l, s, t, x);
      QuietBit(l, t, u, x);
    }
  }

  lemma RetypedIs(s: Fs, i: nat, kind: nat)
    requires i < |s.mem|
    ensures |Retyped(s, i, kind).mem| == |s.mem| && Retyped(s, i, kind).disk == s.disk
    ensures forall j :: 0 <= j < |s.mem| ==> Retyped(s, i, kind).mem[j].size == s.mem[j].size
  {
  }

  lemma ReleasedGood(l: Layout, s: Fs, i: nat, kind: nat)
    requires Good(l, s) && i < |s.mem| && kind < WORD_LIMIT
    ensures Shape(l, Retyped(s, i, kind)) && Good(l, Released(l, s, i, kind))
  {
    hide Inv, Addr, Quiet, Used, SetWords, InodeWords, Word;
    ReleasedSame(l, s, i, kind);
    RetypedQuiet(l, s, i, kind);
    var t, u := Retyped(s, i, kind), Released(l, s, i, kind);
    forall j: nat | j < |u.mem|
      ensures FileOk(l, u, j)
    {
      GoodFile(l, s, j);
      assert j != i ==> Synced(l, t, j);
      UpdatedSynced(l, t, i, j);
      forall bn | 0 <= bn < MAXFILE && bn * BSIZE < u.mem[j].size
        ensures Addr(u, j, SlotOf(bn)) != 0
      {
        assert Addr(s, j, SlotOf(bn)) != 0;
      }
    }
  }

  lemma ReleasedBytes(l: Layout, s: Fs, i: nat, kind: nat, j: nat, o: nat)
    requires Inv(l, s) && i < |s.mem| && kind < WORD_LIMIT && j < |s.mem| && o < MAXFILE * BSIZE
    ensures Shape(l, Retyped(s, i, kind)) && ByteAt(Released(l, s, i, kind), j, o) == ByteAt(s, j, o)
  {
    hide Inv, Addr, Quiet, Updated;
    RetypedQuiet(l, s, i, kind);
    QuietAddr(l, s, Retyped(s, i, kind), j, SlotOf(o / BSIZE));
    UpdatedBytes(l, Retyped(s, i, kind), i, j, o);
  }
}
