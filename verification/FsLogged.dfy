/**
 Which blocks one write puts into the log, and how many they can be.
 */
module FsLogged {
  import opened Blocks
  import opened Counting
  import opened FsState
  import opened Params

  /** From disk `d` to disk `e` only blocks have changed that are in the log, and
      the blocks new in the log belong to the file system. */
  ghost predicate LogStep(l: Layout, d: seq<Block>, a: set<nat>, e: seq<Block>, b: set<nat>)
  {
    && a <= b && |d| == |e|
    && (forall x :: 0 <= x < |d| && x !in b ==> e[x] == d[x])
    && (forall x :: x in b - a ==> l.inodestart <= x < l.size)
  }

  lemma LogStepThen(l: Layout, d: seq<Block>, a: set<nat>, e: seq<Block>, b: set<nat>, f: seq<Block>, c: set<nat>)
    requires LogStep(l, d, a, e, b) && LogStep(l, e, b, f, c)
    ensures LogStep(l, d, a, f, c)
  {
    forall x | x in c - a
      ensures l.inodestart <= x < l.size
    {
      assert x in b - a || x in c - b;
    }
  }

  lemma LogStepOne(l: Layout, d: seq<Block>, a: set<nat>, e: seq<Block>, b: set<nat>, x: nat, block: Block)
    requires LogStep(l, d, a, e, b) && l.inodestart <= x < l.size == |e|
    ensures LogStep(l, d, a, e[x := block], b + {x})
  {
    forall y | y in (b + {x}) - a
      ensures l.inodestart <= y < l.size
    {
      assert y == x || y in b - a;
    }
  }

  /** The blocks of the free map. */
  ghost function MapBlocks(l: Layout): (blocks: set<nat>)
    ensures forall x :: x in blocks <==> l.bmapstart <= x < l.nmeta
  {
    Below(l.nmeta) - Below(l.bmapstart)
  }

  /** What a truncation may log. */
  lemma FreeingLogs(l: Layout, logged: set<nat>, x: nat)
    requires ValidLayout(l) && logged <= MapBlocks(l) + {x}
    ensures |logged| <= l.nmeta - l.bmapstart + 1
  {
    hide MapBlocks;
    assert |MapBlocks(l)| == l.nmeta - l.bmapstart by { MapBlocksSize(l); }
    SubsetSize(logged, MapBlocks(l) + {x});
  }

  lemma MapBlocksSize(l: Layout)
    requires ValidLayout(l)
    ensures |MapBlocks(l)| == l.nmeta - l.bmapstart
  {
    hide Below;
    SizeOfRange(l.bmapstart, l.nmeta);
  }

  /** Of the slots of inode `i`, only that of block `bn` and the indirect block
      that it needs have changed. */
  ghost predicate Only(s: Fs, t: Fs, i: nat, bn: nat)
    requires i < |s.mem| == |t.mem| && bn < MAXFILE
  {
    forall m: nat {:trigger Addr(t, i, m)} :: m < NSLOTS && m != SlotOf(bn) && (bn < NDIRECT || m != INDIRECT) ==>
      Addr(t, i, m) == Addr(s, i, m)
  }

  lemma OnlyNothing(s: Fs, i: nat, bn: nat)
    requires i < |s.mem| && bn < MAXFILE
    ensures Only(s, s, i, bn)
  {
    hide Addr;
  }

  lemma OnlyTwice(s: Fs, t: Fs, u: Fs, i: nat, bn: nat)
    requires i < |s.mem| == |t.mem| == |u.mem| && bn < MAXFILE && Only(s, t, i, bn) && Only(t, u, i, bn)
    ensures Only(s, u, i, bn)
  {
    hide Addr;
    forall m: nat | m < NSLOTS && m != SlotOf(bn) && (bn < NDIRECT || m != INDIRECT)
      ensures Addr(u, i, m) == Addr(s, i, m)
    {
      assert Addr(t, i, m) == Addr(s, i, m);
    }
  }

  /** What `bmap` logs: the free map and the new block for each block it takes,
      and the indirect block if an entry of it changes. */
  ghost function MapLogs(l: Layout, s: Fs, t: Fs, i: nat, bn: nat): (logged: set<nat>)
    requires i < |s.mem| == |t.mem| && bn < MAXFILE
  {
    var k := SlotOf(bn);
    SlotLogs(l, s, t, i, k) + (if k > INDIRECT then SlotLogs(l, s, t, i, INDIRECT) else {}) +
    (if k > INDIRECT && Addr(s, i, k) == 0 then {Addr(t, i, INDIRECT)} else {})
  }

  ghost function SlotLogs(l: Layout, s: Fs, t: Fs, i: nat, k: nat): (logged: set<nat>)
    requires i < |s.mem| == |t.mem| && k < NSLOTS
  {
    if Addr(s, i, k) == 0 then {BBlock(l, Addr(t, i, k)), Addr(t, i, k)} else {}
  }

  /** What a write to block `bn` logs: what `bmap` logs, and the block itself. */
  ghost function BlockLogs(l: Layout, s: Fs, t: Fs, i: nat, bn: nat): (logged: set<nat>)
    requires i < |s.mem| == |t.mem| && bn < MAXFILE
  {
    MapLogs(l, s, t, i, bn) + {Addr(t, i, SlotOf(bn))}
  }

  /** What writes to the `k` blocks from `lo` on log, if `s` is the state before
      them and `t` the state after them. */
  ghost function LogsTo(l: Layout, s: Fs, t: Fs, i: nat, lo: nat, k: nat): (logged: set<nat>)
    requires i < |s.mem| == |t.mem| && lo + k <= MAXFILE
  {
    if k == 0 then {} else LogsTo(l, s, t, i, lo, k - 1) + BlockLogs(l, s, t, i, lo + k - 1)
  }

  /** The blocks from `lo` on are there, and so is the indirect block if one of
      them needs it. */
  ghost predicate There(t: Fs, i: nat, lo: nat, k: nat)
    requires i < |t.mem| && lo + k <= MAXFILE
  {
    && (forall bn: nat {:trigger SlotOf(bn)} :: lo <= bn < lo + k ==> Addr(t, i, SlotOf(bn)) != 0)
    && (k > 0 && lo + k > NDIRECT ==> Addr(t, i, INDIRECT) != 0)
  }

  ghost predicate Kept(t: Fs, u: Fs, i: nat)
    requires i < |t.mem| == |u.mem|
  {
    forall m: nat {:trigger Addr(u, i, m)} :: m < NSLOTS && Addr(t, i, m) != 0 ==> Addr(u, i, m) == Addr(t, i, m)
  }

  /** Blocks taken later do not change what was logged earlier. */
  lemma {:induction false} LogsKept(l: Layout, s: Fs, t: Fs, u: Fs, i: nat, lo: nat, k: nat)
    requires i < |s.mem| == |t.mem| == |u.mem| && lo + k <= MAXFILE && There(t, i, lo, k) && Kept(t, u, i)
    ensures LogsTo(l, s, u, i, lo, k) == LogsTo(l, s, t, i, lo, k)
  {
    hide Addr;
    if k > 0 {
      var m := SlotOf(lo + k - 1);
      assert Addr(u, i, m) == Addr(t, i, m);
      assert m > INDIRECT ==> Addr(u, i, INDIRECT) == Addr(t, i, INDIRECT);
      if k > 1 {
        assert There(t, i, lo, k - 1) by { ThereLess(t, i, lo, k); }
      }
      LogsKept(l, s, t, u, i, lo, k - 1);
    }
  }

  lemma ThereLess(t: Fs, i: nat, lo: nat, k: nat)
    requires i < |t.mem| && 0 < k && lo + k <= MAXFILE && There(t, i, lo, k)
    ensures There(t, i, lo, k - 1)
  {
    hide Addr;
  }

  /** So far only the `k` blocks from `lo` on have got blocks. */
  ghost predicate SoFar(s: Fs, t: Fs, i: nat, lo: nat, k: nat)
    requires i < |s.mem| == |t.mem| && lo + k <= MAXFILE
  {
    && (forall bn: nat {:trigger SlotOf(bn)} ::
          bn < MAXFILE && !(lo <= bn < lo + k) ==> Addr(t, i, SlotOf(bn)) == Addr(s, i, SlotOf(bn)))
    && (Addr(t, i, INDIRECT) == Addr(s, i, INDIRECT) || (k > 0 && lo + k > NDIRECT))
  }

  /** One more block: the log grows by what that block logs. */
  lemma LogsNext(l: Layout, s: Fs, t: Fs, u: Fs, i: nat, lo: nat, k: nat)
    requires i < |s.mem| == |t.mem| == |u.mem| && lo + k < MAXFILE
    requires There(t, i, lo, k) && SoFar(s, t, i, lo, k) && Kept(s, t, i) && Kept(t, u, i) && Only(t, u, i, lo + k)
    requires Addr(u, i, SlotOf(lo + k)) != 0 && (lo + k >= NDIRECT ==> Addr(u, i, INDIRECT) != 0)
    ensures LogsTo(l, s, t, i, lo, k) + BlockLogs(l, t, u, i, lo + k) == LogsTo(l, s, u, i, lo, k + 1)
    ensures There(u, i, lo, k + 1) && SoFar(s, u, i, lo, k + 1) && Kept(s, u, i)
  {
    hide Addr;
    LogsKept(l, s, t, u, i, lo, k);
    var m := SlotOf(lo + k);
    assert Addr(t, i, m) == Addr(s, i, m);
    IndirectLogged(l, s, t, u, i, lo, k);
    NextThere(s, t, u, i, lo, k);
  }

  lemma NextThere(s: Fs, t: Fs, u: Fs, i: nat, lo: nat, k: nat)
    requires i < |s.mem| == |t.mem| == |u.mem| && lo + k < MAXFILE
    requires There(t, i, lo, k) && SoFar(s, t, i, lo, k) && Kept(s, t, i) && Kept(t, u, i) && Only(t, u, i, lo + k)
    requires Addr(u, i, SlotOf(lo + k)) != 0 && (lo + k >= NDIRECT ==> Addr(u, i, INDIRECT) != 0)
    ensures There(u, i, lo, k + 1) && SoFar(s, u, i, lo, k + 1) && Kept(s, u, i)
  {
    hide Addr;
    forall m: nat | m < NSLOTS && Addr(s, i, m) != 0
      ensures Addr(u, i, m) == Addr(s, i, m)
    {
      assert Addr(t, i, m) == Addr(s, i, m);
    }
    forall bn: nat | bn < MAXFILE && !(lo <= bn < lo + k + 1)
      ensures Addr(u, i, SlotOf(bn)) == Addr(s, i, SlotOf(bn))
    {
      assert Addr(t, i, SlotOf(bn)) == Addr(s, i, SlotOf(bn));
    }
  }

  /** A new indirect block has been logged with the first block that needed it. */
  lemma IndirectLogged(l: Layout, s: Fs, t: Fs, u: Fs, i: nat, lo: nat, k: nat)
    requires i < |s.mem| == |t.mem| == |u.mem| && lo + k <= MAXFILE
    requires There(t, i, lo, k) && SoFar(s, t, i, lo, k) && Kept(t, u, i)
    ensures Addr(t, i, INDIRECT) != Addr(s, i, INDIRECT) ==>
            && SlotLogs(l, s, t, i, INDIRECT) <= LogsTo(l, s, t, i, lo, k)
            && Addr(u, i, INDIRECT) == Addr(t, i, INDIRECT) != 0
  {
    hide Addr;
    if k > 0 && lo + k > NDIRECT {
      assert SlotOf(lo + k - 1) > INDIRECT;
      assert SlotLogs(l, s, t, i, INDIRECT) <= BlockLogs(l, s, t, i, lo + k - 1);
    }
  }

  // ---- How many ----

  ghost function DataTo(t: Fs, i: nat, lo: nat, k: nat): (d: set<nat>)
    requires i < |t.mem| && lo + k <= MAXFILE
    ensures |d| <= k
  {
    if k == 0 then {} else DataTo(t, i, lo, k - 1) + {Addr(t, i, SlotOf(lo + k - 1))}
  }

  /** The number of the blocks that were not there. */
  ghost function NewTo(s: Fs, i: nat, lo: nat, k: nat): (n: nat)
    requires i < |s.mem| && lo + k <= MAXFILE
    ensures n <= k
  {
    if k == 0 then 0 else NewTo(s, i, lo, k - 1) + if Addr(s, i, SlotOf(lo + k - 1)) == 0 then 1 else 0
  }

  ghost function MapsTo(l: Layout, s: Fs, t: Fs, i: nat, lo: nat, k: nat): (d: set<nat>)
    requires i < |s.mem| == |t.mem| && lo + k <= MAXFILE
    ensures |d| <= NewTo(s, i, lo, k)
  {
    if k == 0 then {}
    else if Addr(s, i, SlotOf(lo + k - 1)) == 0 then
      MapsTo(l, s, t, i, lo, k - 1) + {BBlock(l, Addr(t, i, SlotOf(lo + k - 1)))}
    else MapsTo(l, s, t, i, lo, k - 1)
  }

  lemma BlockSplit(l: Layout, s: Fs, t: Fs, i: nat, bn: nat)
    requires i < |s.mem| == |t.mem| && bn < MAXFILE
    ensures var a, p := Addr(t, i, SlotOf(bn)), Addr(t, i, INDIRECT);
            BlockLogs(l, s, t, i, bn) <=
            {a} + (if Addr(s, i, SlotOf(bn)) == 0 then {BBlock(l, a)} else {}) + {p, BBlock(l, p)}
  {
    hide Addr, BBlock;
  }

  lemma {:induction false} LogsSplit(l: Layout, s: Fs, t: Fs, i: nat, lo: nat, k: nat)
    requires i < |s.mem| == |t.mem| && lo + k <= MAXFILE
    ensures LogsTo(l, s, t, i, lo, k) <=
            DataTo(t, i, lo, k) + MapsTo(l, s, t, i, lo, k) + {Addr(t, i, INDIRECT), BBlock(l, Addr(t, i, INDIRECT))}
  {
    hide Addr, BBlock, BlockLogs;
    if k > 0 {
      LogsSplit(l, s, t, i, lo, k - 1);
      BlockSplit(l, s, t, i, lo + k - 1);
    }
  }

  /** The first block of an unaligned write is there, so it is not new. */
  lemma {:induction false} FirstIsOld(s: Fs, i: nat, lo: nat, k: nat)
    requires i < |s.mem| && 0 < k && lo + k <= MAXFILE && Addr(s, i, SlotOf(lo)) != 0
    ensures NewTo(s, i, lo, k) <= k - 1
  {
    if k > 1 {
      FirstIsOld(s, i, lo, k - 1);
    }
  }

  /** The number of blocks that `n` bytes from `off` on lie in. */
  function BlocksOf(off: nat, n: nat): (k: nat)
  {
    if n == 0 then 0 else (off + n - 1) / BSIZE - off / BSIZE + 1
  }

  /** A write of at most three blocks' worth of bytes that starts in or at the end
      of the file logs, with the inode, at most MAXOPBLOCKS blocks. */
  lemma ChunkBound(l: Layout, s: Fs, t: Fs, i: nat, off: nat, n: nat)
    requires i < |s.mem| == |t.mem| && n <= 3 * BSIZE && off + n <= MAXFILE * BSIZE && off <= s.mem[i].size
    requires Mapped(s, i)
    ensures off / BSIZE + BlocksOf(off, n) <= MAXFILE || n == 0
    ensures n > 0 ==> |LogsTo(l, s, t, i, off / BSIZE, BlocksOf(off, n)) + {IBlock(l, i)}| <= MAXOPBLOCKS
  {
    hide Addr;
    if n > 0 {
      var lo, k := off / BSIZE, BlocksOf(off, n);
      var data, maps := DataTo(t, i, lo, k), MapsTo(l, s, t, i, lo, k);
      LogsSplit(l, s, t, i, lo, k);
      assert k <= 3 || (k == 4 && off % BSIZE != 0);
      if k == 4 {
        assert lo * BSIZE < s.mem[i].size;
        FirstIsOld(s, i, lo, k);
      }
      var p := Addr(t, i, INDIRECT);
      SubsetSize(LogsTo(l, s, t, i, lo, k) + {IBlock(l, i)}, data + maps + {p, BBlock(l, p)} + {IBlock(l, i)});
    }
  }

  /** The bound is reached: an unaligned write of four blocks, the first of them
      there and the others new, together with a new indirect block, whose four
      new blocks lie under four different blocks of the free map. */
  lemma ChunkTight(l: Layout, s: Fs, t: Fs, i: nat, lo: nat)
    requires Inv(l, t) && i < |s.mem| == |t.mem| && lo + 4 <= MAXFILE && lo + 4 > NDIRECT
    requires There(t, i, lo, 4) && NewTo(s, i, lo, 4) == 3 && Addr(s, i, SlotOf(lo)) != 0 && Addr(s, i, INDIRECT) == 0
    requires MapsApart(l, t, i, lo)
    ensures |LogsTo(l, s, t, i, lo, 4) + {IBlock(l, i)}| == MAXOPBLOCKS
  {
    hide Inv, Addr, BBlock, IBlock, LogsTo, There, NewTo;
    OnlyFirstOld(s, i, lo);
    FourBlocks(l, s, t, i, lo);
    DataApart(l, t, i, lo);
    MapsFour(l, t, i, lo);
    RegionsApart(l, t, i, lo);
    Ten(FourData(t, i, lo), FourMaps(l, t, i, lo), IBlock(l, i));
  }

  ghost function FourData(t: Fs, i: nat, lo: nat): (d: set<nat>)
    requires i < |t.mem| && lo + 4 <= MAXFILE
  {
    {Addr(t, i, SlotOf(lo)), Addr(t, i, SlotOf(lo + 1)), Addr(t, i, SlotOf(lo + 2)), Addr(t, i, SlotOf(lo + 3)),
     Addr(t, i, INDIRECT)}
  }

  ghost function FourMaps(l: Layout, t: Fs, i: nat, lo: nat): (d: set<nat>)
    requires i < |t.mem| && lo + 4 <= MAXFILE
  {
    {BBlock(l, Addr(t, i, SlotOf(lo + 1))), BBlock(l, Addr(t, i, SlotOf(lo + 2))),
     BBlock(l, Addr(t, i, SlotOf(lo + 3))), BBlock(l, Addr(t, i, INDIRECT))}
  }

  lemma Ten(data: set<nat>, maps: set<nat>, b: nat)
    requires |data| == 5 && |maps| == 4 && data !! maps && b !in data && b !in maps
    ensures |data + maps + {b}| == 10
  {
  }

  lemma MapsFour(l: Layout, t: Fs, i: nat, lo: nat)
    requires i < |t.mem| && lo + 4 <= MAXFILE && MapsApart(l, t, i, lo)
    ensures |FourMaps(l, t, i, lo)| == 4
  {
    hide Addr, BBlock;
  }

  /** The blocks of the free map for the three new data blocks and for the
      indirect block all differ. */
  ghost predicate MapsApart(l: Layout, t: Fs, i: nat, lo: nat)
    requires i < |t.mem| && lo + 4 <= MAXFILE
  {
    var m1, m2 := BBlock(l, Addr(t, i, SlotOf(lo + 1))), BBlock(l, Addr(t, i, SlotOf(lo + 2)));
    var m3, mp := BBlock(l, Addr(t, i, SlotOf(lo + 3))), BBlock(l, Addr(t, i, INDIRECT));
    m1 != m2 && m1 != m3 && m1 != mp && m2 != m3 && m2 != mp && m3 != mp
  }

  lemma OnlyFirstOld(s: Fs, i: nat, lo: nat)
    requires i < |s.mem| && lo + 4 <= MAXFILE && NewTo(s, i, lo, 4) == 3 && Addr(s, i, SlotOf(lo)) != 0
    ensures Addr(s, i, SlotOf(lo + 1)) == Addr(s, i, SlotOf(lo + 2)) == Addr(s, i, SlotOf(lo + 3)) == 0
  {
    hide Addr;
    assert NewTo(s, i, lo, 1) == 0;
    assert NewTo(s, i, lo, 2) <= 1 && NewTo(s, i, lo, 3) <= 2;
  }

  lemma FourBlocks(l: Layout, s: Fs, t: Fs, i: nat, lo: nat)
    requires i < |s.mem| == |t.mem| && lo + 4 <= MAXFILE && lo + 4 > NDIRECT
    requires Addr(s, i, SlotOf(lo)) != 0 && Addr(s, i, INDIRECT) == 0
    requires Addr(s, i, SlotOf(lo + 1)) == Addr(s, i, SlotOf(lo + 2)) == Addr(s, i, SlotOf(lo + 3)) == 0
    ensures LogsTo(l, s, t, i, lo, 4) == FourData(t, i, lo) + FourMaps(l, t, i, lo)
  {
    hide BBlock;
    assert lo < NDIRECT;
    hide Addr;
    assert LogsTo(l, s, t, i, lo, 1) == {Addr(t, i, SlotOf(lo))};
    var l3 := LogsTo(l, s, t, i, lo, 3);
    assert LogsTo(l, s, t, i, lo, 2) == LogsTo(l, s, t, i, lo, 1) + BlockLogs(l, s, t, i, lo + 1);
    assert l3 == LogsTo(l, s, t, i, lo, 2) + BlockLogs(l, s, t, i, lo + 2);
    assert SlotOf(lo + 3) > INDIRECT;
  }

  lemma DataApart(l: Layout, t: Fs, i: nat, lo: nat)
    requires Inv(l, t) && i < |t.mem| && lo + 4 <= MAXFILE && There(t, i, lo, 4) && lo + 4 > NDIRECT
    ensures |FourData(t, i, lo)| == 5
  {
    hide Inv, Addr;
    SlotsInv(l, t, i, SlotOf(lo), i, SlotOf(lo + 1));
    SlotsInv(l, t, i, SlotOf(lo), i, SlotOf(lo + 2));
    SlotsInv(l, t, i, SlotOf(lo), i, SlotOf(lo + 3));
    SlotsInv(l, t, i, SlotOf(lo + 1), i, SlotOf(lo + 2));
    SlotsInv(l, t, i, SlotOf(lo + 1), i, SlotOf(lo + 3));
    SlotsInv(l, t, i, SlotOf(lo + 2), i, SlotOf(lo + 3));
    SlotsInv(l, t, i, INDIRECT, i, SlotOf(lo));
    SlotsInv(l, t, i, INDIRECT, i, SlotOf(lo + 1));
    SlotsInv(l, t, i, INDIRECT, i, SlotOf(lo + 2));
    SlotsInv(l, t, i, INDIRECT, i, SlotOf(lo + 3));
  }

  /** Data, free map and inodes are in different parts of the disk. */
  lemma RegionsApart(l: Layout, t: Fs, i: nat, lo: nat)
    requires Inv(l, t) && i < |t.mem| && lo + 4 <= MAXFILE && There(t, i, lo, 4) && lo + 4 > NDIRECT
    ensures FourData(t, i, lo) !! FourMaps(l, t, i, lo)
    ensures IBlock(l, i) !in FourData(t, i, lo) && IBlock(l, i) !in FourMaps(l, t, i, lo)
  {
    hide Inv, Addr;
    BlocksInRange(l, i, 0);
    forall k: nat | k in {SlotOf(lo), SlotOf(lo + 1), SlotOf(lo + 2), SlotOf(lo + 3), INDIRECT}
      ensures l.nmeta <= Addr(t, i, k) && l.bmapstart <= BBlock(l, Addr(t, i, k)) < l.nmeta
    {
      SlotInv(l, t, i, k);
      BlocksInRange(l, i, Addr(t, i, k));
    }
  }
}
