/**
 The transaction that logs the most blocks: MAXOPBLOCKS is reached.
 */
module FsWorst {
  import opened Blocks
  import opened Counting
  import opened FsState
  import opened FsSteps
  import opened FsLogged
  import opened FsSpace
  import opened Params

  /** `f` are the four lowest free blocks, and the free map has their bits in four
      different blocks. */
  ghost predicate FourSpread(l: Layout, disk: seq<Block>, f: set<nat>)
    requires ValidLayout(l) && |disk| == l.size
  {
    && |f| == 4 && f <= Free(l, disk) && FirstFit(Free(l, disk), Free(l, disk) - f)
    && forall x, y :: x in f && y in f && x != y ==> BBlock(l, x) != BBlock(l, y)
  }

  /** A write of three blocks' worth of bytes that starts inside the last block of
      the file and leads past the direct blocks of a file that has no others. */
  ghost predicate CrossingChunk(s: Fs, i: nat, off: nat, n: nat)
    requires i < |s.mem|
  {
    var lo := off / BSIZE;
    && n == 3 * BSIZE && off % BSIZE != 0 && off <= s.mem[i].size && lo < NDIRECT < lo + 4
    && Addr(s, i, INDIRECT) == 0
    && forall bn {:trigger SlotOf(bn)} :: lo < bn < lo + 4 ==> Addr(s, i, SlotOf(bn)) == 0
  }

  ghost function FourSlots(i: nat, lo: nat): (slots: set<(nat, nat)>)
    requires lo < NDIRECT
  {
    {(i, SlotOf(lo + 1)), (i, SlotOf(lo + 2)), (i, SlotOf(lo + 3)), (i, INDIRECT)}
  }

  lemma FourBlocksWant(i: nat, lo: nat)
    requires lo < NDIRECT < lo + 4
    ensures BlockWants(i, lo) + BlockWants(i, lo + 1) + BlockWants(i, lo + 2) + BlockWants(i, lo + 3) ==
            FourSlots(i, lo) + {(i, lo)}
  {
  }

  /** Where the four blocks of an unaligned chunk begin. */
  lemma ChunkBlocks(off: nat)
    requires off % BSIZE != 0
    ensures var lo, first := off / BSIZE, BSIZE - off % BSIZE;
            && (off + first) / BSIZE == lo + 1 && (off + first) % BSIZE == 0
            && (off + first + BSIZE) / BSIZE == lo + 2 && (off + first + BSIZE) % BSIZE == 0
            && (off + first + 2 * BSIZE) / BSIZE == lo + 3 && (off + first + 2 * BSIZE) % BSIZE == 0
  {
  }

  lemma ChunkWants(i: nat, off: nat)
    requires off % BSIZE != 0 && off / BSIZE < NDIRECT < off / BSIZE + 4
    ensures Wanted(i, off, 3 * BSIZE) == FourSlots(i, off / BSIZE) + {(i, off / BSIZE)}
  {
    hide Wanted, BlockWants, FourSlots;
    var at, lo := off % BSIZE, off / BSIZE;
    var first := BSIZE - at;
    ChunkBlocks(off);
    WantedInBlock(i, off, first);
    WantedInBlock(i, off + first, BSIZE);
    WantedInBlock(i, off + first + BSIZE, BSIZE);
    WantedInBlock(i, off + first + 2 * BSIZE, at);
    WantedThen(i, off, first, BSIZE);
    WantedThen(i, off, first + BSIZE, BSIZE);
    WantedThen(i, off, first + 2 * BSIZE, at);
    FourBlocksWant(i, lo);
  }

  /** The file has the block that the write starts in. */
  lemma FirstThere(l: Layout, s: Fs, i: nat, off: nat)
    requires Good(l, s) && i < |s.mem| && CrossingChunk(s, i, off, 3 * BSIZE)
    ensures Addr(s, i, SlotOf(off / BSIZE)) != 0
  {
    hide Inv, Good, Addr;
    GoodFile(l, s, i);
    assert off / BSIZE * BSIZE < s.mem[i].size;
  }

  /** Four slots get a block, and one more has one. */
  lemma FourNew(l: Layout, s: Fs, i: nat, off: nat)
    requires Good(l, s) && i < |s.mem| && CrossingChunk(s, i, off, 3 * BSIZE)
    ensures Addr(s, i, SlotOf(off / BSIZE)) != 0
    ensures Taken(s) + Wanted(i, off, 3 * BSIZE) == Taken(s) + FourSlots(i, off / BSIZE)
    ensures |Taken(s) + FourSlots(i, off / BSIZE)| == |Taken(s)| + 4
  {
    hide Inv, Good, Addr, Wanted, Taken, FourSlots;
    var lo := off / BSIZE;
    FirstThere(l, s, i, off);
    ChunkWants(i, off);
    assert (i, lo) in Taken(s);
    FourFresh(s, i, off);
  }

  lemma FourFresh(s: Fs, i: nat, off: nat)
    requires i < |s.mem| && CrossingChunk(s, i, off, 3 * BSIZE)
    ensures |FourSlots(i, off / BSIZE)| == 4 && FourSlots(i, off / BSIZE) !! Taken(s)
  {
    hide Addr, Taken;
  }

  lemma SpreadFits(l: Layout, s: Fs, i: nat, off: nat, f: set<nat>)
    requires Good(l, s) && i < |s.mem| && CrossingChunk(s, i, off, 3 * BSIZE) && FourSpread(l, s.disk, f)
    ensures |Taken(s) + Wanted(i, off, 3 * BSIZE)| <= Room(l)
  {
    hide Inv, Good, Addr, Taken, Wanted, Free;
    FourNew(l, s, i, off);
    Conserved(l, s);
    SubsetSize(f, Free(l, s.disk));
  }

  /** First fit takes exactly the four lowest free blocks. */
  lemma TakesTheLowest(l: Layout, s: Fs, t: Fs, i: nat, off: nat, f: set<nat>)
    requires Good(l, s) && i < |s.mem| && CrossingChunk(s, i, off, 3 * BSIZE) && FourSpread(l, s.disk, f)
    requires Allocates(l, s, t, Wanted(i, off, 3 * BSIZE))
    ensures Free(l, t.disk) == Free(l, s.disk) - f
  {
    hide Inv, Good, Addr, Taken, Wanted, Free, FirstFit, FourSlots;
    FourNew(l, s, i, off);
    hide CrossingChunk;
    Conserved(l, s);
    Conserved(l, t);
    var free := Free(l, s.disk);
    assert |free - f| == |free| - 4 by {
      assert free == (free - f) + f;
    }
    FirstFitUnique(free, Free(l, t.disk), free - f);
  }

  /** Each new slot has one of them, and no two the same. */
  lemma NewSlot(l: Layout, s: Fs, t: Fs, i: nat, off: nat, f: set<nat>, k: nat)
    requires Good(l, s) && i < |s.mem| && CrossingChunk(s, i, off, 3 * BSIZE) && FourSpread(l, s.disk, f)
    requires Allocates(l, s, t, Wanted(i, off, 3 * BSIZE)) && k < NSLOTS && (i, k) in FourSlots(i, off / BSIZE)
    ensures Addr(t, i, k) != 0 && Addr(t, i, k) in f
  {
    hide Inv, Good, Addr, Wanted, Free, FirstFit, Used;
    FourNew(l, s, i, off);
    TakesTheLowest(l, s, t, i, off, f);
    assert (i, k) in Taken(t);
    NewWasFree(l, s, t, Wanted(i, off, 3 * BSIZE), i, k);
  }

  lemma NewSlotsApart(l: Layout, s: Fs, t: Fs, i: nat, off: nat, f: set<nat>, k: nat, m: nat)
    requires Good(l, s) && i < |s.mem| && CrossingChunk(s, i, off, 3 * BSIZE) && FourSpread(l, s.disk, f)
    requires Allocates(l, s, t, Wanted(i, off, 3 * BSIZE)) && k < NSLOTS && m < NSLOTS && k != m
    requires (i, k) in FourSlots(i, off / BSIZE) && (i, m) in FourSlots(i, off / BSIZE)
    ensures BBlock(l, Addr(t, i, k)) != BBlock(l, Addr(t, i, m))
  {
    hide Inv, Good, Addr, Wanted, Free, FirstFit, Used, Taken, CrossingChunk, FourSlots, BBlock;
    NewSlot(l, s, t, i, off, f, k);
    NewSlot(l, s, t, i, off, f, m);
    SlotsInv(l, t, i, k, i, m);
  }

  /** The bound is reached. */
  lemma LogsMost(l: Layout, s: Fs, t: Fs, i: nat, off: nat, f: set<nat>)
    requires Good(l, s) && i < |s.mem| && CrossingChunk(s, i, off, 3 * BSIZE) && FourSpread(l, s.disk, f)
    requires Allocates(l, s, t, Wanted(i, off, 3 * BSIZE))
    ensures off / BSIZE + BlocksOf(off, 3 * BSIZE) <= MAXFILE && off + 3 * BSIZE > s.mem[i].size
    ensures |LogsTo(l, s, t, i, off / BSIZE, BlocksOf(off, 3 * BSIZE)) + {IBlock(l, i)}| == MAXOPBLOCKS
  {
    hide Inv, Good, Wanted, Free, FirstFit, Used, Taken, FourSpread, BBlock, IBlock, LogsTo, Addr;
    var lo := off / BSIZE;
    assert BlocksOf(off, 3 * BSIZE) == 4;
    PastTheEnd(l, s, i, off);
    FourNew(l, s, i, off);
    var k1, k2, k3 := SlotOf(lo + 1), SlotOf(lo + 2), SlotOf(lo + 3);
    NewSlotsApart(l, s, t, i, off, f, k1, k2);
    NewSlotsApart(l, s, t, i, off, f, k1, k3);
    NewSlotsApart(l, s, t, i, off, f, k2, k3);
    NewSlotsApart(l, s, t, i, off, f, k1, INDIRECT);
    NewSlotsApart(l, s, t, i, off, f, k2, INDIRECT);
    NewSlotsApart(l, s, t, i, off, f, k3, INDIRECT);
    ThereAfter(l, s, t, i, off, f);
    CountNew(s, i, lo);
    ChunkTight(l, s, t, i, lo);
  }

  lemma PastTheEnd(l: Layout, s: Fs, i: nat, off: nat)
    requires Good(l, s) && i < |s.mem| && CrossingChunk(s, i, off, 3 * BSIZE)
    ensures off + 3 * BSIZE > s.mem[i].size
  {
    hide Inv, Good, Addr;
    GoodFile(l, s, i);
    var last := off / BSIZE + 3;
    assert Addr(s, i, SlotOf(last)) == 0;
    assert last * BSIZE >= s.mem[i].size;
  }

  lemma ThereAfter(l: Layout, s: Fs, t: Fs, i: nat, off: nat, f: set<nat>)
    requires Good(l, s) && i < |s.mem| && CrossingChunk(s, i, off, 3 * BSIZE) && FourSpread(l, s.disk, f)
    requires Allocates(l, s, t, Wanted(i, off, 3 * BSIZE))
    ensures There(t, i, off / BSIZE, 4)
  {
    hide Inv, Good, Addr, Wanted, Free, FirstFit, Used, Taken, FourSpread;
    var lo := off / BSIZE;
    FourNew(l, s, i, off);
    assert KeepsAddr(s, t, i, SlotOf(lo));
    NewSlot(l, s, t, i, off, f, INDIRECT);
    forall bn: nat | lo <= bn < lo + 4
      ensures Addr(t, i, SlotOf(bn)) != 0
    {
      if bn > lo {
        NewSlot(l, s, t, i, off, f, SlotOf(bn));
      }
    }
  }

  lemma CountNew(s: Fs, i: nat, lo: nat)
    requires i < |s.mem| && lo + 4 <= MAXFILE && Addr(s, i, SlotOf(lo)) != 0
    requires forall bn {:trigger SlotOf(bn)} :: lo < bn < lo + 4 ==> Addr(s, i, SlotOf(bn)) == 0
    ensures NewTo(s, i, lo, 4) == 3
  {
    hide Addr;
    assert Addr(s, i, SlotOf(lo + 1)) == 0 && Addr(s, i, SlotOf(lo + 2)) == 0 && Addr(s, i, SlotOf(lo + 3)) == 0;
    assert NewTo(s, i, lo, 1) == 0;
    assert NewTo(s, i, lo, 2) == 1;
    assert NewTo(s, i, lo, 3) == 2;
  }
}
