/**
 How much room there is: which slots hold a block, which blocks are free, and
 what a change that takes blocks does to both.
 */
module FsSpace {
  import opened Blocks
  import opened Counting
  import opened FsState
  import opened FsChanges
  import opened FsSteps

  /** The slots, by inode, that hold a block. */
  ghost function Taken(s: Fs): (slots: set<(nat, nat)>)
    ensures forall i: nat, k: nat {:trigger (i, k) in slots} ::
              (i, k) in slots <==> i < |s.mem| && k < NSLOTS && Addr(s, i, k) != 0
  {
    set i: nat, k: nat | i < |s.mem| && k < NSLOTS && Addr(s, i, k) != 0 :: (i, k)
  }

  ghost function Free(l: Layout, disk: seq<Block>): (blocks: set<nat>)
    requires ValidLayout(l) && |disk| == l.size
    ensures forall b: nat {:trigger b in blocks} :: b in blocks <==> b < l.size && !Used(l, disk, b)
  {
    set b: nat | b < l.size && !Used(l, disk, b)
  }

  /** The blocks that files can have. */
  function Room(l: Layout): (n: nat)
    requires ValidLayout(l)
  {
    l.size - l.nmeta
  }

  ghost function Owner(s: Fs, b: nat): (p: (nat, nat))
    ensures Owned(s, b) ==> OwnedBy(s, p.0, p.1, b)
  {
    if Owned(s, b) then
      var i: nat, k: nat :| OwnedBy(s, i, k, b);
      (i, k)
    else (0, 0)
  }

  ghost function BlockIn(s: Fs, p: (nat, nat)): (b: nat)
  {
    if p.0 < |s.mem| && p.1 < NSLOTS then Addr(s, p.0, p.1) else 0
  }

  ghost function UsedData(l: Layout, disk: seq<Block>): (blocks: set<nat>)
    requires ValidLayout(l) && |disk| == l.size
    ensures forall b: nat {:trigger b in blocks} :: b in blocks <==> l.nmeta <= b < l.size && Used(l, disk, b)
  {
    set b: nat | l.nmeta <= b < l.size && Used(l, disk, b)
  }

  /** As many data blocks are in use as there are slots that hold one. */
  lemma TakenAreUsed(l: Layout, s: Fs)
    requires Inv(l, s)
    ensures |Taken(s)| == |UsedData(l, s.disk)|
  {
    hide Addr, Used, Inv;
    forall p | p in Taken(s)
      ensures BlockIn(s, p) in UsedData(l, s.disk) && Owner(s, BlockIn(s, p)) == p
    {
      var b := BlockIn(s, p);
      SlotInv(l, s, p.0, p.1);
      OwnedIsUsed(l, s, p.0, p.1);
      assert OwnedBy(s, p.0, p.1, b);
      var q := Owner(s, b);
      SlotsInv(l, s, p.0, p.1, q.0, q.1);
    }
    forall b | b in UsedData(l, s.disk)
      ensures Owner(s, b) in Taken(s) && BlockIn(s, Owner(s, b)) == b
    {
      UsedIsOwned(l, s, b);
      var q := Owner(s, b);
      assert (q.0, q.1) in Taken(s);
    }
    BijectionSize(Taken(s), UsedData(l, s.disk), p => BlockIn(s, p), b => Owner(s, b));
  }

  lemma UsedIsOwned(l: Layout, s: Fs, b: nat)
    requires Inv(l, s) && l.nmeta <= b < l.size && Used(l, s.disk, b)
    ensures Owned(s, b)
  {
    hide Addr, Used;
    assert BitOk(l, s, b);
  }

  lemma FreeIsData(l: Layout, s: Fs, b: nat)
    requires Inv(l, s) && b in Free(l, s.disk)
    ensures l.nmeta <= b
  {
    hide Addr, Used;
    assert BitOk(l, s, b);
  }

  /** A data block is free or in use. */
  lemma FreeOrUsed(l: Layout, s: Fs)
    requires Inv(l, s)
    ensures Free(l, s.disk) + UsedData(l, s.disk) == Below(l.size) - Below(l.nmeta)
    ensures Free(l, s.disk) !! UsedData(l, s.disk)
  {
    hide Addr, Used, Inv;
    forall b | b in Free(l, s.disk)
      ensures l.nmeta <= b
    {
      FreeIsData(l, s, b);
    }
  }

  /** Every data block is free or in exactly one slot. */
  lemma Conserved(l: Layout, s: Fs)
    requires Inv(l, s)
    ensures |Free(l, s.disk)| + |Taken(s)| == Room(l)
  {
    hide Addr, Used, Inv, Free, UsedData, Taken, Below;
    TakenAreUsed(l, s);
    FreeOrUsed(l, s);
    SizeOfRange(l.nmeta, l.size);
  }

  // ---- Taking blocks ----

  /** From `a` to `b` the lowest elements have gone. */
  ghost predicate FirstFit(a: set<nat>, b: set<nat>)
  {
    b <= a && forall x, y :: x in b && y in a - b ==> y < x
  }

  lemma FirstFitThen(a: set<nat>, b: set<nat>, c: set<nat>)
    requires FirstFit(a, b) && FirstFit(b, c)
    ensures FirstFit(a, c)
  {
    forall x, y | x in c && y in a - c
      ensures y < x
    {
      assert y in a - b || y in b - c;
    }
  }

  /** How many have gone says which ones. */
  lemma FirstFitUnique(a: set<nat>, b: set<nat>, c: set<nat>)
    requires FirstFit(a, b) && FirstFit(a, c) && |b| == |c|
    ensures b == c
  {
    if x :| x in b && x !in c {
      assert c <= b by {
        forall y | y in c
          ensures y in b
        {
          assert x in a - c && x < y;
          assert y in a - b ==> y < x;
        }
      }
      SameSize(c, b);
    } else {
      assert b <= c;
      SameSize(b, c);
    }
  }

  ghost predicate KeepsAddr(s: Fs, t: Fs, j: nat, m: nat)
    requires j < |s.mem| == |t.mem| && m < NSLOTS
  {
    Addr(s, j, m) != 0 ==> Addr(t, j, m) == Addr(s, j, m)
  }

  /** The slots `wanted` have blocks, the slots that had one keep it, and the
      blocks taken for the others were the lowest free ones. */
  ghost predicate Allocates(l: Layout, s: Fs, t: Fs, wanted: set<(nat, nat)>)
  {
    && Inv(l, s) && Inv(l, t) && |s.mem| == |t.mem|
    && (forall j: nat, m: nat {:trigger KeepsAddr(s, t, j, m)} :: j < |s.mem| && m < NSLOTS ==> KeepsAddr(s, t, j, m))
    && Taken(t) == Taken(s) + wanted
    && FirstFit(Free(l, s.disk), Free(l, t.disk))
  }

  /** There is always room for what has been taken. */
  lemma AllocatesFits(l: Layout, s: Fs, t: Fs, wanted: set<(nat, nat)>)
    requires Allocates(l, s, t, wanted)
    ensures |Taken(s) + wanted| <= Room(l)
  {
    hide Inv, Addr, Used;
    Conserved(l, t);
  }

  lemma AllocatesThen(l: Layout, s: Fs, t: Fs, u: Fs, w1: set<(nat, nat)>, w2: set<(nat, nat)>)
    requires Allocates(l, s, t, w1) && Allocates(l, t, u, w2)
    ensures Allocates(l, s, u, w1 + w2)
  {
    hide Inv, Addr, Used, Taken, Free, FirstFit;
    FirstFitThen(Free(l, s.disk), Free(l, t.disk), Free(l, u.disk));
    forall j: nat, m: nat | j < |s.mem| && m < NSLOTS
      ensures KeepsAddr(s, u, j, m)
    {
      assert KeepsAddr(s, t, j, m) && KeepsAddr(t, u, j, m);
    }
    assert Taken(s) + w1 + w2 == Taken(s) + (w1 + w2);
  }

  lemma AllocatesNothing(l: Layout, s: Fs)
    requires Inv(l, s)
    ensures Allocates(l, s, s, {})
  {
    hide Inv, Addr, Used;
  }

  /** What the slots hold already need not be taken. */
  lemma AllocatesMore(l: Layout, s: Fs, t: Fs, w: set<(nat, nat)>, more: set<(nat, nat)>)
    requires Allocates(l, s, t, w) && w <= more <= Taken(t)
    ensures Allocates(l, s, t, more)
  {
    hide Inv, Addr, Used, Taken, Free, FirstFit;
    assert Taken(s) + w == Taken(s) + more;
  }

  lemma QuietAllocates(l: Layout, s: Fs, t: Fs)
    requires Inv(l, s) && Quiet(l, s, t)
    ensures Allocates(l, s, t, {})
  {
    hide Inv, Addr, Used, Quiet;
    QuietInv(l, s, t);
    forall j: nat, m: nat | j < |s.mem| && m < NSLOTS
      ensures Addr(t, j, m) == Addr(s, j, m)
    {
      QuietAddr(l, s, t, j, m);
    }
    forall b: nat | b < l.size
      ensures Used(l, t.disk, b) == Used(l, s.disk, b)
    {
      QuietBit(l, s, t, b);
    }
    assert Free(l, t.disk) == Free(l, s.disk);
    assert Taken(t) == Taken(s) by {
      forall i: nat, k: nat
        ensures (i, k) in Taken(t) <==> (i, k) in Taken(s)
      {
      }
    }
  }

  lemma StoredAllocates(l: Layout, s: Fs, i: nat, bn: nat, block: Block)
    requires Inv(l, s) && i < |s.mem| && bn < MAXFILE && Addr(s, i, SlotOf(bn)) != 0
    ensures Addr(s, i, SlotOf(bn)) < l.size && Allocates(l, s, Stored(s, Addr(s, i, SlotOf(bn)), block), {})
  {
    hide Inv, Addr, Allocates;
    StoredQuiet(l, s, i, bn, block);
    QuietAllocates(l, s, Stored(s, Addr(s, i, SlotOf(bn)), block));
  }

  lemma FinishedAllocates(l: Layout, s: Fs, i: nat, size: nat)
    requires Inv(l, s) && i < |s.mem| && size < WORD_LIMIT
    ensures Allocates(l, s, Finished(l, s, i, size), {})
  {
    hide Inv, Addr, Quiet, Updated, Allocates;
    var t := Resized(s, i, size);
    ResizedQuiet(l, s, i, size);
    QuietInv(l, s, t);
    QuietAllocates(l, s, t);
    UpdatedQuiet(l, t, i);
    QuietAllocates(l, t, Updated(l, t, i));
    var none: set<(nat, nat)> := {};
    AllocatesThen(l, s, t, Updated(l, t, i), none, none);
    assert none + none == none;
  }

  /** `b` is the lowest free block. */
  ghost predicate Lowest(l: Layout, disk: seq<Block>, b: nat)
    requires ValidLayout(l) && |disk| == l.size
  {
    b < l.size && !Used(l, disk, b) && forall x: nat :: x < b ==> Used(l, disk, x)
  }

  lemma GrownAllocates(l: Layout, s: Fs, i: nat, k: nat, b: nat)
    requires CanGrow(l, s, i, k, b) && Lowest(l, s.disk, b)
    ensures Allocates(l, s, Grown(l, s, i, k, b), {(i, k)})
  {
    hide Inv, Addr, Used, Grown;
    var t := Grown(l, s, i, k, b);
    GrownInv(l, s, i, k, b);
    FreeBlock(l, s, b, i, k);
    forall j: nat, m: nat | j < |s.mem| && m < NSLOTS
      ensures KeepsAddr(s, t, j, m) && ((j, m) in Taken(t) <==> (j, m) in Taken(s) + {(i, k)})
    {
      GrownAddr(l, s, i, k, b, j, m);
    }
    assert Taken(t) == Taken(s) + {(i, k)};
    forall x: nat | x < l.size
      ensures Used(l, t.disk, x) == (x == b || Used(l, s.disk, x))
    {
      GrownUsed(l, s, i, k, b, x);
    }
  }

  /** No block is free exactly if the slots hold as many as there are. */
  lemma FullIff(l: Layout, s: Fs)
    requires Inv(l, s)
    ensures |Taken(s)| <= Room(l)
    ensures (forall x: nat :: x < l.size ==> Used(l, s.disk, x)) <==> |Taken(s)| == Room(l)
  {
    hide Inv, Addr, Used, Taken;
    Conserved(l, s);
    if forall x: nat :: x < l.size ==> Used(l, s.disk, x) {
      assert Free(l, s.disk) == {};
    }
    if x: nat :| x < l.size && !Used(l, s.disk, x) {
      assert x in Free(l, s.disk);
    }
  }

  /** All blocks have been taken, and one more slot of `all` needs one. */
  lemma NoRoom(l: Layout, s: Fs, t: Fs, w: set<(nat, nat)>, p: (nat, nat), all: set<(nat, nat)>)
    requires Allocates(l, s, t, w) && |Taken(t)| == Room(l) && p !in Taken(t) && w + {p} <= all
    ensures |Taken(s) + all| > Room(l)
  {
    hide Inv, Addr, Used, Taken, Free;
    SubsetSize(Taken(t) + {p}, Taken(s) + all);
  }

  /** There is no room for `w` exactly if it needs more blocks than are free. */
  lemma TooFewFree(l: Layout, s: Fs, w: set<(nat, nat)>)
    requires Inv(l, s)
    ensures |Taken(s) + w| > Room(l) <==> |w - Taken(s)| > |Free(l, s.disk)|
  {
    hide Inv, Addr, Used, Taken, Free;
    Conserved(l, s);
    assert Taken(s) + w == Taken(s) + (w - Taken(s));
  }

  /** A slot that got its block in between got one that was free before. */
  lemma NewWasFree(l: Layout, s: Fs, t: Fs, w: set<(nat, nat)>, i: nat, k: nat)
    requires Allocates(l, s, t, w) && i < |s.mem| && k < NSLOTS && Addr(s, i, k) == 0 && Addr(t, i, k) != 0
    ensures Addr(t, i, k) in Free(l, s.disk) - Free(l, t.disk)
  {
    hide Inv, Addr, Used;
    var b := Addr(t, i, k);
    SlotInv(l, t, i, k);
    OwnedIsUsed(l, t, i, k);
    if Used(l, s.disk, b) {
      UsedIsOwned(l, s, b);
      var q := Owner(s, b);
      assert KeepsAddr(s, t, q.0, q.1);
      SlotsInv(l, t, i, k, q.0, q.1);
      assert false;
    }
  }

  // ---- What a write needs ----

  /** Byte `o` of a file needs slot `m`. */
  predicate Needs(o: nat, m: nat)
  {
    o < MAXFILE * BSIZE && (m == SlotOf(o / BSIZE) || (m == INDIRECT && o / BSIZE >= NDIRECT))
  }

  ghost predicate Touches(off: nat, n: nat, m: nat)
  {
    exists o: nat :: off <= o < off + n && Needs(o, m)
  }

  /** The slots of inode `i` that the `n` bytes from `off` on need. */
  ghost function Wanted(i: nat, off: nat, n: nat): (slots: set<(nat, nat)>)
    ensures forall j: nat, m: nat {:trigger (j, m) in slots} ::
      (j, m) in slots <==> j == i && m < NSLOTS && Touches(off, n, m)
  {
    set m: nat | m < NSLOTS && Touches(off, n, m) :: (i, m)
  }

  lemma WantedNothing(i: nat, off: nat)
    ensures Wanted(i, off, 0) == {}
  {
  }

  lemma WantedThen(i: nat, off: nat, n: nat, more: nat)
    ensures Wanted(i, off, n) + Wanted(i, off + n, more) == Wanted(i, off, n + more)
  {
    hide Needs;
    forall m: nat | m < NSLOTS
      ensures Touches(off, n + more, m) <==> Touches(off, n, m) || Touches(off + n, more, m)
    {
      if Touches(off, n + more, m) {
        var o: nat :| off <= o < off + n + more && Needs(o, m);
        assert Touches(off, n, m) || Touches(off + n, more, m);
      }
    }
  }

  /** Block `bn` needs its slot and perhaps the indirect block. */
  ghost function BlockWants(i: nat, bn: nat): (slots: set<(nat, nat)>)
    requires bn < MAXFILE
  {
    {(i, SlotOf(bn))} + if bn >= NDIRECT then {(i, INDIRECT)} else {}
  }

  lemma WantedInBlock(i: nat, off: nat, n: nat)
    requires 0 < n && off < MAXFILE * BSIZE && off % BSIZE + n <= BSIZE
    ensures Wanted(i, off, n) == BlockWants(i, off / BSIZE)
  {
    var bn := off / BSIZE;
    forall m: nat | m < NSLOTS
      ensures Touches(off, n, m) <==> (i, m) in BlockWants(i, bn)
    {
      if Touches(off, n, m) {
        var o: nat :| off <= o < off + n && Needs(o, m);
        SameBlock(off, n, o);
      }
      if (i, m) in BlockWants(i, bn) {
        assert Needs(off, m);
      }
    }
  }

  /** A write inside a mapped file needs no new block. */
  lemma InsideNeedsNothing(s: Fs, i: nat, off: nat, n: nat)
    requires i < |s.mem| && Mapped(s, i) && off + n <= s.mem[i].size
    ensures Wanted(i, off, n) <= Taken(s)
  {
    forall j: nat, m: nat | (j, m) in Wanted(i, off, n)
      ensures (j, m) in Taken(s)
    {
      var o: nat :| off <= o < off + n && Needs(o, m);
      var bn := o / BSIZE;
      assert bn * BSIZE < s.mem[i].size;
      assert Addr(s, i, SlotOf(bn)) != 0;
    }
  }
}
