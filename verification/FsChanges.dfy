/**
 The changes that the file system makes, one at a time, and what each of them
 keeps: taking a block for a slot, writing a data block, writing an inode, and
 giving blocks back.
 */
module FsChanges {
  import opened Blocks
  import opened BlockFields
  import opened FsState

  // ---- The free map ----

  function SetUsed(l: Layout, disk: seq<Block>, b: nat, v: bool): (d: seq<Block>)
    requires ValidLayout(l) && |disk| == l.size && b < l.size
    ensures |d| == |disk| && forall x :: 0 <= x < |disk| && x != BBlock(l, b) ==> d[x] == disk[x]
  {
    BlocksInRange(l, 0, b);
    disk[BBlock(l, b) := SetBit(disk[BBlock(l, b)], b % BPB, v)]
  }

  lemma SetUsedFrame(l: Layout, disk: seq<Block>, b: nat, v: bool, x: nat)
    requires ValidLayout(l) && |disk| == l.size && b < l.size && x < l.size
    ensures Used(l, SetUsed(l, disk, b, v), x) == if x == b then v else Used(l, disk, x)
  {
    BlocksInRange(l, 0, b);
    BlocksInRange(l, 0, x);
    if BBlock(l, x) == BBlock(l, b) {
      SetBitFrame(disk[BBlock(l, b)], b % BPB, v, x % BPB);
      assert x % BPB == b % BPB <==> x == b;
    }
  }

  /** Blocks that agree with the free map's blocks agree about every bit. */
  lemma SameMap(l: Layout, d: seq<Block>, e: seq<Block>, b: nat)
    requires ValidLayout(l) && |d| == |e| == l.size && b < l.size
    requires forall x :: l.bmapstart <= x < l.nmeta ==> d[x] == e[x]
    ensures Used(l, d, b) == Used(l, e, b)
  {
    BlocksInRange(l, 0, b);
  }

  // ---- A new block for an empty slot ----

  /** Block `b` is marked and zeroed, and slot `k` of inode `i` gets it. */
  function Grown(l: Layout, s: Fs, i: nat, k: nat, b: nat): (t: Fs)
    requires Shape(l, s) && i < |s.mem| && k < NSLOTS && b < l.size
    ensures |t.disk| == |s.disk| && |t.mem| == |s.mem|
  {
    assert IsInode(s.mem[i]);
    var d := SetUsed(l, s.disk, b, true)[b := Zeros()];
    var p := s.mem[i].addrs[INDIRECT];
    if k <= INDIRECT then Fs(d, s.mem[i := s.mem[i].(addrs := s.mem[i].addrs[k := b])])
    else if p < |d| then Fs(d[p := SetWord(d[p], k - INDIRECT - 1, b)], s.mem)
    else s
  }

  ghost predicate CanGrow(l: Layout, s: Fs, i: nat, k: nat, b: nat)
  {
    && Inv(l, s) && i < |s.mem| && k < NSLOTS && b < l.size
    && Addr(s, i, k) == 0 && !Used(l, s.disk, b)
    && (k > INDIRECT ==> Addr(s, i, INDIRECT) != 0)
  }

  /** A free block lies among the data blocks and nobody owns it. */
  lemma FreeBlock(l: Layout, s: Fs, b: nat, i: nat, k: nat)
    requires Inv(l, s) && b < l.size && !Used(l, s.disk, b) && i < |s.mem| && k < NSLOTS
    ensures b >= l.nmeta > 0 && Addr(s, i, k) != b
  {
    hide Addr, Used;
    assert BitOk(l, s, b);
    if Addr(s, i, k) == b {
      OwnedIsUsed(l, s, i, k);
    }
  }

  lemma GrownDisk(l: Layout, s: Fs, i: nat, k: nat, b: nat, x: nat)
    requires CanGrow(l, s, i, k, b) && x < l.size && x != b && !(l.bmapstart <= x < l.nmeta)
    requires k > INDIRECT ==> x != Addr(s, i, INDIRECT)
    ensures Grown(l, s, i, k, b).disk[x] == s.disk[x]
  {
    BlocksInRange(l, 0, b);
  }

  lemma GrownAddr(l: Layout, s: Fs, i: nat, k: nat, b: nat, j: nat, m: nat)
    requires CanGrow(l, s, i, k, b) && j < |s.mem| && m < NSLOTS
    ensures Addr(Grown(l, s, i, k, b), j, m) == if j == i && m == k then b else Addr(s, j, m)
  {
    hide Inv, SetUsed, Word, SetWord, Used;
    SlotInv(l, s, i, k);
    SlotInv(l, s, j, INDIRECT);
    SlotInv(l, s, i, INDIRECT);
    FreeBlock(l, s, b, j, INDIRECT);
    FreeBlock(l, s, b, i, INDIRECT);
    SlotsInv(l, s, i, INDIRECT, j, INDIRECT);
    BlocksInRange(l, 0, b);
    var t, p := Grown(l, s, i, k, b), s.mem[j].addrs[INDIRECT];
    if m > INDIRECT && p != 0 {
      if k > INDIRECT && j == i {
        SetWordFrame(s.disk[p], k - INDIRECT - 1, b, m - INDIRECT - 1);
        assert t.disk[p] == SetWord(s.disk[p], k - INDIRECT - 1, b);
      } else {
        GrownDisk(l, s, i, k, b, p);
      }
    }
    if m > INDIRECT && k == INDIRECT && j == i {
      ZeroWord(m - INDIRECT - 1);
      assert t.disk[b] == Zeros();
    }
  }

  lemma GrownShape(l: Layout, s: Fs, i: nat, k: nat, b: nat)
    requires CanGrow(l, s, i, k, b)
    ensures Shape(l, Grown(l, s, i, k, b))
  {
    assert IsInode(s.mem[i]);
    var t := Grown(l, s, i, k, b);
    forall j | 0 <= j < |t.mem|
      ensures IsInode(t.mem[j])
    {
      assert IsInode(s.mem[j]);
    }
  }

  lemma GrownUsed(l: Layout, s: Fs, i: nat, k: nat, b: nat, x: nat)
    requires CanGrow(l, s, i, k, b) && x < l.size
    ensures Used(l, Grown(l, s, i, k, b).disk, x) == (x == b || Used(l, s.disk, x))
  {
    hide Inv, Used, Word, SetWord;
    SlotInv(l, s, i, INDIRECT);
    FreeBlock(l, s, b, i, INDIRECT);
    SetUsedFrame(l, s.disk, b, true, x);
    SameMap(l, SetUsed(l, s.disk, b, true), Grown(l, s, i, k, b).disk, x);
  }

  lemma GrownInv(l: Layout, s: Fs, i: nat, k: nat, b: nat)
    requires CanGrow(l, s, i, k, b)
    ensures Inv(l, Grown(l, s, i, k, b))
  {
    hide Addr, Used, Grown;
    var t := Grown(l, s, i, k, b);
    GrownShape(l, s, i, k, b);
    forall j: nat, m: nat | j < |t.mem| && m < NSLOTS
      ensures InRange(l, t, j, m)
    {
      GrownAddr(l, s, i, k, b, j, m);
      FreeBlock(l, s, b, j, m);
      SlotInv(l, s, j, m);
    }
    forall j: nat, m: nat, j': nat, m': nat | j < |t.mem| && m < NSLOTS && j' < |t.mem| && m' < NSLOTS
      ensures Apart(t, j, m, j', m')
    {
      GrownAddr(l, s, i, k, b, j, m);
      GrownAddr(l, s, i, k, b, j', m');
      FreeBlock(l, s, b, j, m);
      FreeBlock(l, s, b, j', m');
      SlotsInv(l, s, j, m, j', m');
    }
    forall x: nat | x < l.size
      ensures BitOk(l, t, x)
    {
      GrownBit(l, s, i, k, b, x);
    }
  }

  lemma GrownBit(l: Layout, s: Fs, i: nat, k: nat, b: nat, x: nat)
    requires CanGrow(l, s, i, k, b) && x < l.size && Shape(l, Grown(l, s, i, k, b))
    ensures BitOk(l, Grown(l, s, i, k, b), x)
  {
    hide Addr, Used, Grown;
    var t := Grown(l, s, i, k, b);
    GrownUsed(l, s, i, k, b, x);
    assert BitOk(l, s, x);
    FreeBlock(l, s, b, i, k);
    if Owned(s, x) {
      var j: nat, m: nat :| OwnedBy(s, j, m, x);
      GrownAddr(l, s, i, k, b, j, m);
      assert OwnedBy(t, j, m, x);
    }
    GrownAddr(l, s, i, k, b, i, k);
    assert OwnedBy(t, i, k, b);
    if Owned(t, x) {
      var j: nat, m: nat :| OwnedBy(t, j, m, x);
      GrownAddr(l, s, i, k, b, j, m);
      assert x == b || OwnedBy(s, j, m, x);
    }
  }

  /** No file changes: the new block is all zeros. */
  lemma GrownBytes(l: Layout, s: Fs, i: nat, k: nat, b: nat, j: nat, o: nat)
    requires CanGrow(l, s, i, k, b) && j < |s.mem| && o < MAXFILE * BSIZE
    ensures ByteAt(Grown(l, s, i, k, b), j, o) == ByteAt(s, j, o)
  {
    hide Addr, Used, Inv, Grown;
    var m, t := SlotOf(o / BSIZE), Grown(l, s, i, k, b);
    GrownAddr(l, s, i, k, b, j, m);
    FreeBlock(l, s, b, j, m);
    SlotInv(l, s, j, m);
    if j == i && m == k {
      GrownZero(l, s, i, k, b);
    } else if Addr(s, j, m) != 0 {
      SlotsInv(l, s, j, m, i, INDIRECT);
      GrownDisk(l, s, i, k, b, Addr(s, j, m));
    }
  }

  lemma GrownZero(l: Layout, s: Fs, i: nat, k: nat, b: nat)
    requires CanGrow(l, s, i, k, b)
    ensures Grown(l, s, i, k, b).disk[b] == Zeros()
  {
    hide Inv, Used, Word, SetWord;
    SlotInv(l, s, i, INDIRECT);
    FreeBlock(l, s, b, i, INDIRECT);
  }

  lemma GrownSynced(l: Layout, s: Fs, i: nat, k: nat, b: nat, j: nat)
    requires CanGrow(l, s, i, k, b) && j < |s.mem| && Synced(l, s, j) && (j != i || k > INDIRECT)
    requires Shape(l, Grown(l, s, i, k, b))
    ensures Synced(l, Grown(l, s, i, k, b), j)
  {
    hide Inv, Used, Word, SetWord, Addr;
    BlocksInRange(l, j, 0);
    SlotInv(l, s, i, INDIRECT);
    FreeBlock(l, s, b, i, INDIRECT);
    GrownDisk(l, s, i, k, b, IBlock(l, j));
  }

  // ---- Changes that touch neither slots nor the free map ----

  /** The slots and the free map of `t` are those of `s`. */
  ghost predicate Quiet(l: Layout, s: Fs, t: Fs)
    requires Shape(l, s)
    ensures Quiet(l, s, t) ==> Shape(l, t)
  {
    && Shape(l, t)
    && (forall x :: l.bmapstart <= x < l.nmeta ==> t.disk[x] == s.disk[x])
    && (forall j: nat {:trigger SameSlots(s, t, j)} :: j < |s.mem| ==> SameSlots(s, t, j))
  }

  ghost predicate SameSlots(s: Fs, t: Fs, j: nat)
    requires j < |s.mem| == |t.mem| && |s.disk| == |t.disk|
  {
    && t.mem[j].addrs == s.mem[j].addrs
    && var p := if |s.mem[j].addrs| == NDIRECT + 1 then s.mem[j].addrs[INDIRECT] else 0;
       p != 0 && p < |s.disk| ==> t.disk[p] == s.disk[p]
  }

  lemma QuietAddr(l: Layout, s: Fs, t: Fs, j: nat, m: nat)
    requires Shape(l, s) && Quiet(l, s, t) && j < |s.mem| && m < NSLOTS
    ensures Addr(t, j, m) == Addr(s, j, m)
  {
    hide Word;
    assert SameSlots(s, t, j);
  }

  lemma QuietInv(l: Layout, s: Fs, t: Fs)
    requires Inv(l, s) && Quiet(l, s, t)
    ensures Inv(l, t)
  {
    hide Addr, Used, Quiet;
    forall j: nat, m: nat | j < |s.mem| && m < NSLOTS
      ensures Addr(t, j, m) == Addr(s, j, m)
    {
      QuietAddr(l, s, t, j, m);
    }
    forall j: nat, m: nat | j < |t.mem| && m < NSLOTS
      ensures InRange(l, t, j, m)
    {
      assert InRange(l, s, j, m);
    }
    forall j: nat, m: nat, j': nat, m': nat | j < |t.mem| && m < NSLOTS && j' < |t.mem| && m' < NSLOTS
      ensures Apart(t, j, m, j', m')
    {
      assert Apart(s, j, m, j', m');
    }
    forall x: nat | x < l.size
      ensures BitOk(l, t, x)
    {
      assert BitOk(l, s, x);
      QuietBit(l, s, t, x);
    }
  }

  lemma QuietBit(l: Layout, s: Fs, t: Fs, x: nat)
    requires Shape(l, s) && Quiet(l, s, t) && x < l.size
    ensures Used(l, t.disk, x) == Used(l, s.disk, x) && |t.mem| == |s.mem|
    ensures Owned(t, x) <==> Owned(s, x)
  {
    hide Addr, Used;
    SameMap(l, t.disk, s.disk, x);
    if Owned(s, x) {
      var j: nat, m: nat :| OwnedBy(s, j, m, x);
      QuietAddr(l, s, t, j, m);
      assert OwnedBy(t, j, m, x);
    }
    if Owned(t, x) {
      var j: nat, m: nat :| OwnedBy(t, j, m, x);
      QuietAddr(l, s, t, j, m);
      assert OwnedBy(s, j, m, x);
    }
  }

  // ---- Writing a data block ----

  function Stored(s: Fs, a: nat, block: Block): (t: Fs)
    requires a < |s.disk|
  {
    s.(disk := s.disk[a := block])
  }

  lemma StoredQuiet(l: Layout, s: Fs, i: nat, bn: nat, block: Block)
    requires Inv(l, s) && i < |s.mem| && bn < MAXFILE && Addr(s, i, SlotOf(bn)) != 0
    ensures Addr(s, i, SlotOf(bn)) < l.size && Quiet(l, s, Stored(s, Addr(s, i, SlotOf(bn)), block))
  {
    hide Inv;
    var a := Addr(s, i, SlotOf(bn));
    SlotInv(l, s, i, SlotOf(bn));
    var t := Stored(s, a, block);
    forall j: nat | j < |s.mem|
      ensures SameSlots(s, t, j)
    {
      SlotInv(l, s, j, INDIRECT);
      SlotsInv(l, s, i, SlotOf(bn), j, INDIRECT);
    }
  }

  lemma StoredBytes(l: Layout, s: Fs, i: nat, bn: nat, block: Block, j: nat, o: nat)
    requires Inv(l, s) && i < |s.mem| && bn < MAXFILE && Addr(s, i, SlotOf(bn)) != 0
    requires j < |s.mem| && o < MAXFILE * BSIZE
    ensures Addr(s, i, SlotOf(bn)) < l.size
    ensures ByteAt(Stored(s, Addr(s, i, SlotOf(bn)), block), j, o) ==
            if j == i && o / BSIZE == bn then block[o % BSIZE] else ByteAt(s, j, o)
  {
    hide Inv, Addr, Quiet;
    StoredQuiet(l, s, i, bn, block);
    var a := Addr(s, i, SlotOf(bn));
    var t := Stored(s, a, block);
    QuietAddr(l, s, t, j, SlotOf(o / BSIZE));
    SlotsInv(l, s, i, SlotOf(bn), j, SlotOf(o / BSIZE));
  }

  lemma StoredSynced(l: Layout, s: Fs, i: nat, bn: nat, block: Block, j: nat)
    requires Inv(l, s) && i < |s.mem| && bn < MAXFILE && Addr(s, i, SlotOf(bn)) != 0 && j < |s.mem| && Synced(l, s, j)
    ensures Addr(s, i, SlotOf(bn)) < l.size
    ensures Shape(l, Stored(s, Addr(s, i, SlotOf(bn)), block)) && Synced(l, Stored(s, Addr(s, i, SlotOf(bn)), block), j)
  {
    hide Inv, Addr, Word;
    StoredQuiet(l, s, i, bn, block);
    SlotInv(l, s, i, SlotOf(bn));
    BlocksInRange(l, j, 0);
  }

  // ---- Writing an inode ----

  /** `iupdate`. */
  function Updated(l: Layout, s: Fs, i: nat): (t: Fs)
    requires Shape(l, s) && i < |s.mem|
  {
    BlocksInRange(l, i, 0);
    assert IsInode(s.mem[i]);
    s.(disk := s.disk[IBlock(l, i) := SetWords(s.disk[IBlock(l, i)], INODE_WORDS * (i % IPB), InodeWords(s.mem[i]))])
  }

  lemma UpdatedQuiet(l: Layout, s: Fs, i: nat)
    requires Inv(l, s) && i < |s.mem|
    ensures Quiet(l, s, Updated(l, s, i))
  {
    hide Inv, SetWords, InodeWords;
    BlocksInRange(l, i, 0);
    var t := Updated(l, s, i);
    forall j: nat | j < |s.mem|
      ensures SameSlots(s, t, j)
    {
      SlotInv(l, s, j, INDIRECT);
    }
  }

  lemma UpdatedBytes(l: Layout, s: Fs, i: nat, j: nat, o: nat)
    requires Inv(l, s) && i < |s.mem| && j < |s.mem| && o < MAXFILE * BSIZE
    ensures |Updated(l, s, i).mem| == |s.mem| && ByteAt(Updated(l, s, i), j, o) == ByteAt(s, j, o)
  {
    hide Inv, Addr, SetWords, InodeWords, Quiet;
    UpdatedQuiet(l, s, i);
    BlocksInRange(l, i, 0);
    QuietAddr(l, s, Updated(l, s, i), j, SlotOf(o / BSIZE));
    SlotInv(l, s, j, SlotOf(o / BSIZE));
  }

  /** Afterwards the inode on the disk is the one in memory; the other inodes of
      the block stay as they were. */
  lemma UpdatedSynced(l: Layout, s: Fs, i: nat, j: nat)
    requires Shape(l, s) && i < |s.mem| && j < |s.mem| && (j == i || Synced(l, s, j))
    requires Shape(l, Updated(l, s, i))
    ensures Synced(l, Updated(l, s, i), j)
  {
    hide SetWords, InodeWords, Word;
    BlocksInRange(l, i, 0);
    BlocksInRange(l, j, 0);
    assert IsInode(s.mem[i]) && IsInode(s.mem[j]);
    var ws := InodeWords(s.mem[i]);
    forall q | 0 <= q < INODE_WORDS
      ensures Word(Updated(l, s, i).disk[IBlock(l, j)], INODE_WORDS * (j % IPB) + q) == InodeWords(s.mem[j])[q]
    {
      if IBlock(l, i) == IBlock(l, j) {
        SetWordsFrame(s.disk[IBlock(l, i)], INODE_WORDS * (i % IPB), ws, INODE_WORDS * (j % IPB) + q);
        assert i % IPB == j % IPB <==> i == j;
      }
      assert j != i ==> Word(s.disk[IBlock(l, j)], INODE_WORDS * (j % IPB) + q) == InodeWords(s.mem[j])[q];
    }
  }
}
