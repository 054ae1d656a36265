/**
 Sequences of changes on behalf of one inode: what a whole `bmap`, a whole write
 and a whole truncation do.
 */
module FsSteps {
  import opened Blocks
  import opened BlockFields
  import opened FsState
  import opened FsChanges

  // ---- Growing ----

  ghost predicate KeepsSlot(s: Fs, t: Fs, i: nat, j: nat, m: nat)
    requires j < |s.mem| == |t.mem| && m < NSLOTS
  {
    Addr(s, j, m) != 0 || j != i ==> Addr(t, j, m) == Addr(s, j, m)
  }

  ghost predicate KeepsSync(l: Layout, s: Fs, t: Fs, j: nat)
    requires Shape(l, s) && Shape(l, t) && j < l.ninodes
  {
    Synced(l, s, j) ==> Synced(l, t, j)
  }

  /** From `s` to `t` inode `i` may get blocks and keeps those it has; everything
      else about the inodes stays. */
  ghost predicate Extends(l: Layout, s: Fs, t: Fs, i: nat)
  {
    && Inv(l, s) && Inv(l, t) && i < |s.mem|
    && t.mem[i].(addrs := s.mem[i].addrs) == s.mem[i]
    && (forall j :: 0 <= j < |s.mem| && j != i ==> t.mem[j] == s.mem[j])
    && (forall j: nat, m: nat {:trigger KeepsSlot(s, t, i, j, m)} ::
          j < |s.mem| && m < NSLOTS ==> KeepsSlot(s, t, i, j, m))
    && (forall j: nat {:trigger KeepsSync(l, s, t, j)} :: j < |s.mem| && j != i ==> KeepsSync(l, s, t, j))
    && (t.mem == s.mem ==> KeepsSync(l, s, t, i))
  }

  lemma ExtendsItself(l: Layout, s: Fs, i: nat)
    requires Inv(l, s) && i < |s.mem|
    ensures Extends(l, s, s, i)
  {
    hide Inv, Addr, Synced;
  }

  lemma ExtendsMore(l: Layout, s: Fs, t: Fs, u: Fs, i: nat)
    requires Extends(l, s, t, i) && Extends(l, t, u, i) && (u.mem == s.mem ==> t.mem == s.mem)
    ensures Extends(l, s, u, i)
  {
    hide Inv, Addr, Synced;
    forall j: nat, m: nat | j < |s.mem| && m < NSLOTS
      ensures KeepsSlot(s, u, i, j, m)
    {
      assert KeepsSlot(s, t, i, j, m) && KeepsSlot(t, u, i, j, m);
    }
    forall j: nat | j < |s.mem| && j != i
      ensures KeepsSync(l, s, u, j)
    {
      assert KeepsSync(l, s, t, j) && KeepsSync(l, t, u, j);
    }
  }

  lemma GrownExtends(l: Layout, s: Fs, i: nat, k: nat, b: nat)
    requires CanGrow(l, s, i, k, b)
    ensures Extends(l, s, Grown(l, s, i, k, b), i)
  {
    hide Inv, Addr, Synced, Used;
    GrownInv(l, s, i, k, b);
    var t := Grown(l, s, i, k, b);
    forall j: nat, m: nat | j < |s.mem| && m < NSLOTS
      ensures KeepsSlot(s, t, i, j, m)
    {
      GrownAddr(l, s, i, k, b, j, m);
    }
    forall j: nat | j < |s.mem| && (j != i || k > INDIRECT)
      ensures KeepsSync(l, s, t, j)
    {
      if Synced(l, s, j) {
        GrownSynced(l, s, i, k, b, j);
      }
    }
    if k <= INDIRECT {
      GrownMem(l, s, i, k, b);
    }
  }

  /** A direct block or an indirect block changes the inode in memory. */
  lemma GrownMem(l: Layout, s: Fs, i: nat, k: nat, b: nat)
    requires CanGrow(l, s, i, k, b) && k <= INDIRECT
    ensures Grown(l, s, i, k, b).mem != s.mem
  {
    hide Inv, Used;
    SlotInv(l, s, i, k);
    FreeBlock(l, s, b, i, k);
    assert Grown(l, s, i, k, b).mem[i].addrs[k] == b;
  }

  lemma StoredExtends(l: Layout, s: Fs, i: nat, bn: nat, block: Block)
    requires Inv(l, s) && i < |s.mem| && bn < MAXFILE && Addr(s, i, SlotOf(bn)) != 0
    ensures Addr(s, i, SlotOf(bn)) < l.size && Extends(l, s, Stored(s, Addr(s, i, SlotOf(bn)), block), i)
  {
    hide Inv, Addr, Synced, Quiet;
    StoredQuiet(l, s, i, bn, block);
    var t := Stored(s, Addr(s, i, SlotOf(bn)), block);
    QuietInv(l, s, t);
    forall j: nat, m: nat | j < |s.mem| && m < NSLOTS
      ensures KeepsSlot(s, t, i, j, m)
    {
      QuietAddr(l, s, t, j, m);
    }
    forall j: nat | j < |s.mem|
      ensures KeepsSync(l, s, t, j)
    {
      if Synced(l, s, j) {
        StoredSynced(l, s, i, bn, block, j);
      }
    }
  }

  // ---- Bytes ----

  ghost predicate ByteIs(s: Fs, t: Fs, i: nat, off: nat, src: seq<Byte>, j: nat, o: nat)
    requires j < |s.mem| == |t.mem| && o < MAXFILE * BSIZE
  {
    ByteAt(t, j, o) == if j == i && off <= o < off + |src| then src[o - off] else ByteAt(s, j, o)
  }

  /** The bytes `src` stand in file `i` from `off` on; all others are as before,
      in every file. */
  ghost predicate Wrote(s: Fs, t: Fs, i: nat, off: nat, src: seq<Byte>)
  {
    |s.mem| == |t.mem| &&
    forall j: nat, o: nat {:trigger ByteIs(s, t, i, off, src, j, o)} ::
      j < |s.mem| && o < MAXFILE * BSIZE ==> ByteIs(s, t, i, off, src, j, o)
  }

  lemma GrownWrote(l: Layout, s: Fs, i: nat, k: nat, b: nat)
    requires CanGrow(l, s, i, k, b)
    ensures Wrote(s, Grown(l, s, i, k, b), i, 0, [])
  {
    hide Inv, Addr, Used, Grown, ByteAt;
    forall j: nat, o: nat | j < |s.mem| && o < MAXFILE * BSIZE
      ensures ByteIs(s, Grown(l, s, i, k, b), i, 0, [], j, o)
    {
      GrownBytes(l, s, i, k, b, j, o);
    }
  }

  lemma WroteNothing(s: Fs, i: nat)
    ensures Wrote(s, s, i, 0, [])
  {
    hide ByteAt;
  }

  /** Writing `src` and then, where it ends, `more`. */
  lemma WroteMore(s: Fs, t: Fs, u: Fs, i: nat, off: nat, src: seq<Byte>, more: seq<Byte>)
    requires Wrote(s, t, i, off, src) && Wrote(t, u, i, off + |src|, more)
    ensures Wrote(s, u, i, off, src + more)
  {
    hide ByteAt;
    forall j: nat, o: nat | j < |s.mem| && o < MAXFILE * BSIZE
      ensures ByteIs(s, u, i, off, src + more, j, o)
    {
      assert ByteIs(s, t, i, off, src, j, o) && ByteIs(t, u, i, off + |src|, more, j, o);
    }
  }

  lemma WroteEmpty(s: Fs, t: Fs, i: nat, off: nat, off': nat)
    requires Wrote(s, t, i, off, [])
    ensures Wrote(s, t, i, off', [])
  {
    hide ByteAt;
    forall j: nat, o: nat | j < |s.mem| && o < MAXFILE * BSIZE
      ensures ByteIs(s, t, i, off', [], j, o)
    {
      assert ByteIs(s, t, i, off, [], j, o);
    }
  }

  /** The part of a block that a write replaces. */
  function Spliced(block: Block, at: nat, src: seq<Byte>): (r: Block)
    requires at + |src| <= BSIZE
  {
    block[..at] + src + block[at + |src|..]
  }

  lemma SplicedAt(block: Block, at: nat, src: seq<Byte>, q: nat)
    requires at + |src| <= BSIZE && q < BSIZE
    ensures Spliced(block, at, src)[q] == if at <= q < at + |src| then src[q - at] else block[q]
  {
  }

  lemma StoredWrote(l: Layout, s: Fs, i: nat, off: nat, src: seq<Byte>)
    requires Inv(l, s) && i < |s.mem| && off < MAXFILE * BSIZE && off % BSIZE + |src| <= BSIZE
    requires Addr(s, i, SlotOf(off / BSIZE)) != 0
    ensures var a := Addr(s, i, SlotOf(off / BSIZE));
            a < |s.disk| && Wrote(s, Stored(s, a, Spliced(s.disk[a], off % BSIZE, src)), i, off, src)
  {
    hide Inv, Addr, Spliced;
    var bn := off / BSIZE;
    var a := Addr(s, i, SlotOf(bn));
    SlotInv(l, s, i, SlotOf(bn));
    var block := Spliced(s.disk[a], off % BSIZE, src);
    forall j: nat, o: nat | j < |s.mem| && o < MAXFILE * BSIZE
      ensures ByteIs(s, Stored(s, a, block), i, off, src, j, o)
    {
      StoredBytes(l, s, i, bn, block, j, o);
      SplicedAt(s.disk[a], off % BSIZE, src, o % BSIZE);
      SameBlock(off, |src|, o);
    }
  }

  /** A write inside one block is a range of that block. */
  lemma SameBlock(off: nat, n: nat, o: nat)
    requires off % BSIZE + n <= BSIZE
    ensures off <= o < off + n <==> o / BSIZE == off / BSIZE && off % BSIZE <= o % BSIZE < off % BSIZE + n
  {
  }

  // ---- Setting the size ----

  function Resized(s: Fs, i: nat, size: nat): (t: Fs)
    requires i < |s.mem|
  {
    s.(mem := s.mem[i := s.mem[i].(size := size)])
  }

  lemma ResizedQuiet(l: Layout, s: Fs, i: nat, size: nat)
    requires Inv(l, s) && i < |s.mem| && size < WORD_LIMIT
    ensures Quiet(l, s, Resized(s, i, size))
  {
    hide Inv;
    var t := Resized(s, i, size);
    forall j | 0 <= j < |t.mem|
      ensures IsInode(t.mem[j])
    {
      assert IsInode(s.mem[j]);
    }
    forall j: nat | j < |s.mem|
      ensures SameSlots(s, t, j)
    {
    }
  }

  /** The end of a write that makes the file longer: the inode gets its size and
      goes to the disk. */
  function Finished(l: Layout, s: Fs, i: nat, size: nat): (t: Fs)
    requires Inv(l, s) && i < |s.mem| && size < WORD_LIMIT
    ensures |t.mem| == |s.mem|
  {
    ResizedQuiet(l, s, i, size);
    Updated(l, Resized(s, i, size), i)
  }

  lemma FinishedAddr(l: Layout, s: Fs, i: nat, size: nat, j: nat, m: nat)
    requires Inv(l, s) && i < |s.mem| && size < WORD_LIMIT && j < |s.mem| && m < NSLOTS
    ensures Addr(Finished(l, s, i, size), j, m) == Addr(s, j, m)
  {
    hide Inv, Addr, Quiet, Updated;
    var t := Resized(s, i, size);
    ResizedQuiet(l, s, i, size);
    QuietInv(l, s, t);
    QuietAddr(l, s, t, j, m);
    UpdatedQuiet(l, t, i);
    QuietAddr(l, t, Updated(l, t, i), j, m);
  }

  lemma FinishedInv(l: Layout, s: Fs, i: nat, size: nat)
    requires Inv(l, s) && i < |s.mem| && size < WORD_LIMIT
    ensures Inv(l, Finished(l, s, i, size)) && Finished(l, s, i, size).mem == Resized(s, i, size).mem
  {
    hide Inv, Addr, Quiet, SetWords, InodeWords;
    var t := Resized(s, i, size);
    ResizedQuiet(l, s, i, size);
    QuietInv(l, s, t);
    UpdatedQuiet(l, t, i);
    QuietInv(l, t, Updated(l, t, i));
  }

  lemma FinishedBytes(l: Layout, s: Fs, i: nat, size: nat, j: nat, o: nat)
    requires Inv(l, s) && i < |s.mem| && size < WORD_LIMIT && j < |s.mem| && o < MAXFILE * BSIZE
    ensures ByteAt(Finished(l, s, i, size), j, o) == ByteAt(s, j, o)
  {
    hide Inv, Addr, Quiet, Updated;
    var t := Resized(s, i, size);
    ResizedQuiet(l, s, i, size);
    QuietInv(l, s, t);
    QuietAddr(l, s, t, j, SlotOf(o / BSIZE));
    UpdatedBytes(l, t, i, j, o);
  }

  lemma FinishedSynced(l: Layout, s: Fs, i: nat, size: nat, j: nat)
    requires Inv(l, s) && i < |s.mem| && size < WORD_LIMIT && j < |s.mem| && (j == i || Synced(l, s, j))
    ensures Shape(l, Finished(l, s, i, size)) && Synced(l, Finished(l, s, i, size), j)
  {
    hide Inv, Addr, Quiet, Updated, Word, InodeWords;
    var t := Resized(s, i, size);
    ResizedQuiet(l, s, i, size);
    QuietInv(l, s, t);
    UpdatedQuiet(l, t, i);
    if j != i {
      assert Synced(l, t, j);
    }
    UpdatedSynced(l, t, i, j);
  }

  lemma FinishedWrote(l: Layout, s: Fs, t: Fs, i: nat, size: nat, off: nat, src: seq<Byte>)
    requires Inv(l, t) && i < |t.mem| && size < WORD_LIMIT && Wrote(s, t, i, off, src)
    ensures Wrote(s, Finished(l, t, i, size), i, off, src)
  {
    hide Inv, ByteAt, Finished;
    forall j: nat, o: nat | j < |s.mem| && o < MAXFILE * BSIZE
      ensures ByteIs(s, Finished(l, t, i, size), i, off, src, j, o)
    {
      assert ByteIs(s, t, i, off, src, j, o);
      FinishedBytes(l, t, i, size, j, o);
    }
  }

  /** If in the end no inode has changed, none had changed in between. */
  lemma ExtendsBack(l: Layout, s: Fs, t: Fs, u: Fs, i: nat)
    requires Extends(l, s, t, i) && Extends(l, t, u, i) && u.mem == s.mem
    ensures t.mem == s.mem
  {
    hide Inv, Synced, Word;
    SlotInv(l, s, i, 0);
    SlotInv(l, t, i, 0);
    forall m: nat | m <= INDIRECT
      ensures t.mem[i].addrs[m] == s.mem[i].addrs[m]
    {
      assert KeepsSlot(s, t, i, i, m) && KeepsSlot(t, u, i, i, m);
      SlotInv(l, u, i, m);
    }
    assert t.mem[i].addrs == s.mem[i].addrs;
    assert t.mem[i] == s.mem[i];
  }

  lemma ExtendsThen(l: Layout, s: Fs, t: Fs, u: Fs, i: nat)
    requires Extends(l, s, t, i) && Extends(l, t, u, i)
    ensures Extends(l, s, u, i)
  {
    hide Extends;
    if u.mem == s.mem {
      ExtendsBack(l, s, t, u, i);
    }
    ExtendsMore(l, s, t, u, i);
  }

  // ---- Between operations ----

  /** The inode on disk is the one in memory, and the blocks below its size are
      there. */
  ghost predicate FileOk(l: Layout, s: Fs, j: nat)
    requires Shape(l, s) && j < |s.mem|
  {
    Synced(l, s, j) && Mapped(s, j)
  }

  ghost predicate Good(l: Layout, s: Fs)
    ensures Good(l, s) ==> Inv(l, s)
  {
    Inv(l, s) && forall j: nat {:trigger FileOk(l, s, j)} :: j < |s.mem| ==> FileOk(l, s, j)
  }

  lemma GoodFile(l: Layout, s: Fs, j: nat)
    requires Good(l, s) && j < |s.mem|
    ensures Synced(l, s, j) && Mapped(s, j)
  {
    hide Inv, Synced, Mapped;
    assert FileOk(l, s, j);
  }

  /** More blocks do no harm. */
  lemma ExtendsMapped(l: Layout, s: Fs, t: Fs, i: nat, j: nat)
    requires Extends(l, s, t, i) && j < |s.mem| && Mapped(s, j)
    ensures Mapped(t, j)
  {
    hide Inv, Addr, Synced;
    forall bn | 0 <= bn < MAXFILE && bn * BSIZE < t.mem[j].size
      ensures Addr(t, j, SlotOf(bn)) != 0
    {
      assert KeepsSlot(s, t, i, j, SlotOf(bn));
    }
  }

  /** A write inside the file needs no new block, so the inode stays. */
  lemma GoodInside(l: Layout, s: Fs, t: Fs, i: nat)
    requires Good(l, s) && Extends(l, s, t, i) && t.mem == s.mem
    ensures Good(l, t)
  {
    hide Inv, Addr, Synced, Mapped;
    forall j: nat | j < |t.mem|
      ensures FileOk(l, t, j)
    {
      GoodFile(l, s, j);
      ExtendsMapped(l, s, t, i, j);
      assert KeepsSync(l, s, t, j);
    }
  }

  /** A write past the end leaves a longer file, in memory and on disk. */
  lemma GoodLonger(l: Layout, s: Fs, t: Fs, i: nat, off: nat, size: nat)
    requires Good(l, s) && Extends(l, s, t, i) && off <= s.mem[i].size < size <= MAXFILE * BSIZE
    requires forall bn {:trigger SlotOf(bn)} ::
      off / BSIZE <= bn < MAXFILE && bn * BSIZE < size ==> Addr(t, i, SlotOf(bn)) != 0
    ensures Good(l, Finished(l, t, i, size))
  {
    hide Inv, Addr, Synced, Finished, Mapped;
    var u := Finished(l, t, i, size);
    FinishedInv(l, t, i, size);
    forall j: nat | j < |u.mem|
      ensures FileOk(l, u, j)
    {
      GoodFile(l, s, j);
      ExtendsMapped(l, s, t, i, j);
      if j != i {
        assert KeepsSync(l, s, t, j);
      }
      FinishedSynced(l, t, i, size, j);
      FinishedMapped(l, s, t, i, off, size, j);
    }
  }

  lemma FinishedMapped(l: Layout, s: Fs, t: Fs, i: nat, off: nat, size: nat, j: nat)
    requires Inv(l, t) && i < |t.mem| && j < |t.mem| && Mapped(t, j) && off <= t.mem[i].size < size <= MAXFILE * BSIZE
    requires forall bn {:trigger SlotOf(bn)} ::
      off / BSIZE <= bn < MAXFILE && bn * BSIZE < size ==> Addr(t, i, SlotOf(bn)) != 0
    ensures Mapped(Finished(l, t, i, size), j)
  {
    hide Inv, Addr, Finished;
    var u := Finished(l, t, i, size);
    FinishedInv(l, t, i, size);
    forall bn | 0 <= bn < MAXFILE && bn * BSIZE < u.mem[j].size
      ensures Addr(u, j, SlotOf(bn)) != 0
    {
      FinishedAddr(l, t, i, size, j, SlotOf(bn));
    }
  }
}
