/**
 The file system on a disk of blocks: inodes, the free map, and the slots of an
 inode that can own a block.
 */
module FsState {
  import opened Blocks
  import opened BlockFields

  const NDIRECT: nat := 12
  const NINDIRECT: nat := 128
  const MAXFILE: nat := 140
  const IPB: nat := 8
  const INODE_WORDS: nat := 16

  /** An inode owns blocks in 141 slots: 12 direct ones, the indirect block, and
      the 128 entries of the indirect block. */
  const NSLOTS: nat := 141

  const INDIRECT: nat := 12

  /** The super block, and the number of blocks in front of the data blocks. */
  datatype Layout = Layout(size: nat, ninodes: nat, inodestart: nat, bmapstart: nat, nmeta: nat)

  /** Inode blocks, then the free map, then data blocks. */
  predicate ValidLayout(l: Layout)
  {
    && 0 < l.inodestart <= l.bmapstart <= l.nmeta <= l.size < WORD_LIMIT
    && l.ninodes <= IPB * (l.bmapstart - l.inodestart)
    && l.size <= BPB * (l.nmeta - l.bmapstart)
  }

  /** `kind` holds type and major number, `links` minor number and link count. */
  datatype Inode = Inode(kind: nat, links: nat, size: nat, addrs: seq<nat>)

  predicate IsInode(ip: Inode)
  {
    && ip.kind < WORD_LIMIT && ip.links < WORD_LIMIT && ip.size < WORD_LIMIT
    && |ip.addrs| == NDIRECT + 1 && AreWords(ip.addrs)
  }

  function InodeWords(ip: Inode): (ws: seq<nat>)
    requires IsInode(ip)
    ensures |ws| == INODE_WORDS && AreWords(ws)
  {
    [ip.kind, ip.links, ip.size] + ip.addrs
  }

  /** The disk and the inodes in memory. */
  datatype Fs = Fs(disk: seq<Block>, mem: seq<Inode>)

  ghost predicate Shape(l: Layout, s: Fs)
  {
    && ValidLayout(l) && |s.disk| == l.size && |s.mem| == l.ninodes
    && forall i {:trigger IsInode(s.mem[i])} :: 0 <= i < |s.mem| ==> IsInode(s.mem[i])
  }

  function IBlock(l: Layout, i: nat): (b: nat)
  {
    i / IPB + l.inodestart
  }

  function BBlock(l: Layout, b: nat): (r: nat)
  {
    b / BPB + l.bmapstart
  }

  lemma BlocksInRange(l: Layout, i: nat, b: nat)
    requires ValidLayout(l)
    ensures i < l.ninodes ==> l.inodestart <= IBlock(l, i) < l.bmapstart
    ensures b < l.size ==> l.bmapstart <= BBlock(l, b) < l.nmeta
  {
  }

  predicate Used(l: Layout, disk: seq<Block>, b: nat)
    requires ValidLayout(l) && |disk| == l.size && b < l.size
  {
    BlocksInRange(l, 0, b);
    Bit(disk[BBlock(l, b)], b % BPB)
  }

  /** The inode on the disk is the one in memory. */
  ghost predicate Synced(l: Layout, s: Fs, i: nat)
    requires Shape(l, s) && i < l.ninodes
  {
    BlocksInRange(l, i, 0);
    assert IsInode(s.mem[i]);
    forall j {:trigger InodeWords(s.mem[i])[j]} :: 0 <= j < INODE_WORDS ==>
      Word(s.disk[IBlock(l, i)], INODE_WORDS * (i % IPB) + j) == InodeWords(s.mem[i])[j]
  }

  // ---- Slots ----

  /** The block in slot `k` of inode `i`, or 0. */
  function Addr(s: Fs, i: nat, k: nat): (b: nat)
    requires i < |s.mem| && k < NSLOTS
  {
    if |s.mem[i].addrs| != NDIRECT + 1 then 0
    else if k <= INDIRECT then s.mem[i].addrs[k]
    else
      var p := s.mem[i].addrs[INDIRECT];
      if p == 0 || p >= |s.disk| then 0 else Word(s.disk[p], k - INDIRECT - 1)
  }

  /** The slot of block `bn` of a file. */
  function SlotOf(bn: nat): (k: nat)
    requires bn < MAXFILE
    ensures k < NSLOTS && k != INDIRECT
  {
    if bn < NDIRECT then bn else bn + 1
  }

  ghost predicate InRange(l: Layout, s: Fs, i: nat, k: nat)
    requires i < |s.mem| && k < NSLOTS
  {
    Addr(s, i, k) != 0 ==> l.nmeta <= Addr(s, i, k) < l.size
  }

  ghost predicate Apart(s: Fs, i: nat, k: nat, j: nat, m: nat)
    requires i < |s.mem| && k < NSLOTS && j < |s.mem| && m < NSLOTS
  {
    Addr(s, i, k) != 0 && Addr(s, i, k) == Addr(s, j, m) ==> i == j && k == m
  }

  ghost predicate OwnedBy(s: Fs, i: nat, k: nat, b: nat)
  {
    i < |s.mem| && k < NSLOTS && b != 0 && Addr(s, i, k) == b
  }

  ghost predicate Owned(s: Fs, b: nat)
  {
    exists i: nat, k: nat :: OwnedBy(s, i, k, b)
  }

  /** The free map is right about block `b`. */
  ghost predicate BitOk(l: Layout, s: Fs, b: nat)
    requires ValidLayout(l) && |s.disk| == l.size && b < l.size
  {
    Used(l, s.disk, b) <==> b < l.nmeta || Owned(s, b)
  }

  /** No block has two owners, and the free map marks exactly the blocks in front
      of the data and the owned ones. */
  ghost predicate Inv(l: Layout, s: Fs)
    ensures Inv(l, s) ==> Shape(l, s)
  {
    && Shape(l, s)
    && (forall i: nat, k: nat {:trigger InRange(l, s, i, k)} :: i < |s.mem| && k < NSLOTS ==> InRange(l, s, i, k))
    && (forall i: nat, k: nat, j: nat, m: nat {:trigger Apart(s, i, k, j, m)} ::
          i < |s.mem| && k < NSLOTS && j < |s.mem| && m < NSLOTS ==> Apart(s, i, k, j, m))
    && (forall b: nat {:trigger BitOk(l, s, b)} :: b < l.size ==> BitOk(l, s, b))
  }

  lemma SlotInv(l: Layout, s: Fs, i: nat, k: nat)
    requires Inv(l, s) && i < |s.mem| && k < NSLOTS
    ensures InRange(l, s, i, k) && Shape(l, s) && IsInode(s.mem[i])
  {
  }

  lemma SlotsInv(l: Layout, s: Fs, i: nat, k: nat, j: nat, m: nat)
    requires Inv(l, s) && i < |s.mem| && k < NSLOTS && j < |s.mem| && m < NSLOTS
    ensures Apart(s, i, k, j, m)
  {
  }

  /** An owned block is marked. */
  lemma OwnedIsUsed(l: Layout, s: Fs, i: nat, k: nat)
    requires Inv(l, s) && i < |s.mem| && k < NSLOTS && Addr(s, i, k) != 0
    ensures Addr(s, i, k) < l.size && Used(l, s.disk, Addr(s, i, k))
  {
    hide Addr, Used;
    var b := Addr(s, i, k);
    assert InRange(l, s, i, k);
    assert OwnedBy(s, i, k, b);
    assert BitOk(l, s, b);
  }

  // ---- The bytes of a file ----

  /** Byte `o` of file `i`; a block that is not there reads as zeros. */
  function ByteAt(s: Fs, i: nat, o: nat): (x: Byte)
    requires i < |s.mem| && o < MAXFILE * BSIZE
  {
    var a := Addr(s, i, SlotOf(o / BSIZE));
    if a == 0 || a >= |s.disk| then 0 else s.disk[a][o % BSIZE]
  }

  /** Every block below the size is there, and the size is possible. */
  ghost predicate Mapped(s: Fs, i: nat)
    requires i < |s.mem|
  {
    && s.mem[i].size <= MAXFILE * BSIZE
    && forall bn {:trigger SlotOf(bn)} ::
         0 <= bn < MAXFILE && bn * BSIZE < s.mem[i].size ==> Addr(s, i, SlotOf(bn)) != 0
  }

  function Contents(s: Fs, i: nat): (bytes: seq<Byte>)
    requires i < |s.mem| && s.mem[i].size <= MAXFILE * BSIZE
    ensures |bytes| == s.mem[i].size
  {
    seq(s.mem[i].size, o requires 0 <= o < s.mem[i].size => ByteAt(s, i, o))
  }
}
