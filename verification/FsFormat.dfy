/**
 The inodes and the free map as bytes on the disk.
 */
module FsFormat {
  import opened Bits
  import opened Blocks
  import opened FsState
  import opened FsSteps

  const T_DEV: nat := 3

  /** `ip->type`, in the lower half of the first word. */
  function Kind(ip: Inode): (k: nat)
  {
    ip.kind % 0x1_0000
  }

  /** `ip->nlink`, in the upper half of the second word. */
  function Links(ip: Inode): (n: nat)
  {
    ip.links / 0x1_0000
  }

  // ---- Words as bytes ----

  /** Byte `m` of a word, the lowest one first. */
  function ByteOf(w: nat, m: nat): (x: nat)
  {
    if m == 0 then w % 256 else ByteOf(w / 256, m - 1)
  }

  lemma WordBytes(b: Block, j: nat, m: nat)
    requires j < WORDS_PER_BLOCK && m < 4
    ensures b[4 * j + m] == ByteOf(Word(b, j), m)
  {
    FourBytes(b[4 * j], b[4 * j + 1], b[4 * j + 2], b[4 * j + 3]);
  }

  lemma FourBytes(a: Byte, b: Byte, c: Byte, d: Byte)
    ensures var w := a + 256 * b + 65536 * c + 16777216 * d;
            ByteOf(w, 0) == a && ByteOf(w, 1) == b && ByteOf(w, 2) == c && ByteOf(w, 3) == d
  {
    var w := a + 256 * b + 65536 * c + 16777216 * d;
    assert w / 256 == b + 256 * c + 65536 * d && w / 256 / 256 == c + 256 * d && w / 256 / 256 / 256 == d;
    Unfolds(w);
  }

  lemma Unfolds(w: nat)
    ensures ByteOf(w, 0) == w % 256 && ByteOf(w, 1) == w / 256 % 256
    ensures ByteOf(w, 2) == w / 256 / 256 % 256 && ByteOf(w, 3) == w / 256 / 256 / 256 % 256
  {
    assert ByteOf(w, 3) == ByteOf(w / 256, 2) && ByteOf(w / 256, 2) == ByteOf(w / 256 / 256, 1);
    assert ByteOf(w, 2) == ByteOf(w / 256, 1);
  }

  lemma FourMake(w: nat)
    requires w < WORD_LIMIT
    ensures w == ByteOf(w, 0) + 256 * ByteOf(w, 1) + 65536 * ByteOf(w, 2) + 16777216 * ByteOf(w, 3)
    ensures w % 65536 == ByteOf(w, 0) + 256 * ByteOf(w, 1) && w / 65536 == ByteOf(w, 2) + 256 * ByteOf(w, 3)
  {
    Unfolds(w);
    assert w / 65536 == w / 256 / 256 && w / 65536 / 256 < 256;
  }

  // ---- Inodes ----

  /** Byte `n` of the 64 bytes of inode `i` on the disk. */
  function InodeByte(l: Layout, disk: seq<Block>, i: nat, n: nat): (x: int)
    requires ValidLayout(l) && |disk| == l.size && i < l.ninodes && n < 64
  {
    disk[l.inodestart + i / 8][64 * (i % 8) + n]
  }

  lemma InodeByteIs(l: Layout, s: Fs, i: nat, n: nat)
    requires Shape(l, s) && i < l.ninodes && Synced(l, s, i) && n < 64 && IsInode(s.mem[i])
    ensures InodeByte(l, s.disk, i, n) == ByteOf(InodeWords(s.mem[i])[n / 4], n % 4)
  {
    hide Word, InodeWords, ByteOf;
    BlocksInRange(l, i, 0);
    var b, j := s.disk[IBlock(l, i)], INODE_WORDS * (i % IPB) + n / 4;
    assert Word(b, j) == InodeWords(s.mem[i])[n / 4];
    WordBytes(b, j, n % 4);
    assert 4 * j + n % 4 == 64 * (i % 8) + n;
  }

  /** The fields of an inode, from its bytes: type, link count, size and addresses. */
  lemma InodeOnDisk(l: Layout, s: Fs, i: nat)
    requires Good(l, s) && i < |s.mem|
    ensures Kind(s.mem[i]) == InodeByte(l, s.disk, i, 0) + 256 * InodeByte(l, s.disk, i, 1)
    ensures Links(s.mem[i]) == InodeByte(l, s.disk, i, 6) + 256 * InodeByte(l, s.disk, i, 7)
    ensures s.mem[i].size == LongAt(l, s.disk, i, 8)
    ensures |s.mem[i].addrs| == NDIRECT + 1
    ensures forall k :: 0 <= k <= NDIRECT ==> s.mem[i].addrs[k] == LongAt(l, s.disk, i, 12 + 4 * k)
  {
    hide Inv, Synced, Mapped, InodeByte, ByteOf;
    GoodFile(l, s, i);
    assert IsInode(s.mem[i]);
    var ip := s.mem[i];
    var ws := InodeWords(ip);
    forall j: nat | j < INODE_WORDS
      ensures ws[j] == LongAt(l, s.disk, i, 4 * j)
      ensures ws[j] % 65536 == InodeByte(l, s.disk, i, 4 * j) + 256 * InodeByte(l, s.disk, i, 4 * j + 1)
      ensures ws[j] / 65536 == InodeByte(l, s.disk, i, 4 * j + 2) + 256 * InodeByte(l, s.disk, i, 4 * j + 3)
    {
      WordOnDisk(l, s, i, j);
    }
    assert ws[0] == ip.kind && ws[1] == ip.links && ws[2] == ip.size;
    assert ws[0] % 65536 == InodeByte(l, s.disk, i, 4 * 0) + 256 * InodeByte(l, s.disk, i, 4 * 0 + 1);
    assert ws[1] / 65536 == InodeByte(l, s.disk, i, 4 * 1 + 2) + 256 * InodeByte(l, s.disk, i, 4 * 1 + 3);
    assert ws[2] == LongAt(l, s.disk, i, 4 * 2);
    forall k | 0 <= k <= NDIRECT
      ensures ip.addrs[k] == LongAt(l, s.disk, i, 12 + 4 * k)
    {
      assert ws[3 + k] == ip.addrs[k] && 4 * (3 + k) == 12 + 4 * k;
    }
  }

  /** The four bytes from byte `n` of the inode on, as a number. */
  function LongAt(l: Layout, disk: seq<Block>, i: nat, n: nat): (w: int)
    requires ValidLayout(l) && |disk| == l.size && i < l.ninodes && n + 4 <= 64
  {
    InodeByte(l, disk, i, n) + 256 * InodeByte(l, disk, i, n + 1) +
    65536 * InodeByte(l, disk, i, n + 2) + 16777216 * InodeByte(l, disk, i, n + 3)
  }

  lemma WordOnDisk(l: Layout, s: Fs, i: nat, j: nat)
    requires Shape(l, s) && i < l.ninodes && Synced(l, s, i) && j < INODE_WORDS && IsInode(s.mem[i])
    ensures var w := InodeWords(s.mem[i])[j];
            && w == LongAt(l, s.disk, i, 4 * j)
            && w % 65536 == InodeByte(l, s.disk, i, 4 * j) + 256 * InodeByte(l, s.disk, i, 4 * j + 1)
            && w / 65536 == InodeByte(l, s.disk, i, 4 * j + 2) + 256 * InodeByte(l, s.disk, i, 4 * j + 3)
  {
    hide InodeByte, ByteOf, Synced, InodeWords;
    InodeByteIs(l, s, i, 4 * j);
    InodeByteIs(l, s, i, 4 * j + 1);
    InodeByteIs(l, s, i, 4 * j + 2);
    InodeByteIs(l, s, i, 4 * j + 3);
    FourMake(InodeWords(s.mem[i])[j]);
  }

  /** The inode on the disk is that of a device. */
  predicate IsDevice(l: Layout, disk: seq<Block>, i: nat)
    requires ValidLayout(l) && |disk| == l.size && i < l.ninodes
  {
    InodeByte(l, disk, i, 0) == 3 && InodeByte(l, disk, i, 1) == 0
  }

  /** No directory entry names the inode on the disk. */
  predicate Unlinked(l: Layout, disk: seq<Block>, i: nat)
    requires ValidLayout(l) && |disk| == l.size && i < l.ninodes
  {
    InodeByte(l, disk, i, 6) == 0 && InodeByte(l, disk, i, 7) == 0
  }

  lemma DeviceIff(l: Layout, s: Fs, i: nat)
    requires Good(l, s) && i < |s.mem|
    ensures Kind(s.mem[i]) == T_DEV <==> IsDevice(l, s.disk, i)
    ensures Links(s.mem[i]) == 0 <==> Unlinked(l, s.disk, i)
  {
    hide Good, LongAt, Kind, Links;
    InodeOnDisk(l, s, i);
  }

  /** The inode has lost its size and its addresses, and with `freed` its type;
      device numbers and link count are as before. */
  ghost predicate Wiped(l: Layout, d: seq<Block>, e: seq<Block>, i: nat, freed: bool)
    requires ValidLayout(l) && |d| == |e| == l.size && i < l.ninodes
  {
    forall n: nat {:trigger InodeByte(l, e, i, n)} :: n < 64 ==>
      InodeByte(l, e, i, n) == if (freed && n < 2) || n >= 8 then 0 else InodeByte(l, d, i, n)
  }

  lemma WipedIs(l: Layout, s: Fs, t: Fs, i: nat, freed: bool)
    requires Good(l, s) && Good(l, t) && i < |s.mem| == |t.mem|
    requires t.mem[i].kind == s.mem[i].kind - if freed then s.mem[i].kind % 65536 else 0
    requires t.mem[i].links == s.mem[i].links && t.mem[i].size == 0
    requires forall k :: 0 <= k < |t.mem[i].addrs| ==> t.mem[i].addrs[k] == 0
    ensures Wiped(l, s.disk, t.disk, i, freed)
  {
    hide Inv, Synced, Mapped, InodeByte;
    GoodFile(l, s, i);
    GoodFile(l, t, i);
    assert IsInode(s.mem[i]) && IsInode(t.mem[i]);
    forall n: nat | n < 64
      ensures InodeByte(l, t.disk, i, n) == if (freed && n < 2) || n >= 8 then 0 else InodeByte(l, s.disk, i, n)
    {
      InodeByteIs(l, s, i, n);
      InodeByteIs(l, t, i, n);
      Unfolds(s.mem[i].kind);
      Unfolds(t.mem[i].kind);
      Unfolds(0);
      if n < 4 {
        HighBytes(s.mem[i].kind, n);
      } else if n >= 8 {
        assert InodeWords(t.mem[i])[n / 4] == 0;
      }
    }
  }

  lemma HighBytes(w: nat, n: nat)
    requires n < 4
    ensures ByteOf(w - w % 65536, n) == if n < 2 then 0 else ByteOf(w, n)
  {
    Unfolds(w);
    Unfolds(w - w % 65536);
    var q := w / 65536;
    assert w - w % 65536 == 65536 * q && 65536 * q / 256 == 256 * q && 256 * q / 256 == q && w / 256 / 256 == q;
  }

  // ---- Files ----

  /** Block `b` is file block `bn`: the first twelve are named in the inode, the
      others in the block that its last address names. */
  ghost predicate BlockOf(s: Fs, i: nat, bn: nat, b: nat)
  {
    && i < |s.mem| && |s.mem[i].addrs| == 13 && bn < 140
    && if bn < 12 then b == s.mem[i].addrs[bn]
       else 0 < s.mem[i].addrs[12] < |s.disk| && b == Word(s.disk[s.mem[i].addrs[12]], bn - 12)
  }

  lemma BlockIs(l: Layout, s: Fs, i: nat, bn: nat)
    requires Inv(l, s) && i < |s.mem| && bn < MAXFILE && Addr(s, i, SlotOf(bn)) != 0
    ensures BlockOf(s, i, bn, Addr(s, i, SlotOf(bn)))
  {
    hide Inv, Word;
    SlotInv(l, s, i, SlotOf(bn));
  }

  /** Byte `o` of a file is byte `o % 512` of file block `o / 512`. */
  lemma FileOnDisk(l: Layout, s: Fs, i: nat, o: nat)
    requires Good(l, s) && i < |s.mem| && o < s.mem[i].size
    ensures s.mem[i].size <= MAXFILE * BSIZE && o < |Contents(s, i)|
    ensures exists b: nat :: BlockOf(s, i, o / 512, b) && b < |s.disk| && Contents(s, i)[o] == s.disk[b][o % 512]
  {
    hide Inv, Synced, Addr;
    GoodFile(l, s, i);
    var bn := o / BSIZE;
    assert Addr(s, i, SlotOf(bn)) != 0;
    SlotInv(l, s, i, SlotOf(bn));
    BlockIs(l, s, i, bn);
  }

  // ---- The free map ----

  /** Bit `b % 8` of byte `b / 8` of the free map. */
  lemma UsedOnDisk(l: Layout, disk: seq<Block>, b: nat)
    requires ValidLayout(l) && |disk| == l.size && b < l.size
    ensures l.bmapstart + b / 4096 < l.size
    ensures Used(l, disk, b) <==> disk[l.bmapstart + b / 4096][b % 4096 / 8] / Pow2(b % 8) % 2 == 1
  {
    BlocksInRange(l, 0, b);
    assert b % 4096 % 8 == b % 8;
    BitIsShift(disk[BBlock(l, b)][b % 4096 / 8], b % 8);
  }

  lemma {:induction false} BitIsShift(x: nat, k: nat)
    ensures BitOf(x, k) <==> x / Pow2(k) % 2 == 1
  {
    if k > 0 {
      BitIsShift(x / 2, k - 1);
      DivTwice(x, Pow2(k - 1));
    }
  }

  lemma DivTwice(x: nat, p: nat)
    requires p > 0
    ensures x / 2 / p == x / (2 * p)
  {
    var q, r := x / 2 / p, x / 2 % p;
    assert x / 2 == q * p + r;
    assert x == 2 * (x / 2) + x % 2;
    assert x == q * (2 * p) + (2 * r + x % 2);
    assert 2 * r + x % 2 < 2 * p;
    MulMod(q, 2 * r + x % 2, 2 * p);
  }
}
