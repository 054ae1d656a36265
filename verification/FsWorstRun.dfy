/**
 A run of the file system that ends with the transaction that logs the most: the
 disk of 16383 blocks that mkfs lays out for 32464 inodes and a log of 30 blocks
 is filled so that, after three small files have been truncated, the lowest free
 blocks lie under the four blocks of the free map.
 */
module FsWorstRun {
  import opened Blocks
  import opened Counting
  import opened FsState
  import opened FsSteps
  import opened FsSpace
  import opened FsLogged
  import opened FsWorst
  import opened FlatFiles
  import opened FsTrunc
  import opened FileSystem
  import opened Params

  const LAYOUT: Layout := Layout(16383, 32464, 32, 4091, 4095)

  /** The blocks from `n` on. */
  ghost function From(l: Layout, n: nat): (blocks: set<nat>)
    requires n <= l.size
    ensures |blocks| == l.size - n && forall b: nat :: b in blocks <==> n <= b < l.size
  {
    SizeOfRange(n, l.size);
    Below(l.size) - Below(n)
  }

  /** The first `i` inodes have files, which use the blocks in front of `n`. */
  ghost predicate Filled(l: Layout, s: Fs, i: nat, n: nat)
  {
    && Good(l, s) && n <= l.size && Free(l, s.disk) == From(l, n)
    && (forall j :: 0 <= j < |s.mem| ==> s.mem[j].kind == 0)
    && (forall j :: i <= j < |s.mem| ==> s.mem[j] == NO_INODE)
  }

  lemma EmptyFilled(l: Layout, s: Fs)
    requires Good(l, s) && forall j :: 0 <= j < |s.mem| ==> s.mem[j] == NO_INODE
    ensures Filled(l, s, 0, l.nmeta)
  {
    hide Good, Inv, Used;
    assert forall i: nat, k: nat :: i < |s.mem| && k < NSLOTS ==> Addr(s, i, k) == 0;
    hide Addr;
    forall b: nat | b < l.size
      ensures Used(l, s.disk, b) <==> b < l.nmeta
    {
      EmptyBit(l, s, b);
    }
    assert Free(l, s.disk) == From(l, l.nmeta);
  }

  lemma EmptyBit(l: Layout, s: Fs, b: nat)
    requires Inv(l, s) && b < l.size && forall i: nat, k: nat :: i < |s.mem| && k < NSLOTS ==> Addr(s, i, k) == 0
    ensures Used(l, s.disk, b) <==> b < l.nmeta
  {
    hide Used, Addr;
    assert BitOk(l, s, b);
  }

  // ---- One new file ----

  /** The number of blocks that a file of `k` blocks of data uses. */
  function Uses(k: nat): (n: nat)
  {
    if k > NDIRECT then k + 1 else k
  }

  lemma {:induction false} FileWants(i: nat, k: nat)
    requires k <= MAXFILE
    ensures forall m: nat {:trigger (i, m) in Wanted(i, 0, k * BSIZE)} :: m < NSLOTS ==>
      ((i, m) in Wanted(i, 0, k * BSIZE) <==> if m == INDIRECT then k > NDIRECT else m < Uses(k))
    ensures |Wanted(i, 0, k * BSIZE)| == Uses(k)
  {
    hide Wanted;
    if k == 0 {
      WantedNothing(i, 0);
    } else {
      FileWants(i, k - 1);
      WantedInBlock(i, (k - 1) * BSIZE, BSIZE);
      WantedThen(i, 0, (k - 1) * BSIZE, BSIZE);
      OneMore(i, k - 1, Wanted(i, 0, (k - 1) * BSIZE));
    }
  }

  lemma OneMore(i: nat, k: nat, before: set<(nat, nat)>)
    requires k < MAXFILE && |before| == Uses(k)
    requires (i, SlotOf(k)) !in before && ((i, INDIRECT) in before <==> k > NDIRECT)
    ensures |before + BlockWants(i, k)| == Uses(k + 1)
  {
    var p, q := (i, SlotOf(k)), (i, INDIRECT);
    assert |before + {p}| == |before| + 1;
    if k == NDIRECT {
      assert q !in before + {p};
      assert before + BlockWants(i, k) == (before + {p}) + {q};
    } else {
      assert before + BlockWants(i, k) == before + {p};
    }
  }

  lemma NewFile(l: Layout, s: Fs, i: nat, n: nat, k: nat)
    requires Filled(l, s, i, n) && i < |s.mem| && 0 < k <= MAXFILE && n + Uses(k) <= l.size
    ensures |Taken(s) + Wanted(i, 0, k * BSIZE)| == |Taken(s)| + Uses(k) <= Room(l)
  {
    hide Good, Inv, Wanted;
    FileWants(i, k);
    Conserved(l, s);
    assert forall m: nat :: m < NSLOTS ==> Addr(s, i, m) == 0;
    hide Addr, Taken;
    assert Wanted(i, 0, k * BSIZE) !! Taken(s) by {
      forall j: nat, m: nat | (j, m) in Wanted(i, 0, k * BSIZE)
        ensures (j, m) !in Taken(s)
      {
      }
    }
  }

  lemma NewFree(l: Layout, s: Fs, t: Fs, i: nat, n: nat, k: nat)
    requires Filled(l, s, i, n) && i < |s.mem| && 0 < k <= MAXFILE && n + Uses(k) <= l.size
    requires Allocates(l, s, t, Wanted(i, 0, k * BSIZE))
    ensures Free(l, t.disk) == From(l, n + Uses(k))
  {
    hide Good, Inv, Wanted, Addr, Taken, Free;
    NewFile(l, s, i, n, k);
    Conserved(l, s);
    Conserved(l, t);
    FirstFitUnique(From(l, n), Free(l, t.disk), From(l, n + Uses(k)));
  }

  /** A file with one block, block `b`. */
  predicate OneBlock(ip: Inode, b: nat)
  {
    ip.addrs == NO_ADDRS[0 := b]
  }

  lemma NewSlots(l: Layout, s: Fs, t: Fs, i: nat, n: nat, k: nat)
    requires Filled(l, s, i, n) && i < |s.mem| && 0 < k <= NDIRECT && Allocates(l, s, t, Wanted(i, 0, k * BSIZE))
    ensures |t.mem[i].addrs| == NDIRECT + 1
    ensures forall m :: 0 <= m <= INDIRECT ==> (t.mem[i].addrs[m] != 0 <==> m < k)
  {
    hide Good, Inv, Wanted, Taken, FirstFit, Free, From, Used, Word;
    FileWants(i, k);
    SlotInv(l, t, i, 0);
    forall m: nat | m <= INDIRECT
      ensures t.mem[i].addrs[m] != 0 <==> m < k
    {
      assert Addr(s, i, m) == 0 && Addr(t, i, m) == t.mem[i].addrs[m];
      assert (i, m) in Taken(t) <==> (i, m) in Wanted(i, 0, k * BSIZE);
    }
  }

  lemma NewOneBlock(l: Layout, s: Fs, t: Fs, i: nat, n: nat)
    requires Filled(l, s, i, n) && i < |s.mem| && n + Uses(1) <= l.size && Allocates(l, s, t, Wanted(i, 0, BSIZE))
    ensures OneBlock(t.mem[i], n)
  {
    hide Good, Inv, Wanted, Taken, FirstFit, Free, From, Used, Word;
    NewSlots(l, s, t, i, n, 1);
    NewFirst(l, s, t, i, n);
    assert t.mem[i].addrs[0] == Addr(t, i, 0);
    hide Filled, Allocates, Addr;
    assert t.mem[i].addrs == NO_ADDRS[0 := n];
  }

  lemma NewFirst(l: Layout, s: Fs, t: Fs, i: nat, n: nat)
    requires Filled(l, s, i, n) && i < |s.mem| && n < l.size && Allocates(l, s, t, Wanted(i, 0, BSIZE))
    requires i < |t.mem| && |t.mem[i].addrs| == NDIRECT + 1 && t.mem[i].addrs[0] != 0
    ensures Addr(t, i, 0) == n
  {
    assert Addr(s, i, 0) == 0 && Addr(t, i, 0) != 0;
    hide Good, Inv, Wanted, Taken, FirstFit, Free, From, Used, Addr, Allocates;
    NewFree(l, s, t, i, n, 1);
    NewWasFree(l, s, t, Wanted(i, 0, BSIZE), i, 0);
  }

  lemma FilledNext(l: Layout, s: Fs, t: Fs, i: nat, n: nat, k: nat)
    requires Filled(l, s, i, n) && i < |s.mem| && 0 < k <= MAXFILE && n + Uses(k) <= l.size
    requires Good(l, t) && SameButSize(s, t, i, k * BSIZE) && Allocates(l, s, t, Wanted(i, 0, k * BSIZE))
    ensures Filled(l, t, i + 1, n + Uses(k)) && t.mem[i].size == k * BSIZE
    ensures forall j :: 0 <= j < |s.mem| && j != i ==> t.mem[j] == s.mem[j]
  {
    hide Good, Inv, Wanted, Allocates, Free, From, Uses;
    NewFree(l, s, t, i, n, k);
  }

  /** A new file of `k` blocks. */
  method Put(v: Volume, i: nat, ghost n: nat, k: nat)
    requires Filled(v.l, v.State(), i, n) && i < |v.mem| && 0 < k <= MAXFILE && n + Uses(k) <= v.l.size
    modifies v
    ensures Filled(v.l, v.State(), i + 1, n + Uses(k)) && |v.mem| == |old(v.mem)|
    ensures forall j :: 0 <= j < |v.mem| && j != i ==> v.mem[j] == old(v.mem[j])
    ensures v.mem[i].size == k * BSIZE
    ensures k <= NDIRECT ==> |v.mem[i].addrs| == NDIRECT + 1 && v.mem[i].addrs[INDIRECT] == 0
    ensures k == 1 ==> OneBlock(v.mem[i], n)
  {
    hide Good, Inv, Wanted, Addr, Taken, Free, Allocates, Wrote, From, Files, Overwritten, LogsTo, BlocksOf, Uses;
    hide OneBlock;
    ghost var s := v.State();
    NewFile(v.l, s, i, n, k);
    var r := v.Writei(i, 0, seq(k * BSIZE, _ => 0));
    assert r.Done?;
    ghost var t := v.State();
    FilledNext(v.l, s, t, i, n, k);
    if k <= NDIRECT {
      NewSlots(v.l, s, t, i, n, k);
    }
    if k == 1 {
      NewOneBlock(v.l, s, t, i, n);
    }
  }

  /** `count` new files of the largest size. */
  method PutLargest(v: Volume, i: nat, ghost n: nat, count: nat)
    requires Filled(v.l, v.State(), i, n) && i + count < |v.mem| && n + 141 * count <= v.l.size
    modifies v
    ensures Filled(v.l, v.State(), i + count, n + 141 * count) && |v.mem| == |old(v.mem)|
    ensures forall j :: 0 <= j < |v.mem| && !(i <= j < i + count) ==> v.mem[j] == old(v.mem[j])
  {
    hide Filled;
    var c := 0;
    while c < count
      invariant c <= count && |v.mem| == |old(v.mem)| && Filled(v.l, v.State(), i + c, n + 141 * c)
      invariant forall j :: 0 <= j < |v.mem| && !(i <= j < i + c) ==> v.mem[j] == old(v.mem[j])
    {
      Put(v, i + c, n + 141 * c, MAXFILE);
      c := c + 1;
    }
  }

  // ---- Truncating a file of one block ----

  lemma OwnsOne(s: Fs, i: nat, b: nat, k: nat, x: nat)
    requires i < |s.mem| && OneBlock(s.mem[i], b) && b != 0
    ensures OwnedBy(s, i, k, x) <==> k == 0 && x == b
  {
    hide Word;
  }

  /** Truncating it gives its block back. */
  method Drop(v: Volume, i: nat, ghost b: nat)
    requires v.Valid() && i < |v.mem| && OneBlock(v.mem[i], b) && 0 < b < v.l.size
    modifies v
    ensures v.Valid() && |v.mem| == |old(v.mem)| && |v.disk| == |old(v.disk)| == v.l.size
    ensures Free(v.l, v.disk) == Free(v.l, old(v.disk)) + {b}
    ensures forall j :: 0 <= j < |v.mem| && j != i ==> v.mem[j] == old(v.mem[j])
  {
    hide Good, Inv, Used, Addr, Free;
    ghost var s := v.State();
    DropUsed(v.l, s, i, b);
    var r := v.Itrunc(i);
    forall k: nat, x: nat
      ensures OwnedBy(s, i, k, x) <==> k == 0 && x == b
    {
      OwnsOne(s, i, b, k, x);
    }
    forall x: nat | x < v.l.size
      ensures Used(v.l, v.disk, x) <==> Used(v.l, s.disk, x) && x != b
    {
      assert OwnedBy(s, i, 0, x) <==> x == b;
    }
  }

  lemma DropUsed(l: Layout, s: Fs, i: nat, b: nat)
    requires Inv(l, s) && i < |s.mem| && OneBlock(s.mem[i], b) && 0 < b < l.size
    ensures Used(l, s.disk, b)
  {
    hide Used;
    OwnedIsUsed(l, s, i, 0);
  }

  // ---- The run ----

  lemma SpreadHere(l: Layout, disk: seq<Block>)
    requires l == LAYOUT && |disk| == l.size && Free(l, disk) == From(l, 12288) + {4095, 4096, 8192}
    ensures FourSpread(l, disk, {4095, 4096, 8192, 12288})
  {
    hide Free, From;
    var f: set<nat> := {4095, 4096, 8192, 12288};
    assert |f| == 4;
    assert BBlock(l, 4095) == 4091 && BBlock(l, 4096) == 4092;
    assert BBlock(l, 8192) == 4093 && BBlock(l, 12288) == 4094;
    hide BBlock;
    assert f <= Free(l, disk);
  }

  lemma CrossingHere(s: Fs, i: nat)
    requires i < |s.mem| && |s.mem[i].addrs| == NDIRECT + 1 && s.mem[i].addrs[INDIRECT] == 0
    requires s.mem[i].size == 12 * BSIZE
    ensures CrossingChunk(s, i, 11 * BSIZE + 1, 3 * BSIZE)
  {
    hide Word;
  }

  /** Three files of one block, in blocks 4095, 4096 and 8192, and a file that has
      all its direct blocks. */
  ghost predicate Prepared(v: Volume)
    reads v
  {
    && v.l == LAYOUT && Filled(v.l, v.State(), 63, 12288) && |v.mem| == v.l.ninodes
    && OneBlock(v.mem[0], 4095) && OneBlock(v.mem[1], 4096) && OneBlock(v.mem[32], 8192)
    && v.mem[62].size == 12 * BSIZE && |v.mem[62].addrs| == NDIRECT + 1 && v.mem[62].addrs[INDIRECT] == 0
  }

  /** The first two of these files, and large ones behind them. */
  method PrepareFirst() returns (v: Volume)
    ensures fresh(v) && v.l == LAYOUT && Filled(v.l, v.State(), 31, 8186) && |v.mem| == v.l.ninodes
    ensures OneBlock(v.mem[0], 4095) && OneBlock(v.mem[1], 4096)
  {
    hide Good, Filled, OneBlock;
    v := new Volume(LAYOUT);
    EmptyFilled(v.l, v.State());
    Put(v, 0, 4095, 1);
    Put(v, 1, 4096, 1);
    PutLargest(v, 2, 4097, 29);
  }

  method Prepare() returns (v: Volume)
    ensures fresh(v) && Prepared(v)
  {
    hide Good, Filled, OneBlock;
    v := PrepareFirst();
    Put(v, 31, 8186, 6);
    Put(v, 32, 8192, 1);
    PutLargest(v, 33, 8193, 28);
    Put(v, 61, 12141, 134);
    Put(v, 62, 12276, 12);
  }

  /** Fill the disk, truncate three files, and write one unaligned chunk. */
  method MostLogged() returns (v: Volume, r: Io)
    ensures v.l == LAYOUT && r == Done(CHUNK) && |v.logged| == MAXOPBLOCKS
  {
    hide Good, Inv, Used, Addr, Free, Filled, From, FourSpread, CrossingChunk, Wrote, Allocates, OneBlock;
    hide Files, Overwritten, Taken, Wanted;
    v := Prepare();
    FilledFacts(v.l, v.State(), 63, 12288);
    Drop(v, 0, 4095);
    Drop(v, 1, 4096);
    Drop(v, 32, 8192);
    assert Free(v.l, v.disk) == From(v.l, 12288) + {4095, 4096, 8192};
    SpreadHere(v.l, v.disk);
    CrossingHere(v.State(), 62);
    r := v.WriteOp(62, 11 * BSIZE + 1, seq(CHUNK, _ => 0));
  }

  lemma FilledFacts(l: Layout, s: Fs, i: nat, n: nat)
    requires Filled(l, s, i, n)
    ensures Good(l, s) && n <= l.size && Free(l, s.disk) == From(l, n)
    ensures forall j :: 0 <= j < |s.mem| ==> s.mem[j].kind == 0
  {
    hide Good, Free;
  }
}
