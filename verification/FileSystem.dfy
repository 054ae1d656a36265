/**
 The file system's operations. A panic is the result `Panic`; nothing is claimed
 about what it leaves, since the operation never commits.
 */
module FileSystem {
  import opened Bits
  import opened Blocks
  import opened Counting
  import opened BlockFields
  import opened FsState
  import opened FsChanges
  import opened FsSteps
  import opened FsLogged
  import opened FsSpace
  import opened FsWorst
  import opened FsTrunc
  import opened FsFormat
  import opened FlatFiles
  import opened Params

  datatype Result = Ok(value: nat) | Panic

  /** The result of reading or writing: a number of bytes, -1, or what the driver
      of a device says. */
  datatype Io = Done(n: nat) | Refused | Device | Panicked

  /** The bytes that `filewrite` writes in one transaction. */
  const CHUNK: nat := (MAXOPBLOCKS - 1 - 1 - 2) / 2 * 512

  ghost function Devices(s: Fs): (d: set<nat>)
  {
    set i: nat | i < |s.mem| && Kind(s.mem[i]) == T_DEV
  }

  /** `off + n < off` in 32-bit arithmetic. */
  predicate Wraps(off: nat, n: nat)
  {
    (off + n) % WORD_LIMIT < off
  }

  function Min(a: nat, b: nat): (m: nat)
  {
    if a < b then a else b
  }

  class Volume {
    const l: Layout
    var disk: seq<Block>
    var mem: seq<Inode>
    /** The blocks that have gone through `log_write` in this operation. */
    var logged: set<nat>

    ghost function State(): (s: Fs)
      reads this
    {
      Fs(disk, mem)
    }

    ghost predicate Valid()
      reads this
    {
      Good(l, State())
    }

    /** An empty file system: only the blocks in front of the data are in use. */
    constructor (l: Layout)
      requires ValidLayout(l)
      ensures Valid() && this.l == l && logged == {}
      ensures |mem| == l.ninodes && forall i :: 0 <= i < |mem| ==> mem[i] == NO_INODE
    {
      this.l := l;
      disk := seq(l.size, _ => Zeros());
      mem := seq(l.ninodes, _ => NO_INODE);
      logged := {};
      new;
      hide Good, SetUsed, Used;
      assert forall x :: 0 <= x < l.size ==> disk[x] == Zeros();
      NoneUsed(l, disk);
      var b := 0;
      while b < l.nmeta
        invariant b <= l.nmeta && |disk| == l.size && logged == {} && mem == seq(l.ninodes, _ => NO_INODE)
        invariant forall x :: 0 <= x < l.bmapstart ==> disk[x] == Zeros()
        invariant forall x: nat :: x < l.size ==> (Used(l, disk, x) <==> x < b)
      {
        BlocksInRange(l, 0, b);
        forall x: nat | x < l.size
          ensures Used(l, SetUsed(l, disk, b, true), x) <==> x < b + 1
        {
          SetUsedFrame(l, disk, b, true, x);
        }
        disk := SetUsed(l, disk, b, true);
        b := b + 1;
      }
      EmptyGood(l, State());
    }

    method LogWrite(b: nat, block: Block)
      requires b < |disk|
      modifies this`disk, this`logged
      ensures disk == old(disk)[b := block] && logged == old(logged) + {b}
    {
      disk := disk[b := block];
      logged := logged + {b};
    }

    /** Take the first free block. */
    method Balloc() returns (r: Result)
      requires Inv(l, State())
      modifies this`disk, this`logged
      ensures r.Ok? ==> Lowest(l, old(disk), r.value)
      ensures r.Ok? ==> disk == SetUsed(l, old(disk), r.value, true)[r.value := Zeros()]
      ensures r.Ok? ==> logged == old(logged) + {BBlock(l, r.value), r.value}
      ensures r.Ok? ==> LogStep(l, old(disk), old(logged), disk, logged)
      ensures r.Panic? ==> forall x: nat :: x < l.size ==> Used(l, old(disk), x)
    {
      assert LogStep(l, disk, logged, disk, logged);
      hide Inv, LogStep;
      var b := 0;
      while b < l.size
        invariant b % BPB == 0 && disk == old(disk) && logged == old(logged)
        invariant forall x: nat :: x < b && x < l.size ==> Used(l, disk, x)
        decreases l.size - b
      {
        BlocksInRange(l, 0, b);
        var block := disk[BBlock(l, b)];
        var bi := 0;
        while bi < BPB && b + bi < l.size
          invariant bi <= BPB && b + bi <= l.size && disk == old(disk) && logged == old(logged)
          invariant forall x: nat :: x < b + bi ==> Used(l, disk, x)
        {
          BitPlace(l, b, bi);
          if !Bit(block, bi) {
            FreeIsData(l, State(), b + bi);
            LogStepOne(l, disk, logged, disk, logged, BBlock(l, b), SetBit(block, bi, true));
            LogWrite(BBlock(l, b), SetBit(block, bi, true));
            LogStepOne(l, old(disk), old(logged), disk, logged, b + bi, Zeros());
            LogWrite(b + bi, Zeros());
            return Ok(b + bi);
          }
          bi := bi + 1;
        }
        b := b + BPB;
      }
      r := Panic;
    }

    /** Take a block for an empty slot of inode `i`: what `bmap` does with the
        result of `balloc`. */
    method Grow(i: nat, k: nat) returns (r: Result)
      requires Inv(l, State()) && i < |mem| && k < NSLOTS && Addr(State(), i, k) == 0
      requires k > INDIRECT ==> Addr(State(), i, INDIRECT) != 0
      modifies this`disk, this`mem, this`logged
      ensures r.Ok? ==> CanGrow(l, old(State()), i, k, r.value) && State() == Grown(l, old(State()), i, k, r.value)
      ensures r.Ok? ==> Allocates(l, old(State()), State(), {(i, k)})
      ensures r.Ok? ==> LogStep(l, old(disk), old(logged), disk, logged)
      ensures r.Panic? ==> |Taken(old(State()))| == Room(l)
      ensures r.Ok? ==>
        logged == old(logged) + {BBlock(l, r.value), r.value} +
                  if k > INDIRECT then {Addr(old(State()), i, INDIRECT)} else {}
    {
      hide Inv, Used, SetUsed, Allocates, Taken, LogStep;
      SlotInv(l, State(), i, INDIRECT);
      FullIff(l, State());
      r := Balloc();
      if r.Ok? {
        GrownAllocates(l, old(State()), i, k, r.value);
        if k <= INDIRECT {
          mem := mem[i := mem[i].(addrs := mem[i].addrs[k := r.value])];
        } else {
          var p := mem[i].addrs[INDIRECT];
          LogStepOne(l, old(disk), old(logged), disk, logged, p, SetWord(disk[p], k - INDIRECT - 1, r.value));
          LogWrite(p, SetWord(disk[p], k - INDIRECT - 1, r.value));
        }
      }
    }

    /** The block in slot `k`, allocated if the slot is empty: what `bmap` does
        with a direct address, with the address of the indirect block and with an
        entry of the indirect block. */
    method Fill(i: nat, k: nat, ghost bn: nat) returns (r: Result)
      requires Inv(l, State()) && i < |mem| && k < NSLOTS && (k > INDIRECT ==> Addr(State(), i, INDIRECT) != 0)
      requires bn < MAXFILE && (k == SlotOf(bn) || (k == INDIRECT && bn >= NDIRECT))
      modifies this`disk, this`mem, this`logged
      ensures r.Ok? ==> Grew(l, old(State()), State(), i, bn, {(i, k)})
      ensures r.Ok? ==> r.value == Addr(State(), i, k) != 0 && (k > INDIRECT ==> mem == old(mem))
      ensures r.Ok? ==> |mem| == |old(mem)|
      ensures r.Ok? ==> forall m: nat :: m < NSLOTS && m != k ==> Addr(State(), i, m) == Addr(old(State()), i, m)
      ensures r.Ok? ==> logged == old(logged) + FillLogs(l, old(State()), State(), i, k)
      ensures r.Ok? ==> LogStep(l, old(disk), old(logged), disk, logged)
      ensures r.Panic? ==> |Taken(old(State()))| == Room(l) && (i, k) !in Taken(old(State()))
      ensures Addr(old(State()), i, k) != 0 ==> r.Ok? && State() == old(State())
    {
      assert LogStep(l, disk, logged, disk, logged);
      hide LogStep;
      hide Inv, Used, Grown, Allocates, Taken, Grew, BBlock;
      ghost var t := State();
      SlotInv(l, t, i, INDIRECT);
      GrewNothing(l, t, i, bn);
      var addr := if k <= INDIRECT then mem[i].addrs[k] else Word(disk[mem[i].addrs[INDIRECT]], k - INDIRECT - 1);
      assert addr == Addr(t, i, k);
      hide Addr, FillLogs;
      if addr == 0 {
        r := Grow(i, k);
        if r.Ok? {
          GrewOnce(l, t, i, k, r.value, bn);
          forall m: nat | m < NSLOTS && m != k
            ensures Addr(State(), i, m) == Addr(t, i, m)
          {
            GrownAddr(l, t, i, k, r.value, i, m);
          }
          GrownLogs(l, t, State(), i, k, old(logged));
        }
        return;
      }
      GrewMore(l, t, t, i, bn, {}, {(i, k)});
      GrownLogs(l, t, t, i, k, logged);
      r := Ok(addr);
    }

    /** `bmap`: the block of file block `bn`, allocated if it is not there. */
    method Bmap(i: nat, bn: nat) returns (r: Result)
      requires Inv(l, State()) && i < |mem| && bn < MAXFILE
      modifies this`disk, this`mem, this`logged
      ensures r.Ok? ==> Extends(l, old(State()), State(), i) && Wrote(old(State()), State(), i, 0, [])
      ensures r.Ok? ==> r.value == Addr(State(), i, SlotOf(bn)) != 0
      ensures r.Ok? ==> BlockOf(State(), i, bn, r.value)
      ensures r.Ok? ==> Only(old(State()), State(), i, bn)
      ensures r.Ok? ==> Allocates(l, old(State()), State(), BlockWants(i, bn))
      ensures r.Panic? ==> |Taken(old(State())) + BlockWants(i, bn)| > Room(l)
      ensures r.Ok? ==> logged == old(logged) + MapLogs(l, old(State()), State(), i, bn)
      ensures r.Ok? ==> LogStep(l, old(disk), old(logged), disk, logged)
      ensures Addr(old(State()), i, SlotOf(bn)) != 0 ==> r.Ok? && State() == old(State())
    {
      hide LogStep, FillLogs;
      hide Inv, Wrote, Extends, Only, Allocates, Taken, Grew, MapLogs, BBlock;
      ghost var s := State();
      ghost var k, all := SlotOf(bn), BlockWants(i, bn);
      NeedsIndirect(l, s, i, bn);
      hide Addr;
      AllocatesNothing(l, s);
      if bn < NDIRECT {
        assert all == {(i, k)};
        r := Fill(i, bn, bn);
        if r.Ok? {
          GrewFacts(l, s, State(), i, bn, all);
          BlockIs(l, State(), i, bn);
          DirectLogs(l, s, State(), i, bn);
        } else {
          NoRoom(l, s, s, {}, (i, k), all);
        }
        return;
      }
      r := Fill(i, INDIRECT, bn);
      if r.Panic? {
        NoRoom(l, s, s, {}, (i, INDIRECT), all);
        return;
      }
      ghost var t, mid := State(), logged;
      GrewFacts(l, s, t, i, bn, {(i, INDIRECT)});
      r := Fill(i, bn + 1, bn);
      if r.Panic? {
        NoRoom(l, s, t, {(i, INDIRECT)}, (i, k), all);
        return;
      }
      assert {(i, INDIRECT)} + {(i, k)} == all;
      GrewTwice(l, s, t, State(), i, bn, {(i, INDIRECT)}, {(i, k)});
      GrewFacts(l, s, State(), i, bn, all);
      BlockIs(l, State(), i, bn);
      IndirectLogs(l, s, t, State(), i, bn, old(logged));
      LogStepThen(l, s.disk, old(logged), t.disk, mid, disk, logged);
    }

    /** The loop of `readi`. */
    method ReadAll(i: nat, off: nat, len: nat) returns (bytes: seq<Byte>)
      requires Valid() && i < |mem| && off + len <= mem[i].size <= MAXFILE * BSIZE
      modifies this`disk, this`mem, this`logged
      ensures State() == old(State()) && logged == old(logged)
      ensures |Contents(State(), i)| == mem[i].size && bytes == Contents(State(), i)[off..off + len]
    {
      hide Inv, Good, Addr, Extends, Wrote, Only, Synced, Contents, ByteAt, MapLogs;
      bytes := [];
      GoodFile(l, State(), i);
      var tot := 0;
      while tot < len
        invariant tot <= len && State() == old(State()) && logged == old(logged)
        invariant |Contents(State(), i)| == mem[i].size && bytes == Contents(State(), i)[off..off + tot]
      {
        var at := off + tot;
        ghost var t := State();
        Chunk(t, i, at, mem[i].size);
        var a := Bmap(i, at / BSIZE);
        NothingLogged(l, t, i, at / BSIZE);
        var m := Min(len - tot, BSIZE - at % BSIZE);
        SlotInv(l, t, i, SlotOf(at / BSIZE));
        ChunkBytes(l, t, i, at, m);
        bytes := bytes + disk[a.value][at % BSIZE..at % BSIZE + m];
        tot := tot + m;
      }
    }

    /** `readi`: the bytes of the file from `off` on, up to its end. */
    method Readi(i: nat, off: nat, n: nat) returns (r: Io, bytes: seq<Byte>)
      requires Valid() && i < |mem| && off < WORD_LIMIT && n < WORD_LIMIT
      modifies this`disk, this`mem, this`logged
      ensures State() == old(State()) && logged == old(logged)
      ensures r.Device? <==> Kind(mem[i]) == T_DEV
      ensures r.Device? <==> IsDevice(l, disk, i)
      ensures r.Refused? <==> !r.Device? && (off > mem[i].size || off + n >= WORD_LIMIT)
      ensures !r.Panicked?
      ensures r.Done? ==> r.n == Min(n, mem[i].size - off)
      ensures r.Done? ==>
        GoodSized(State()) && off + r.n <= |Files(State())[i]| && bytes == Files(State())[i][off..off + r.n]
    {
      hide Inv, Good, Contents, IsDevice, Kind, Synced, Mapped;
      DeviceIff(l, State(), i);
      if Kind(mem[i]) == T_DEV {
        return Device, [];
      }
      GoodSizes(l, State());
      if off > mem[i].size || Wraps(off, n) {
        return Refused, [];
      }
      var len := if off + n > mem[i].size then mem[i].size - off else n;
      bytes := ReadAll(i, off, len);
      r := Done(len);
    }

    /** One turn of the loop of `writei`. */
    method WriteChunk(i: nat, at: nat, src: seq<Byte>) returns (r: Result)
      requires Inv(l, State()) && i < |mem| && at < MAXFILE * BSIZE && at % BSIZE + |src| <= BSIZE
      modifies this`disk, this`mem, this`logged
      ensures r.Ok? ==> Extends(l, old(State()), State(), i) && Wrote(old(State()), State(), i, at, src)
      ensures r.Ok? ==> Addr(State(), i, SlotOf(at / BSIZE)) != 0 && Only(old(State()), State(), i, at / BSIZE)
      ensures r.Ok? ==> logged == old(logged) + BlockLogs(l, old(State()), State(), i, at / BSIZE)
      ensures r.Ok? ==> Allocates(l, old(State()), State(), BlockWants(i, at / BSIZE))
      ensures r.Ok? ==> LogStep(l, old(disk), old(logged), disk, logged)
      ensures r.Panic? ==> |Taken(old(State())) + BlockWants(i, at / BSIZE)| > Room(l)
      ensures Addr(old(State()), i, SlotOf(at / BSIZE)) != 0 ==> r.Ok? && mem == old(mem)
    {
      hide Inv, Addr, Extends, Wrote, Only, Spliced, MapLogs, Allocates, Taken, BlockWants, LogStep;
      var bn := at / BSIZE;
      r := Bmap(i, bn);
      if r.Ok? {
        ghost var s, t := old(State()), State();
        ExtendsInv(l, s, t, i);
        SlotInv(l, t, i, SlotOf(bn));
        StoredExtends(l, t, i, bn, Spliced(disk[r.value], at % BSIZE, src));
        StoredWrote(l, t, i, at, src);
        LogStepOne(l, old(disk), old(logged), disk, logged, r.value, Spliced(disk[r.value], at % BSIZE, src));
        LogWrite(r.value, Spliced(disk[r.value], at % BSIZE, src));
        ghost var u := State();
        assert u == Stored(t, r.value, Spliced(t.disk[r.value], at % BSIZE, src));
        StoredSlots(l, s, t, u, i, bn, r.value);
        StoredAllocates(l, t, i, bn, Spliced(t.disk[r.value], at % BSIZE, src));
        AllocatesThen(l, s, t, u, BlockWants(i, bn), {});
        assert BlockWants(i, bn) + {} == BlockWants(i, bn);
        ExtendsMore(l, s, t, u, i);
        WroteEmpty(s, t, i, 0, at);
        WroteMore(s, t, u, i, at, [], src);
        assert [] + src == src;
      }
    }

    /** `iupdate`. */
    method Iupdate(i: nat)
      requires Shape(l, State()) && i < |mem|
      modifies this`disk, this`logged
      ensures State() == Updated(l, old(State()), i) && logged == old(logged) + {IBlock(l, i)}
      ensures LogStep(l, old(disk), old(logged), disk, logged)
    {
      BlocksInRange(l, i, 0);
      assert IsInode(mem[i]);
      var b := IBlock(l, i);
      LogWrite(b, SetWords(disk[b], INODE_WORDS * (i % IPB), InodeWords(mem[i])));
    }

    /** The loop of `writei`. */
    method WriteAll(i: nat, off: nat, src: seq<Byte>) returns (r: Result)
      requires Inv(l, State()) && i < |mem| && off + |src| <= MAXFILE * BSIZE
      modifies this`disk, this`mem, this`logged
      ensures r.Ok? ==> Extends(l, old(State()), State(), i) && Wrote(old(State()), State(), i, off, src)
      ensures r.Ok? && src != [] ==> There(State(), i, off / BSIZE, BlocksOf(off, |src|))
      ensures r.Ok? && src != [] ==>
        logged == old(logged) + LogsTo(l, old(State()), State(), i, off / BSIZE, BlocksOf(off, |src|))
      ensures r.Ok? && src == [] ==> State() == old(State()) && logged == old(logged)
      ensures r.Ok? ==> Allocates(l, old(State()), State(), Wanted(i, off, |src|))
      ensures r.Ok? ==> LogStep(l, old(disk), old(logged), disk, logged)
      ensures r.Panic? <==> |Taken(old(State())) + Wanted(i, off, |src|)| > Room(l)
      ensures r.Ok? && Mapped(old(State()), i) && off + |src| <= old(mem[i].size) ==> mem == old(mem)
    {
      hide Inv, Addr, Extends, Wrote, Only, Mapped, LogsTo, There, BlockLogs;
      hide Allocates, Taken, Wanted, BlockWants, LogStep, Writing;
      ghost var s := State();
      var lo, tot := off / BSIZE, 0;
      WritingStart(l, s, i, off, src, logged);
      while tot < |src|
        invariant tot <= |src| && (tot == 0 || tot == |src| || (off + tot) % BSIZE == 0)
        invariant lo + BlocksOf(off, tot) <= MAXFILE
        invariant |mem| == |s.mem| && Inv(l, State()) && Writing(l, s, State(), i, off, src, tot, old(logged), logged)
      {
        var at := off + tot;
        var m := Min(|src| - tot, BSIZE - at % BSIZE);
        ghost var t, before := State(), logged;
        NextBlock(off, tot, m, |src|);
        r := WriteChunk(i, at, src[tot..tot + m]);
        if r.Panic? {
          WritingFull(l, s, t, i, off, src, tot, m, old(logged), before);
          return;
        }
        ExtendsInv(l, t, State(), i);
        WritingNext(l, s, t, State(), i, off, src, tot, m, old(logged), before, logged);
        tot := tot + m;
      }
      WritingDone(l, s, State(), i, off, src, old(logged), logged);
      r := Ok(|src|);
    }

    /** `writei`. */
    method Writei(i: nat, off: nat, src: seq<Byte>) returns (r: Io)
      requires Valid() && i < |mem| && off < WORD_LIMIT && |src| < WORD_LIMIT
      modifies this`disk, this`mem, this`logged
      ensures r.Device? <==> old(Kind(mem[i])) == T_DEV
      ensures r.Device? <==> IsDevice(l, old(disk), i)
      ensures r.Refused? <==> !r.Device? && (off > old(mem[i].size) || off + |src| > MAXFILE * BSIZE)
      ensures r.Device? || r.Refused? ==> State() == old(State()) && logged == old(logged)
      ensures r.Panicked? <==> !r.Device? && !r.Refused? && |Taken(old(State())) + Wanted(i, off, |src|)| > Room(l)
      ensures r.Panicked? ==> off + |src| > old(mem[i].size)
      ensures r.Done? ==> r.n == |src| && Valid() && Wrote(old(State()), State(), i, off, src)
      ensures r.Done? ==> Allocates(l, old(State()), State(), Wanted(i, off, |src|))
      ensures r.Done? ==> LogStep(l, old(disk), old(logged), disk, logged)
      ensures r.Done? ==>
        SameButSize(old(State()), State(), i, if off + |src| > old(mem[i].size) then off + |src| else old(mem[i].size))
      ensures r.Done? ==> GoodSized(old(State())) && GoodSized(State()) && off <= |Files(old(State()))[i]|
      ensures r.Done? ==> Files(State()) == Files(old(State()))[i := Overwritten(Files(old(State()))[i], off, src)]
      ensures r.Done? ==> src != [] ==> off / BSIZE + BlocksOf(off, |src|) <= MAXFILE
      ensures r.Done? && src != [] ==>
        logged == old(logged) + LogsTo(l, old(State()), State(), i, off / BSIZE, BlocksOf(off, |src|)) +
                  if off + |src| > old(mem[i].size) then {IBlock(l, i)} else {}
      ensures r.Done? && src == [] ==> State() == old(State()) && logged == old(logged)
    {
      hide Inv, Good, Addr, Extends, Wrote, Only, LogsTo, There, Updated, Synced, Mapped, Files, Overwritten;
      hide Allocates, Taken, Wanted, LogStep;
      DeviceIff(l, State(), i);
      if Kind(mem[i]) == T_DEV {
        return Device;
      }
      GoodFile(l, State(), i);
      MappedSize(State(), i);
      if off > mem[i].size || Wraps(off, |src|) {
        return Refused;
      }
      if off + |src| > MAXFILE * BSIZE {
        return Refused;
      }
      ghost var s := State();
      var res := WriteAll(i, off, src);
      if res.Panic? {
        if off + |src| <= s.mem[i].size {
          InsideFits(l, s, i, off, |src|);
        }
        return Panicked;
      }
      ghost var t := State();
      ExtendsInv(l, s, t, i);
      ExtendsSame(l, s, t, i);
      if |src| > 0 && off + |src| > mem[i].size {
        WrittenThere(t, i, off, |src|);
        GoodLonger(l, s, t, i, off, off + |src|);
        FinishedWrote(l, s, t, i, off + |src|, off, src);
        FinishedSame(l, s, t, i, off + |src|);
        FinishedLogs(l, s, t, i, off + |src|, off / BSIZE, BlocksOf(off, |src|));
        ResizedQuiet(l, t, i, off + |src|);
        FinishedAllocates(l, t, i, off + |src|);
        AllocatesThen(l, s, t, Finished(l, t, i, off + |src|), Wanted(i, off, |src|), {});
        assert Wanted(i, off, |src|) + {} == Wanted(i, off, |src|);
        mem := mem[i := mem[i].(size := off + |src|)];
        ghost var mid := logged;
        Iupdate(i);
        LogStepThen(l, s.disk, old(logged), t.disk, mid, disk, logged);
      } else {
        GoodInside(l, s, t, i);
      }
      GoodSizes(l, s);
      GoodSizes(l, State());
      FileSize(s, i);
      WroteFiles(s, State(), i, off, src);
      r := Done(|src|);
    }

    /** `bfree`. */
    method Bfree(b: nat) returns (r: Result)
      requires Shape(l, State()) && b < l.size
      modifies this`disk, this`logged
      ensures r.Ok? <==> Used(l, old(disk), b)
      ensures r.Ok? ==> disk == SetUsed(l, old(disk), b, false)
      ensures LogStep(l, old(disk), old(logged), disk, logged) && logged <= old(logged) + MapBlocks(l)
    {
      hide MapBlocks;
      BlocksInRange(l, 0, b);
      var at := BBlock(l, b);
      if !Bit(disk[at], b % BPB) {
        return Panic;
      }
      LogWrite(at, SetBit(disk[at], b % BPB, false));
      r := Ok(0);
    }

    /** Free the block that was in slot `q`, in the order of `itrunc`, if any. */
    method FreeSlot(i: nat, b: nat, ghost q: nat, ghost s: Fs) returns (r: Result)
      requires Inv(l, s) && i < |s.mem| && q < NSLOTS && Addr(s, i, SlotAt(q)) == b
      requires Shape(l, State()) && Freeing(l, s, disk, i, q)
      modifies this`disk, this`logged
      ensures r.Ok? && Freeing(l, s, disk, i, q + 1)
      ensures LogStep(l, old(disk), old(logged), disk, logged) && logged <= old(logged) + MapBlocks(l)
    {
      assert LogStep(l, disk, logged, disk, logged);
      hide Inv, Freeing, Used, SetUsed, LogStep, MapBlocks, Addr;
      FreeNext(l, s, disk, i, q);
      if b == 0 {
        return Ok(0);
      }
      StillUsed(l, s, disk, i, q);
      r := Bfree(b);
    }

    /** Free direct block `q`, after those before it. */
    method FreeOneDirect(i: nat, q: nat, ghost s: Fs) returns (r: Result)
      requires Inv(l, s) && i < |s.mem| && q < NDIRECT && Freeing(l, s, disk, i, q) && IsInode(s.mem[i])
      requires mem == ClearedTo(s, i, q)
      modifies this`disk, this`mem, this`logged
      ensures r.Ok? && Freeing(l, s, disk, i, q + 1) && mem == ClearedTo(s, i, q + 1)
      ensures LogStep(l, old(disk), old(logged), disk, logged) && logged <= old(logged) + MapBlocks(l)
    {
      ClearedIs(l, s, State(), i, q);
      hide Inv, Freeing, LogStep, MapBlocks, Addr, ClearedTo, Shape;
      r := FreeSlot(i, mem[i].addrs[q], q, s);
      mem := mem[i := mem[i].(addrs := mem[i].addrs[q := 0])];
    }

    /** Free the direct blocks. */
    method FreeDirect(i: nat) returns (r: Result)
      requires Inv(l, State()) && i < |mem|
      modifies this`disk, this`mem, this`logged
      ensures r.Ok? && Freeing(l, old(State()), disk, i, NDIRECT)
      ensures mem == old(mem)[i := old(mem)[i].(addrs := Cleared(old(mem)[i].addrs, NDIRECT))]
      ensures LogStep(l, old(disk), old(logged), disk, logged) && logged <= old(logged) + MapBlocks(l)
    {
      assert LogStep(l, disk, logged, disk, logged);
      ghost var s := State();
      SlotInv(l, s, i, 0);
      FreeingNothing(l, s, i);
      ClearedNothing(mem[i].addrs);
      assert mem == ClearedTo(s, i, 0);
      assert ClearedTo(s, i, NDIRECT) == s.mem[i := s.mem[i].(addrs := Cleared(s.mem[i].addrs, NDIRECT))];
      hide Inv, Freeing, LogStep, MapBlocks, Cleared, ClearedTo, Shape;
      var q := 0;
      while q < NDIRECT
        invariant q <= NDIRECT && Freeing(l, s, disk, i, q) && mem == ClearedTo(s, i, q)
        invariant LogStep(l, old(disk), old(logged), disk, logged) && logged <= old(logged) + MapBlocks(l)
      {
        ghost var d, mid := disk, logged;
        r := FreeOneDirect(i, q, s);
        LogStepThen(l, old(disk), old(logged), d, mid, disk, logged);
        q := q + 1;
      }
      r := Ok(0);
    }

    /** Free the blocks that the indirect block lists. */
    method FreeListed(i: nat, block: Block, ghost s: Fs) returns (r: Result)
      requires Inv(l, s) && i < |s.mem| && Shape(l, State()) && Freeing(l, s, disk, i, NDIRECT)
      requires forall j :: 0 <= j < NINDIRECT ==> Addr(s, i, INDIRECT + 1 + j) == Word(block, j)
      modifies this`disk, this`logged
      ensures r.Ok? && Freeing(l, s, disk, i, MAXFILE)
      ensures LogStep(l, old(disk), old(logged), disk, logged) && logged <= old(logged) + MapBlocks(l)
    {
      assert LogStep(l, disk, logged, disk, logged);
      hide Inv, Freeing, LogStep, MapBlocks, Addr, Word;
      var j := 0;
      while j < NINDIRECT
        invariant j <= NINDIRECT && Freeing(l, s, disk, i, NDIRECT + j)
        invariant LogStep(l, old(disk), old(logged), disk, logged) && logged <= old(logged) + MapBlocks(l)
      {
        assert SlotAt(NDIRECT + j) == INDIRECT + 1 + j;
        ghost var d, mid := disk, logged;
        r := FreeSlot(i, Word(block, j), NDIRECT + j, s);
        LogStepThen(l, old(disk), old(logged), d, mid, disk, logged);
        j := j + 1;
      }
      r := Ok(0);
    }

    /** Free the blocks that the indirect block lists, then the indirect block. */
    method FreeIndirect(i: nat, ghost s: Fs) returns (r: Result)
      requires Inv(l, s) && i < |s.mem| && |mem| == |s.mem| && Freeing(l, s, disk, i, NDIRECT)
      requires mem == s.mem[i := s.mem[i].(addrs := Cleared(s.mem[i].addrs, NDIRECT))]
      modifies this`disk, this`mem, this`logged
      ensures r.Ok? && Freeing(l, s, disk, i, NSLOTS)
      ensures mem == s.mem[i := s.mem[i].(addrs := NO_ADDRS)]
      ensures LogStep(l, old(disk), old(logged), disk, logged) && logged <= old(logged) + MapBlocks(l)
    {
      assert LogStep(l, disk, logged, disk, logged);
      hide Inv, Freeing, Word, LogStep, MapBlocks;
      SlotInv(l, s, i, INDIRECT);
      SameShape(l, s, State(), i);
      var p := mem[i].addrs[INDIRECT];
      if p != 0 {
        FreeingData(l, s, disk, i, NDIRECT, p);
        r := FreeListed(i, disk[p], s);
        assert SlotAt(MAXFILE) == INDIRECT;
        ghost var d, mid := disk, logged;
        r := FreeSlot(i, p, MAXFILE, s);
        LogStepThen(l, old(disk), old(logged), d, mid, disk, logged);
        mem := mem[i := mem[i].(addrs := mem[i].addrs[INDIRECT := 0])];
      } else {
        NoIndirect(l, s, disk, i, NDIRECT);
      }
      assert mem[i].addrs == NO_ADDRS;
      r := Ok(0);
    }

    /** `itrunc`: the file becomes empty, every block it owned is free again and
        no other one; "freeing free block" does not happen. */
    method Itrunc(i: nat) returns (r: Result)
      requires Valid() && i < |mem|
      modifies this`disk, this`mem, this`logged
      ensures r.Ok? && Valid()
      ensures |mem| == |old(mem)| && mem[i] == old(mem)[i].(size := 0, addrs := NO_ADDRS)
      ensures forall j :: 0 <= j < |mem| && j != i ==> mem[j] == old(mem)[j]
      ensures |disk| == l.size && Wiped(l, old(disk), disk, i, false)
      ensures forall x: nat :: x < l.size ==>
        (Used(l, disk, x) <==> Used(l, old(disk), x) && !exists k: nat :: OwnedBy(old(State()), i, k, x))
      ensures GoodSized(old(State())) && GoodSized(State()) && Files(State()) == Files(old(State()))[i := []]
      ensures LogStep(l, old(disk), old(logged), disk, logged) && logged <= old(logged) + MapBlocks(l) + {IBlock(l, i)}
    {
      hide Inv, Freeing, Used, SetUsed, Good, Updated, Addr, ByteAt, LogStep, MapBlocks;
      ghost var s := State();
      r := FreeDirect(i);
      ghost var d0, a := disk, logged;
      r := FreeIndirect(i, s);
      ghost var d, b := disk, logged;
      mem := mem[i := mem[i].(size := 0)];
      EmptiedShape(l, s, d, i);
      assert State() == Emptied(s, d, i);
      Iupdate(i);
      LogStepThen(l, s.disk, old(logged), d0, a, d, b);
      LogStepThen(l, s.disk, old(logged), d, b, disk, logged);
      assert State() == Truncated(l, s, d, i);
      TruncatedGood(l, s, d, i);
      forall x: nat | x < l.size
        ensures |disk| == l.size && (Used(l, disk, x) <==> Used(l, s.disk, x) && !exists k: nat :: OwnedBy(s, i, k, x))
      {
        TruncatedMap(l, s, d, i, x);
      }
      forall j: nat, o: nat | j < |mem| && j != i && o < MAXFILE * BSIZE
        ensures ByteAt(State(), j, o) == ByteAt(s, j, o)
      {
        TruncatedBytes(l, s, d, i, j, o);
      }
      WipedIs(l, s, State(), i, false);
      GoodSizes(l, s);
      GoodSizes(l, State());
      EmptiedFiles(s, State(), i);
    }

    /** The inode's type becomes 0, in memory and on the disk. */
    method Release(i: nat)
      requires Valid() && i < |mem|
      modifies this`disk, this`mem, this`logged
      ensures Valid() && mem == old(mem)[i := old(mem)[i].(kind := old(mem[i].kind - Kind(mem[i])))]
      ensures |disk| == |old(disk)| == l.size
      ensures forall x: nat :: x < l.size ==> (Used(l, disk, x) <==> Used(l, old(disk), x))
      ensures GoodSized(old(State())) && GoodSized(State()) && Files(State()) == Files(old(State()))
      ensures LogStep(l, old(disk), old(logged), disk, logged) && logged == old(logged) + {IBlock(l, i)}
    {
      hide Inv, Used, Good, Updated, Addr, ByteAt, LogStep, Files;
      ghost var s := State();
      GoodSizes(l, s);
      SlotInv(l, s, i, 0);
      var kind := mem[i].kind - Kind(mem[i]);
      ReleasedGood(l, s, i, kind);
      ReleasedSame(l, s, i, kind);
      forall j: nat, o: nat | j < |s.mem| && o < MAXFILE * BSIZE
        ensures ByteAt(Released(l, s, i, kind), j, o) == ByteAt(s, j, o)
      {
        ReleasedBytes(l, s, i, kind, j, o);
      }
      mem := mem[i := mem[i].(kind := kind)];
      assert State() == Retyped(s, i, kind);
      Iupdate(i);
      assert State() == Released(l, s, i, kind);
      SameFiles(s, State());
    }

    /** `iput` with `refs` references to the inode: the last one of a file without
        links empties the file and frees the inode. */
    method Iput(i: nat, refs: nat) returns (freed: bool)
      requires Valid() && i < |mem|
      modifies this`disk, this`mem, this`logged
      ensures freed <==> refs == 1 && Unlinked(l, old(disk), i)
      ensures !freed ==> State() == old(State()) && logged == old(logged)
      ensures Valid() && |mem| == |old(mem)| && forall j :: 0 <= j < |mem| && j != i ==> mem[j] == old(mem)[j]
      ensures freed ==> mem[i] == Inode(old(mem[i].kind - Kind(mem[i])), old(mem[i].links), 0, NO_ADDRS)
      ensures freed ==> |disk| == l.size && Wiped(l, old(disk), disk, i, true)
      ensures freed ==> forall x: nat :: x < l.size ==>
        (Used(l, disk, x) <==> Used(l, old(disk), x) && !exists k: nat :: OwnedBy(old(State()), i, k, x))
      ensures GoodSized(old(State())) && GoodSized(State())
      ensures Files(State()) == if freed then Files(old(State()))[i := []] else Files(old(State()))
      ensures LogStep(l, old(disk), old(logged), disk, logged) && logged <= old(logged) + MapBlocks(l) + {IBlock(l, i)}
    {
      assert LogStep(l, disk, logged, disk, logged);
      hide Inv, Used, Good, Updated, Addr, ByteAt, LogStep, MapBlocks, Files;
      GoodSizes(l, State());
      DeviceIff(l, State(), i);
      freed := refs == 1 && Links(mem[i]) == 0;
      if freed {
        var r := Itrunc(i);
        ghost var d, mid := disk, logged;
        Release(i);
        WipedIs(l, old(State()), State(), i, true);
        LogStepThen(l, old(disk), old(logged), d, mid, disk, logged);
      }
    }

    /** The transaction of `fileclose`. */
    method CloseOp(i: nat, refs: nat) returns (freed: bool)
      requires Valid() && i < |mem|
      modifies this`disk, this`mem, this`logged
      ensures freed <==> refs == 1 && Unlinked(l, old(disk), i)
      ensures Transacts(l, old(State()), State(), if freed then [Cut(i)] else [], logged)
      ensures |logged| <= l.nmeta - l.bmapstart + 1
    {
      hide Good, Files, LogStep, MapBlocks, Used;
      logged := {};
      freed := Iput(i, refs);
      if freed {
        OneChange(l, old(State()), State(), Cut(i), logged);
      }
      FreeingLogs(l, logged, IBlock(l, i));
    }

    /** Any writes, one after the other: the files hold what the flat files hold,
        and all of it goes well if and only if there is room for the blocks that
        the writes need together. */
    method WriteMany(ws: seq<Write>) returns (ok: bool)
      requires Valid() && forall k :: 0 <= k < |ws| ==> ws[k].inum < |mem|
      requires forall k :: 0 <= k < |ws| ==> ws[k].off < WORD_LIMIT && |ws[k].src| < WORD_LIMIT
      modifies this`disk, this`mem, this`logged
      ensures GoodSized(old(State()))
      ensures ok <==> |Taken(old(State())) + WantedTo(Files(old(State())), Devices(old(State())), ws, |ws|)| <= Room(l)
      ensures ok ==> Valid() && GoodSized(State())
      ensures ok ==> Files(State()) == ApplyTo(Files(old(State())), Devices(old(State())), ws, |ws|)
    {
      hide Good, Wrote, Files, Overwritten, LogsTo, BlocksOf, Allocates, Taken, Wanted, WantedTo, ApplyTo;
      GoodSizes(l, State());
      ghost var s := State();
      ghost var fs, dev := Files(s), Devices(s);
      AllocatesNothing(l, s);
      ManyStart(fs, dev, ws);
      var k := 0;
      while k < |ws|
        invariant k <= |ws| && Valid() && |mem| == |s.mem| && GoodSized(State())
        invariant Files(State()) == ApplyTo(fs, dev, ws, k)
        invariant forall j :: 0 <= j < |mem| ==> Kind(mem[j]) == Kind(s.mem[j])
        invariant Allocates(l, s, State(), WantedTo(fs, dev, ws, k))
      {
        ghost var t, w := State(), ws[k];
        FileSize(t, w.inum);
        var r := Writei(ws[k].inum, ws[k].off, ws[k].src);
        ManyNext(fs, dev, ws, k);
        if r.Panicked? {
          ManyFull(l, s, t, fs, dev, ws, k);
          return false;
        }
        if r.Done? {
          AllocatesThen(l, s, t, State(), WantedTo(fs, dev, ws, k), Wanted(w.inum, w.off, |w.src|));
        } else {
          assert WantedTo(fs, dev, ws, k) + {} == WantedTo(fs, dev, ws, k);
        }
        k := k + 1;
      }
      AllocatesFits(l, s, State(), WantedTo(fs, dev, ws, |ws|));
      ok := true;
    }

    /** One transaction of `filewrite`. */
    method WriteOp(i: nat, off: nat, src: seq<Byte>) returns (r: Io)
      requires Valid() && i < |mem| && off < WORD_LIMIT && |src| <= CHUNK
      modifies this`disk, this`mem, this`logged
      ensures r.Device? <==> old(Kind(mem[i])) == T_DEV
      ensures r.Device? <==> IsDevice(l, old(disk), i)
      ensures r.Refused? <==> !r.Device? && (off > old(mem[i].size) || off + |src| > MAXFILE * BSIZE)
      ensures r.Panicked? <==> !r.Device? && !r.Refused? && |Taken(old(State())) + Wanted(i, off, |src|)| > Room(l)
      ensures r.Panicked? ==> off + |src| > old(mem[i].size)
      ensures r.Device? || r.Refused? ==> State() == old(State())
      ensures r.Done? ==> r.n == |src| && Valid() && Wrote(old(State()), State(), i, off, src)
      ensures r.Done? ==> Allocates(l, old(State()), State(), Wanted(i, off, |src|))
      ensures r.Done? ==>
        SameButSize(old(State()), State(), i, if off + |src| > old(mem[i].size) then off + |src| else old(mem[i].size))
      ensures r.Done? ==> GoodSized(old(State())) && GoodSized(State()) && off <= |Files(old(State()))[i]|
      ensures r.Done? ==> Files(State()) == Files(old(State()))[i := Overwritten(Files(old(State()))[i], off, src)]
      ensures r.Done? ==> Transacts(l, old(State()), State(), [Put(Write(i, off, src))], logged)
      ensures !r.Panicked? ==> |logged| <= MAXOPBLOCKS
      ensures !r.Device? && CrossingChunk(old(State()), i, off, |src|) && (exists f :: FourSpread(l, old(disk), f)) ==>
        r.Done? && |logged| == MAXOPBLOCKS
    {
      hide Inv, Good, Wrote, LogsTo, Files, Overwritten, Mapped, Allocates, Taken, Wanted, FourSpread, LogStep;
      hide Transacts;
      logged := {};
      ghost var s := State();
      GoodFile(l, s, i);
      r := Writei(i, off, src);
      if r.Done? {
        OneChange(l, s, State(), Put(Write(i, off, src)), logged);
      }
      if r.Done? && src != [] {
        ChunkBound(l, s, State(), i, off, |src|);
        var all := LogsTo(l, s, State(), i, off / BSIZE, BlocksOf(off, |src|)) + {IBlock(l, i)};
        SubsetSize(logged, all);
      }
      if Kind(s.mem[i]) != T_DEV && CrossingChunk(s, i, off, |src|) && exists f :: FourSpread(l, s.disk, f) {
        ghost var f :| FourSpread(l, s.disk, f);
        SpreadFits(l, s, i, off, f);
        LogsMost(l, s, State(), i, off, f);
      }
    }

    /** `filewrite` on a file that is an inode, with the offset of the open file. */
    method FileWrite(i: nat, off: nat, src: seq<Byte>) returns (r: Io, off': nat)
      requires Valid() && i < |mem| && off + |src| < WORD_LIMIT
      modifies this`disk, this`mem, this`logged
      ensures GoodSized(old(State()))
      ensures r.Panicked? <==> |Taken(old(State())) + Wanted(i, off, Accepted(old(mem[i]), off, |src|))| > Room(l)
      ensures !r.Panicked? ==> off' == off + Accepted(old(mem[i]), off, |src|)
      ensures !r.Panicked? ==>
        r == if off' == off + |src| then Done(|src|) else if old(Kind(mem[i])) == T_DEV then Device else Refused
      ensures !r.Panicked? ==>
        off' - off == if IsDevice(l, old(disk), i) || off > old(mem[i].size) then 0
                      else if off + |src| <= 140 * 512 then |src|
                      else (140 * 512 - off) / 1536 * 1536
      ensures r.Device? ==> IsDevice(l, old(disk), i)
      ensures !r.Panicked? && IsDevice(l, old(disk), i) && src != [] ==> r.Device?
      ensures !r.Panicked? ==> Valid() && GoodSized(State()) && |mem| == |old(mem)|
      ensures !r.Panicked? ==> Wrote(old(State()), State(), i, off, src[..off' - off])
      ensures !r.Panicked? ==> Files(State()) == Rewritten(Files(old(State())), i, off, src[..off' - off])
    {
      hide Inv, Good, Wrote, Files, Allocates, Taken, Wanted, Rewritten, Underway, Accepted, Overwritten;
      ghost var s := State();
      GoodSizes(l, s);
      DeviceIff(l, s, i);
      AcceptedIs(s.mem[i], off, |src|);
      UnderwayStart(l, s, i, off, src);
      var done := 0;
      off' := off;
      while done < |src|
        invariant done <= |src| && off' == off + done && Valid() && |mem| == |s.mem|
        invariant Underway(l, s, State(), i, off, src, done)
      {
        var n1 := Min(|src| - done, CHUNK);
        ghost var t := State();
        r := WriteOp(i, off', src[done..done + n1]);
        if r.Panicked? {
          FullAt(l, s, t, i, off, src, done);
          return;
        }
        if !r.Done? {
          StopsAt(l, s, t, i, off, src, done);
          return;
        }
        UnderwayNext(l, s, t, State(), i, off, src, done);
        done := done + n1;
        off' := off' + n1;
      }
      EndsAt(l, s, State(), i, off, src);
      r := Done(|src|);
    }
  }

  /** The number of bytes that `filewrite` gets written if there is room: all, or
      as many whole transactions as the largest file allows. */
  function Accepted(ip: Inode, off: nat, n: nat): (w: nat)
    requires ip.size <= MAXFILE * BSIZE
    ensures w <= n
  {
    if Kind(ip) == T_DEV || off > ip.size then 0
    else if off + n <= MAXFILE * BSIZE then n
    else (MAXFILE * BSIZE - off) / CHUNK * CHUNK
  }

  lemma AcceptedIs(ip: Inode, off: nat, n: nat)
    requires ip.size <= MAXFILE * BSIZE
    ensures Accepted(ip, off, n) == if Kind(ip) == T_DEV || off > ip.size then 0
                                    else if off + n <= 140 * 512 then n
                                    else (140 * 512 - off) / 1536 * 1536
  {
  }

  /** `filewrite` has written `done` bytes, in whole transactions unless it is at
      the end. */
  ghost predicate Underway(l: Layout, s: Fs, t: Fs, i: nat, off: nat, src: seq<Byte>, done: nat)
  {
    && i < |s.mem| == |t.mem| && GoodSized(s) && GoodSized(t) && done <= |src| && Kind(t.mem[i]) == Kind(s.mem[i])
    && (done > 0 ==> Kind(s.mem[i]) != T_DEV && off <= s.mem[i].size && off + done <= t.mem[i].size)
    && (done == 0 ==> t.mem[i].size == s.mem[i].size)
    && (done == |src| || done % CHUNK == 0)
    && Files(t) == Rewritten(Files(s), i, off, src[..done]) && Wrote(s, t, i, off, src[..done])
    && Allocates(l, s, t, Wanted(i, off, done))
  }

  lemma UnderwayStart(l: Layout, s: Fs, i: nat, off: nat, src: seq<Byte>)
    requires Inv(l, s) && i < |s.mem| && GoodSized(s)
    ensures Underway(l, s, s, i, off, src, 0)
  {
    hide Inv, Files, Allocates, Wanted, Rewritten, Wrote;
    WroteNothing(s, i);
    WroteEmpty(s, s, i, 0, off);
    AllocatesNothing(l, s);
    WantedNothing(i, off);
    RewrittenNothing(Files(s), i, off);
  }

  lemma UnderwayNext(l: Layout, s: Fs, t: Fs, u: Fs, i: nat, off: nat, src: seq<Byte>, done: nat)
    requires Underway(l, s, t, i, off, src, done) && done < |src| && GoodSized(u) && Kind(t.mem[i]) != T_DEV
    requires var n1 := Min(|src| - done, CHUNK);
             && off + done <= t.mem[i].size && off + done <= |Files(t)[i]|
             && SameButSize(t, u, i, if off + done + n1 > t.mem[i].size then off + done + n1 else t.mem[i].size)
             && Files(u) == Files(t)[i := Overwritten(Files(t)[i], off + done, src[done..done + n1])]
             && Allocates(l, t, u, Wanted(i, off + done, n1)) && Wrote(t, u, i, off + done, src[done..done + n1])
    ensures Underway(l, s, u, i, off, src, done + Min(|src| - done, CHUNK))
  {
    hide Files, Allocates, Wanted, Rewritten, Overwritten, Wrote;
    var n1 := Min(|src| - done, CHUNK);
    FileSize(s, i);
    RewrittenThen(Files(s), i, off, src[..done], src[done..done + n1]);
    WroteMore(s, t, u, i, off, src[..done], src[done..done + n1]);
    assert src[..done] + src[done..done + n1] == src[..done + n1];
    WantedThen(i, off, done, n1);
    AllocatesThen(l, s, t, u, Wanted(i, off, done), Wanted(i, off + done, n1));
  }

  /** A transaction that is refused ends the write. */
  lemma StopsAt(l: Layout, s: Fs, t: Fs, i: nat, off: nat, src: seq<Byte>, done: nat)
    requires Underway(l, s, t, i, off, src, done) && done < |src|
    requires var n1 := Min(|src| - done, CHUNK);
             Kind(t.mem[i]) == T_DEV || off + done > t.mem[i].size || off + done + n1 > MAXFILE * BSIZE
    ensures Accepted(s.mem[i], off, |src|) == done && |Taken(s) + Wanted(i, off, done)| <= Room(l)
    ensures GoodSized(t) && Files(t) == Rewritten(Files(s), i, off, src[..done]) && Kind(t.mem[i]) == Kind(s.mem[i])
    ensures Wrote(s, t, i, off, src[..done])
  {
    hide Files, Allocates, Wanted, Rewritten, Taken, Wrote;
    AllocatesFits(l, s, t, Wanted(i, off, done));
    var max := MAXFILE * BSIZE;
    if Kind(s.mem[i]) != T_DEV && off <= s.mem[i].size {
      assert off + done <= max < off + done + CHUNK;
      assert (max - off) / CHUNK == done / CHUNK;
    }
  }

  lemma EndsAt(l: Layout, s: Fs, t: Fs, i: nat, off: nat, src: seq<Byte>)
    requires Underway(l, s, t, i, off, src, |src|)
    ensures Accepted(s.mem[i], off, |src|) == |src| && |Taken(s) + Wanted(i, off, |src|)| <= Room(l)
    ensures GoodSized(t) && Files(t) == Rewritten(Files(s), i, off, src[..|src|]) && Wrote(s, t, i, off, src[..|src|])
  {
    hide Files, Allocates, Wanted, Rewritten, Taken, Wrote;
    AllocatesFits(l, s, t, Wanted(i, off, |src|));
  }

  lemma GoesOn(ip: Inode, off: nat, done: nat, n: nat)
    requires ip.size <= MAXFILE * BSIZE && done < n && done % CHUNK == 0
    requires Kind(ip) != T_DEV && off <= ip.size && off + done + Min(n - done, CHUNK) <= MAXFILE * BSIZE
    ensures done + Min(n - done, CHUNK) <= Accepted(ip, off, n)
  {
    var max := MAXFILE * BSIZE;
    if off + n > max {
      assert (max - off) / CHUNK >= (done + CHUNK) / CHUNK;
    }
  }

  /** A transaction that fails makes the whole write fail. */
  lemma FullAt(l: Layout, s: Fs, t: Fs, i: nat, off: nat, src: seq<Byte>, done: nat)
    requires Underway(l, s, t, i, off, src, done) && done < |src|
    requires var n1 := Min(|src| - done, CHUNK);
             && Kind(t.mem[i]) != T_DEV && off + done <= t.mem[i].size && off + done + n1 <= MAXFILE * BSIZE
             && |Taken(t) + Wanted(i, off + done, n1)| > Room(l)
    ensures |Taken(s) + Wanted(i, off, Accepted(s.mem[i], off, |src|))| > Room(l)
  {
    hide Wanted, Taken, Inv, Addr, FirstFit, Free, Accepted, Files, Rewritten, Wrote;
    var n1 := Min(|src| - done, CHUNK);
    var w := Accepted(s.mem[i], off, |src|);
    GoesOn(s.mem[i], off, done, |src|);
    WantedThen(i, off, done, n1);
    WantedThen(i, off, done + n1, w - done - n1);
    SubsetSize(Taken(t) + Wanted(i, off + done, n1), Taken(s) + Wanted(i, off, w));
  }

  /** `src` written to one of the files; nothing is written beyond its end. */
  function Rewritten(fs: seq<seq<Byte>>, i: nat, off: nat, src: seq<Byte>): (r: seq<seq<Byte>>)
    ensures |r| == |fs|
  {
    if src != [] && i < |fs| && off <= |fs[i]| then fs[i := Overwritten(fs[i], off, src)] else fs
  }

  lemma RewrittenNothing(fs: seq<seq<Byte>>, i: nat, off: nat)
    ensures Rewritten(fs, i, off, []) == fs
  {
  }

  lemma RewrittenThen(fs: seq<seq<Byte>>, i: nat, off: nat, src: seq<Byte>, more: seq<Byte>)
    requires i < |fs| && off <= |fs[i]| && more != []
    ensures var once := Rewritten(fs, i, off, src);
            && off + |src| <= |once[i]|
            && once[i := Overwritten(once[i], off + |src|, more)] == Rewritten(fs, i, off, src + more)
  {
    OverwrittenThen(fs[i], off, src, more);
    if src == [] {
      assert [] + more == more;
    }
  }

  lemma ManyStart(fs: seq<seq<Byte>>, devices: set<nat>, ws: seq<Write>)
    ensures ApplyTo(fs, devices, ws, 0) == fs && WantedTo(fs, devices, ws, 0) == {}
  {
  }

  lemma ManyNext(fs: seq<seq<Byte>>, devices: set<nat>, ws: seq<Write>, k: nat)
    requires k < |ws|
    ensures var w, now := ws[k], ApplyTo(fs, devices, ws, k);
            && ApplyTo(fs, devices, ws, k + 1) == Apply(now, devices, w)
            && WantedTo(fs, devices, ws, k + 1) ==
               WantedTo(fs, devices, ws, k) + if Accepts(now, devices, w) then Wanted(w.inum, w.off, |w.src|) else {}
  {
    hide Wanted, Accepts;
  }

  lemma ManyFull(l: Layout, s: Fs, t: Fs, fs: seq<seq<Byte>>, devices: set<nat>, ws: seq<Write>, k: nat)
    requires k < |ws| && Allocates(l, s, t, WantedTo(fs, devices, ws, k))
    requires Accepts(ApplyTo(fs, devices, ws, k), devices, ws[k])
    requires |Taken(t) + Wanted(ws[k].inum, ws[k].off, |ws[k].src|)| > Room(l)
    ensures |Taken(s) + WantedTo(fs, devices, ws, |ws|)| > Room(l)
  {
    hide Wanted, Taken, Inv, Addr, FirstFit, Free, Accepts, WantedTo, ApplyTo;
    ManyNext(fs, devices, ws, k);
    WantedGrows(fs, devices, ws, k + 1, |ws|);
    SubsetSize(Taken(t) + Wanted(ws[k].inum, ws[k].off, |ws[k].src|), Taken(s) + WantedTo(fs, devices, ws, |ws|));
  }

  /** One more block of a write. */
  lemma WantedStep(i: nat, off: nat, tot: nat, m: nat)
    requires 0 < m && off + tot < MAXFILE * BSIZE && (off + tot) % BSIZE + m <= BSIZE
    ensures Wanted(i, off, tot) + BlockWants(i, (off + tot) / BSIZE) == Wanted(i, off, tot + m)
  {
    hide Wanted, BlockWants;
    WantedInBlock(i, off + tot, m);
    WantedThen(i, off, tot, m);
  }

  /** A write that fails at one of its blocks fails as a whole. */
  lemma NoRoomFor(l: Layout, s: Fs, t: Fs, i: nat, off: nat, tot: nat, m: nat, n: nat)
    requires Allocates(l, s, t, Wanted(i, off, tot)) && tot + m <= n
    requires 0 < m && off + tot < MAXFILE * BSIZE && (off + tot) % BSIZE + m <= BSIZE
    requires |Taken(t) + BlockWants(i, (off + tot) / BSIZE)| > Room(l)
    ensures |Taken(s) + Wanted(i, off, n)| > Room(l)
  {
    hide Wanted, BlockWants, Taken, Inv, Addr, FirstFit, Free;
    WantedStep(i, off, tot, m);
    WantedThen(i, off, tot + m, n - tot - m);
    SubsetSize(Taken(t) + BlockWants(i, (off + tot) / BSIZE), Taken(s) + Wanted(i, off, n));
  }

  /** A write inside a file never fails for want of a block. */
  lemma InsideFits(l: Layout, s: Fs, i: nat, off: nat, n: nat)
    requires Good(l, s) && i < |s.mem| && off + n <= s.mem[i].size
    ensures |Taken(s) + Wanted(i, off, n)| <= Room(l)
  {
    hide Good, Inv, Taken, Wanted, Addr, Mapped;
    GoodFile(l, s, i);
    FullIff(l, s);
    InsideNeedsNothing(s, i, off, n);
    assert Taken(s) + Wanted(i, off, n) == Taken(s);
  }

  /** What `bmap` does for block `bn` on the way from `s` to `t`. */
  ghost predicate Grew(l: Layout, s: Fs, t: Fs, i: nat, bn: nat, w: set<(nat, nat)>)
    requires bn < MAXFILE
  {
    && Extends(l, s, t, i) && Wrote(s, t, i, 0, []) && |s.mem| == |t.mem|
    && Only(s, t, i, bn) && Allocates(l, s, t, w)
  }

  lemma GrewFacts(l: Layout, s: Fs, t: Fs, i: nat, bn: nat, w: set<(nat, nat)>)
    requires bn < MAXFILE && Grew(l, s, t, i, bn, w)
    ensures Extends(l, s, t, i) && Wrote(s, t, i, 0, []) && i < |s.mem| == |t.mem|
    ensures Only(s, t, i, bn) && Allocates(l, s, t, w) && Inv(l, t)
  {
    hide Inv, Wrote, Only, Allocates, Addr, Synced;
  }

  lemma GrewNothing(l: Layout, s: Fs, i: nat, bn: nat)
    requires Inv(l, s) && i < |s.mem| && bn < MAXFILE
    ensures Grew(l, s, s, i, bn, {}) && Extends(l, s, s, i) && Wrote(s, s, i, 0, []) && Only(s, s, i, bn)
  {
    hide Inv, Wrote, Extends, Only, Allocates, Addr;
    ExtendsItself(l, s, i);
    WroteNothing(s, i);
    OnlyNothing(s, i, bn);
    AllocatesNothing(l, s);
  }

  /** What the slots hold already need not be taken. */
  lemma GrewMore(l: Layout, s: Fs, t: Fs, i: nat, bn: nat, w: set<(nat, nat)>, more: set<(nat, nat)>)
    requires bn < MAXFILE && Grew(l, s, t, i, bn, w) && w <= more <= Taken(t)
    ensures Grew(l, s, t, i, bn, more) && Allocates(l, s, t, more)
  {
    hide Wrote, Extends, Only, Allocates, Taken;
    AllocatesMore(l, s, t, w, more);
  }

  lemma GrewOnce(l: Layout, s: Fs, i: nat, k: nat, b: nat, bn: nat)
    requires CanGrow(l, s, i, k, b) && bn < MAXFILE && (k == SlotOf(bn) || (k == INDIRECT && bn >= NDIRECT))
    requires Allocates(l, s, Grown(l, s, i, k, b), {(i, k)})
    ensures Grew(l, s, Grown(l, s, i, k, b), i, bn, {(i, k)})
    ensures Addr(Grown(l, s, i, k, b), i, k) == b != 0
    ensures k > INDIRECT ==> Grown(l, s, i, k, b).mem == s.mem
  {
    hide Inv, Used, Grown, Wrote, Extends, Addr, Allocates, Only;
    GrowOnce(l, s, i, k, b);
    GrowOnly(l, s, i, k, b, bn);
  }

  lemma GrewTwice(l: Layout, s: Fs, t: Fs, u: Fs, i: nat, bn: nat, w1: set<(nat, nat)>, w2: set<(nat, nat)>)
    requires bn < MAXFILE && Grew(l, s, t, i, bn, w1) && Grew(l, t, u, i, bn, w2) && u.mem == t.mem
    ensures Grew(l, s, u, i, bn, w1 + w2)
  {
    hide Wrote, Extends, Only, Allocates;
    ExtendsMore(l, s, t, u, i);
    var nothing: seq<Byte> := [];
    WroteMore(s, t, u, i, 0, nothing, nothing);
    assert nothing + nothing == nothing;
    GrewFacts(l, s, t, i, bn, w1);
    OnlyTwice(s, t, u, i, bn);
    AllocatesThen(l, s, t, u, w1, w2);
  }

  lemma GrowOnly(l: Layout, s: Fs, i: nat, k: nat, b: nat, bn: nat)
    requires CanGrow(l, s, i, k, b) && bn < MAXFILE && (k == SlotOf(bn) || (k == INDIRECT && bn >= NDIRECT))
    ensures Only(s, Grown(l, s, i, k, b), i, bn)
  {
    hide Inv, Used, Grown, Addr;
    forall m: nat | m < NSLOTS && m != k
      ensures Addr(Grown(l, s, i, k, b), i, m) == Addr(s, i, m)
    {
      GrownAddr(l, s, i, k, b, i, m);
    }
  }

  lemma GrowOnce(l: Layout, s: Fs, i: nat, k: nat, b: nat)
    requires CanGrow(l, s, i, k, b)
    ensures Inv(l, Grown(l, s, i, k, b)) && Extends(l, s, Grown(l, s, i, k, b), i)
    ensures Wrote(s, Grown(l, s, i, k, b), i, 0, [])
    ensures Addr(Grown(l, s, i, k, b), i, k) == b != 0
    ensures k > INDIRECT ==> Grown(l, s, i, k, b).mem == s.mem
  {
    assert k > INDIRECT ==> Grown(l, s, i, k, b).mem == s.mem;
    hide Inv, Used, Grown, Wrote, Extends, Addr;
    GrownInv(l, s, i, k, b);
    GrownExtends(l, s, i, k, b);
    GrownWrote(l, s, i, k, b);
    GrownAddr(l, s, i, k, b, i, k);
    FreeBlock(l, s, b, i, k);
  }

  /** A byte below the size lies in a block that is there. */
  lemma Chunk(s: Fs, i: nat, at: nat, size: nat)
    requires i < |s.mem| && Mapped(s, i) && at < size == s.mem[i].size
    ensures at / BSIZE < MAXFILE && Addr(s, i, SlotOf(at / BSIZE)) != 0
  {
    hide Addr;
    assert at / BSIZE * BSIZE < size;
  }

  lemma NothingLogged(l: Layout, s: Fs, i: nat, bn: nat)
    requires Inv(l, s) && i < |s.mem| && bn < MAXFILE
    ensures Addr(s, i, SlotOf(bn)) != 0 ==> MapLogs(l, s, s, i, bn) == {}
  {
    SlotInv(l, s, i, INDIRECT);
  }

  /** What filling slot `k` logs. */
  ghost function FillLogs(l: Layout, s: Fs, t: Fs, i: nat, k: nat): (logged: set<nat>)
    requires i < |s.mem| == |t.mem| && k < NSLOTS
  {
    SlotLogs(l, s, t, i, k) + if k > INDIRECT && Addr(s, i, k) == 0 then {Addr(s, i, INDIRECT)} else {}
  }

  lemma GrownLogs(l: Layout, s: Fs, t: Fs, i: nat, k: nat, before: set<nat>)
    requires i < |s.mem| == |t.mem| && k < NSLOTS
    ensures Addr(s, i, k) == 0 ==>
      before + {BBlock(l, Addr(t, i, k)), Addr(t, i, k)} + (if k > INDIRECT then {Addr(s, i, INDIRECT)} else {}) ==
      before + FillLogs(l, s, t, i, k)
    ensures Addr(s, i, k) != 0 ==> before + FillLogs(l, s, t, i, k) == before
  {
    hide Addr, BBlock;
  }

  lemma DirectLogs(l: Layout, s: Fs, t: Fs, i: nat, bn: nat)
    requires i < |s.mem| == |t.mem| && bn < NDIRECT
    ensures MapLogs(l, s, t, i, bn) == FillLogs(l, s, t, i, bn)
  {
    hide Addr, BBlock;
  }

  /** The two halves of `bmap` for a block behind the indirect block. */
  lemma IndirectLogs(l: Layout, s: Fs, t: Fs, u: Fs, i: nat, bn: nat, before: set<nat>)
    requires i < |s.mem| == |t.mem| == |u.mem| && NDIRECT <= bn < MAXFILE
    requires Addr(u, i, INDIRECT) == Addr(t, i, INDIRECT) && Addr(t, i, SlotOf(bn)) == Addr(s, i, SlotOf(bn))
    ensures before + FillLogs(l, s, t, i, INDIRECT) + FillLogs(l, t, u, i, SlotOf(bn)) ==
            before + MapLogs(l, s, u, i, bn)
  {
    hide Addr, BBlock;
  }

  /** A piece of a block is a piece of the file. */
  lemma ChunkBytes(l: Layout, s: Fs, i: nat, at: nat, m: nat)
    requires Inv(l, s) && i < |s.mem| && Mapped(s, i) && at + m <= s.mem[i].size && at < s.mem[i].size
    requires at % BSIZE + m <= BSIZE
    ensures at / BSIZE < MAXFILE && Addr(s, i, SlotOf(at / BSIZE)) < |s.disk|
    ensures var a := Addr(s, i, SlotOf(at / BSIZE));
            |Contents(s, i)| == s.mem[i].size &&
            forall from :: 0 <= from <= at ==>
              Contents(s, i)[from..at] + s.disk[a][at % BSIZE..at % BSIZE + m] == Contents(s, i)[from..at + m]
  {
    hide Addr, Inv;
    Chunk(s, i, at, s.mem[i].size);
    var a := Addr(s, i, SlotOf(at / BSIZE));
    SlotInv(l, s, i, SlotOf(at / BSIZE));
    forall o | at <= o < at + m
      ensures ByteAt(s, i, o) == s.disk[a][at % BSIZE + (o - at)]
    {
      SameBlock(at, m, o);
    }
    var c := Contents(s, i);
    assert c[at..at + m] == s.disk[a][at % BSIZE..at % BSIZE + m];
    assert forall from :: 0 <= from <= at ==> c[from..at] + c[at..at + m] == c[from..at + m];
  }

  lemma ExtendsInv(l: Layout, s: Fs, t: Fs, i: nat)
    requires Extends(l, s, t, i)
    ensures Inv(l, s) && Inv(l, t) && |s.mem| == |t.mem| && i < |s.mem|
    ensures t.mem[i].size == s.mem[i].size && t.mem[i].kind == s.mem[i].kind
  {
    hide Inv;
  }

  /** Writing a data block changes no slot. */
  lemma StoredSlots(l: Layout, s: Fs, t: Fs, u: Fs, i: nat, bn: nat, a: nat)
    requires Inv(l, t) && i < |s.mem| == |t.mem| && bn < MAXFILE && a == Addr(t, i, SlotOf(bn)) != 0 && a < |t.disk|
    requires a < |u.disk| && u == Stored(t, a, u.disk[a])
    ensures Addr(u, i, SlotOf(bn)) == a
    ensures Only(s, t, i, bn) ==> Only(s, u, i, bn)
    ensures MapLogs(l, s, u, i, bn) == MapLogs(l, s, t, i, bn)
  {
    hide Inv, Addr, Quiet;
    StoredQuiet(l, t, i, bn, u.disk[a]);
    forall m: nat | m < NSLOTS
      ensures Addr(u, i, m) == Addr(t, i, m)
    {
      QuietAddr(l, t, u, i, m);
    }
  }

  /** The loop of `writei` has done `k` blocks. */
  ghost predicate Progress(l: Layout, s: Fs, t: Fs, i: nat, lo: nat, k: nat, before: set<nat>, logged: set<nat>)
    requires i < |s.mem| == |t.mem| && lo + k <= MAXFILE
  {
    && There(t, i, lo, k) && SoFar(s, t, i, lo, k) && Kept(s, t, i)
    && logged == before + LogsTo(l, s, t, i, lo, k)
  }

  /** The loop of `writei` has written `tot` bytes. */
  ghost predicate Writing(l: Layout, s: Fs, t: Fs, i: nat, off: nat, src: seq<Byte>, tot: nat, before: set<nat>,
                          logged: set<nat>)
    requires tot <= |src| && off / BSIZE + BlocksOf(off, tot) <= MAXFILE
  {
    && i < |s.mem| == |t.mem| && Extends(l, s, t, i) && Wrote(s, t, i, off, src[..tot])
    && Progress(l, s, t, i, off / BSIZE, BlocksOf(off, tot), before, logged)
    && (tot == 0 ==> t == s && logged == before)
    && (Mapped(s, i) && off + |src| <= s.mem[i].size ==> t.mem == s.mem)
    && Allocates(l, s, t, Wanted(i, off, tot)) && LogStep(l, s.disk, before, t.disk, logged)
  }

  lemma WritingStart(l: Layout, s: Fs, i: nat, off: nat, src: seq<Byte>, logged: set<nat>)
    requires Inv(l, s) && i < |s.mem| && off / BSIZE <= MAXFILE
    ensures Writing(l, s, s, i, off, src, 0, logged, logged)
  {
    hide Inv, Addr, Extends, Wrote, Mapped, Progress, Allocates, Wanted;
    ExtendsItself(l, s, i);
    WroteNothing(s, i);
    WroteEmpty(s, s, i, 0, off);
    ProgressStart(l, s, i, off / BSIZE, logged);
    AllocatesNothing(l, s);
    WantedNothing(i, off);
  }

  lemma WritingFull(l: Layout, s: Fs, t: Fs, i: nat, off: nat, src: seq<Byte>, tot: nat, m: nat, before: set<nat>,
                    logged: set<nat>)
    requires tot + m <= |src| && off / BSIZE + BlocksOf(off, tot) <= MAXFILE
    requires Writing(l, s, t, i, off, src, tot, before, logged)
    requires 0 < m && off + tot < MAXFILE * BSIZE && (off + tot) % BSIZE + m <= BSIZE
    requires |Taken(t) + BlockWants(i, (off + tot) / BSIZE)| > Room(l)
    ensures |Taken(s) + Wanted(i, off, |src|)| > Room(l)
  {
    hide Extends, Wrote, Mapped, Progress, Allocates, Wanted, Taken, BlockWants, LogStep;
    NoRoomFor(l, s, t, i, off, tot, m, |src|);
  }

  lemma WritingNext(l: Layout, s: Fs, t: Fs, u: Fs, i: nat, off: nat, src: seq<Byte>, tot: nat, m: nat,
                    before: set<nat>, logged: set<nat>, after: set<nat>)
    requires tot + m <= |src| && off + |src| <= MAXFILE * BSIZE && 0 < m && (off + tot) % BSIZE + m <= BSIZE
    requires off / BSIZE + BlocksOf(off, tot) == (off + tot) / BSIZE < MAXFILE
    requires BlocksOf(off, tot + m) == BlocksOf(off, tot) + 1
    requires Writing(l, s, t, i, off, src, tot, before, logged) && |t.mem| == |u.mem|
    requires var bn := (off + tot) / BSIZE;
             && Extends(l, t, u, i) && Wrote(t, u, i, off + tot, src[tot..tot + m])
             && Addr(u, i, SlotOf(bn)) != 0 && Only(t, u, i, bn) && after == logged + BlockLogs(l, t, u, i, bn)
             && Allocates(l, t, u, BlockWants(i, bn)) && LogStep(l, t.disk, logged, u.disk, after)
             && (Addr(t, i, SlotOf(bn)) != 0 ==> u.mem == t.mem)
    ensures Writing(l, s, u, i, off, src, tot + m, before, after) && Inv(l, u)
  {
    hide Inv, Addr, Extends, Wrote, Only, Mapped, Progress, Allocates, Wanted, BlockWants, LogStep, BlockLogs;
    ExtendsInv(l, t, u, i);
    ExtendsInv(l, s, t, i);
    ExtendsThen(l, s, t, u, i);
    if Mapped(s, i) && off + |src| <= s.mem[i].size {
      ExtendsMapped(l, s, t, i, i);
      Chunk(t, i, off + tot, t.mem[i].size);
    }
    WroteMore(s, t, u, i, off, src[..tot], src[tot..tot + m]);
    assert src[..tot] + src[tot..tot + m] == src[..tot + m];
    ProgressNext(l, s, t, u, i, off / BSIZE, BlocksOf(off, tot), before, logged, after);
    WantedStep(i, off, tot, m);
    AllocatesThen(l, s, t, u, Wanted(i, off, tot), BlockWants(i, (off + tot) / BSIZE));
    LogStepThen(l, s.disk, before, t.disk, logged, u.disk, after);
  }

  lemma WritingDone(l: Layout, s: Fs, t: Fs, i: nat, off: nat, src: seq<Byte>, before: set<nat>, logged: set<nat>)
    requires off / BSIZE + BlocksOf(off, |src|) <= MAXFILE && Writing(l, s, t, i, off, src, |src|, before, logged)
    ensures Extends(l, s, t, i) && Wrote(s, t, i, off, src) && There(t, i, off / BSIZE, BlocksOf(off, |src|))
    ensures logged == before + LogsTo(l, s, t, i, off / BSIZE, BlocksOf(off, |src|))
    ensures src == [] ==> t == s && logged == before
    ensures Mapped(s, i) && off + |src| <= s.mem[i].size ==> t.mem == s.mem
    ensures Allocates(l, s, t, Wanted(i, off, |src|)) && LogStep(l, s.disk, before, t.disk, logged)
    ensures |Taken(s) + Wanted(i, off, |src|)| <= Room(l)
  {
    hide Extends, Wrote, There, LogsTo, Mapped, Allocates, Wanted, LogStep, Taken, SoFar, Kept;
    assert src[..|src|] == src;
    AllocatesFits(l, s, t, Wanted(i, off, |src|));
  }

  lemma ProgressStart(l: Layout, s: Fs, i: nat, lo: nat, logged: set<nat>)
    requires i < |s.mem| && lo <= MAXFILE
    ensures Progress(l, s, s, i, lo, 0, logged, logged)
  {
    hide Addr;
  }

  lemma ProgressNext(l: Layout, s: Fs, t: Fs, u: Fs, i: nat, lo: nat, k: nat, before: set<nat>, logged: set<nat>,
                     after: set<nat>)
    requires i < |s.mem| == |t.mem| == |u.mem| && lo + k < MAXFILE
    requires Progress(l, s, t, i, lo, k, before, logged) && Extends(l, t, u, i) && Only(t, u, i, lo + k)
    requires Addr(u, i, SlotOf(lo + k)) != 0 && after == logged + BlockLogs(l, t, u, i, lo + k)
    ensures Progress(l, s, u, i, lo, k + 1, before, after)
  {
    hide LogsTo, BlockLogs, There, SoFar, Extends, Only, Kept, Addr;
    ExtendsKept(l, t, u, i);
    NeedsIndirect(l, u, i, lo + k);
    LogsNext(l, s, t, u, i, lo, k);
  }

  lemma ExtendsKept(l: Layout, t: Fs, u: Fs, i: nat)
    requires Extends(l, t, u, i)
    ensures i < |t.mem| == |u.mem| && Kept(t, u, i)
  {
    hide Addr, Inv, Synced;
    forall m: nat | m < NSLOTS && Addr(t, i, m) != 0
      ensures Addr(u, i, m) == Addr(t, i, m)
    {
      assert KeepsSlot(t, u, i, i, m);
    }
  }

  lemma NeedsIndirect(l: Layout, u: Fs, i: nat, bn: nat)
    requires i < |u.mem| && bn < MAXFILE
    ensures bn >= NDIRECT && Addr(u, i, SlotOf(bn)) != 0 ==> Addr(u, i, INDIRECT) != 0
  {
  }

  lemma NextBlock(off: nat, tot: nat, m: nat, n: nat)
    requires tot < n && off + n <= MAXFILE * BSIZE && m == Min(n - tot, BSIZE - (off + tot) % BSIZE)
    requires tot == 0 || (off + tot) % BSIZE == 0
    ensures off / BSIZE + BlocksOf(off, tot) == (off + tot) / BSIZE < MAXFILE
    ensures m > 0 && BlocksOf(off, tot + m) == BlocksOf(off, tot) + 1
    ensures tot + m == n || (off + tot + m) % BSIZE == 0
  {
  }

  /** The inodes are the same, apart from the size and the blocks of inode `i`. */
  ghost predicate SameButSize(s: Fs, t: Fs, i: nat, size: nat)
  {
    && i < |s.mem| == |t.mem| && t.mem[i] == s.mem[i].(size := size, addrs := t.mem[i].addrs)
    && forall j :: 0 <= j < |s.mem| && j != i ==> t.mem[j] == s.mem[j]
  }

  lemma MappedSize(s: Fs, i: nat)
    requires i < |s.mem| && Mapped(s, i)
    ensures s.mem[i].size <= MAXFILE * BSIZE
  {
    hide Addr;
  }

  lemma ExtendsSame(l: Layout, s: Fs, t: Fs, i: nat)
    requires Extends(l, s, t, i)
    ensures SameButSize(s, t, i, s.mem[i].size)
  {
    hide Inv, Addr, Synced;
  }

  lemma FinishedSame(l: Layout, s: Fs, t: Fs, i: nat, size: nat)
    requires Inv(l, t) && size < WORD_LIMIT && i < |s.mem| && SameButSize(s, t, i, s.mem[i].size)
    ensures SameButSize(s, Finished(l, t, i, size), i, size)
  {
    hide Inv, Finished;
    FinishedInv(l, t, i, size);
  }

  lemma WrittenThere(t: Fs, i: nat, off: nat, n: nat)
    requires i < |t.mem| && 0 < n && off / BSIZE + BlocksOf(off, n) <= MAXFILE
    requires There(t, i, off / BSIZE, BlocksOf(off, n))
    ensures forall bn {:trigger SlotOf(bn)} ::
      off / BSIZE <= bn < MAXFILE && bn * BSIZE < off + n ==> Addr(t, i, SlotOf(bn)) != 0
  {
    hide Addr;
    forall bn | off / BSIZE <= bn < MAXFILE && bn * BSIZE < off + n
      ensures Addr(t, i, SlotOf(bn)) != 0
    {
      assert bn <= (off + n - 1) / BSIZE;
    }
  }

  lemma {:induction false} FinishedLogs(l: Layout, s: Fs, t: Fs, i: nat, size: nat, lo: nat, k: nat)
    requires Inv(l, t) && size < WORD_LIMIT && i < |s.mem| == |t.mem| && lo + k <= MAXFILE
    ensures LogsTo(l, s, Finished(l, t, i, size), i, lo, k) == LogsTo(l, s, t, i, lo, k)
  {
    hide Inv, Addr, Finished;
    if k > 0 {
      FinishedLogs(l, s, t, i, size, lo, k - 1);
      FinishedAddr(l, t, i, size, i, SlotOf(lo + k - 1));
      FinishedAddr(l, t, i, size, i, INDIRECT);
    }
  }

  /** The first `q` addresses set to 0. */
  function Cleared(addrs: seq<nat>, q: nat): (r: seq<nat>)
    ensures |r| == |addrs| && forall m :: 0 <= m < |addrs| ==> r[m] == if m < q then 0 else addrs[m]
  {
    seq(|addrs|, m requires 0 <= m < |addrs| => if m < q then 0 else addrs[m])
  }

  lemma ClearedNothing(addrs: seq<nat>)
    ensures Cleared(addrs, 0) == addrs
  {
  }

  lemma ClearedNext(addrs: seq<nat>, q: nat)
    requires q < |addrs|
    ensures Cleared(addrs, q)[q] == addrs[q] && Cleared(addrs, q)[q := 0] == Cleared(addrs, q + 1)
    ensures addrs[q] == 0 ==> Cleared(addrs, q) == Cleared(addrs, q + 1)
  {
  }

  /** The inodes with the first `q` addresses of inode `i` cleared. */
  ghost function ClearedTo(s: Fs, i: nat, q: nat): (mem: seq<Inode>)
    requires i < |s.mem|
  {
    s.mem[i := s.mem[i].(addrs := Cleared(s.mem[i].addrs, q))]
  }

  lemma ClearedIs(l: Layout, s: Fs, t: Fs, i: nat, q: nat)
    requires Shape(l, s) && |t.disk| == |s.disk| && i < |s.mem| && t.mem == ClearedTo(s, i, q) && q < NDIRECT
    ensures Shape(l, t) && |t.mem| == |s.mem| && q < |t.mem[i].addrs| && IsInode(s.mem[i])
    ensures Addr(s, i, SlotAt(q)) == t.mem[i].addrs[q]
    ensures t.mem[i := t.mem[i].(addrs := t.mem[i].addrs[q := 0])] == ClearedTo(s, i, q + 1)
  {
    assert IsInode(s.mem[i]);
    ClearedNext(s.mem[i].addrs, q);
    SameShape(l, s, t, i);
  }

  lemma SameShape(l: Layout, s: Fs, t: Fs, i: nat)
    requires Shape(l, s) && |t.disk| == |s.disk| && i < |s.mem| && |t.mem| == |s.mem|
    requires |t.mem[i].addrs| == NDIRECT + 1 && AreWords(t.mem[i].addrs)
    requires t.mem == s.mem[i := s.mem[i].(addrs := t.mem[i].addrs)]
    ensures Shape(l, t)
  {
    assert IsInode(s.mem[i]);
    forall j | 0 <= j < |t.mem|
      ensures IsInode(t.mem[j])
    {
      assert IsInode(s.mem[j]);
    }
  }

  /** Freeing touches the free map only. */
  lemma FreeingData(l: Layout, s: Fs, d: seq<Block>, i: nat, q: nat, x: nat)
    requires Shape(l, s) && q <= NSLOTS && Freeing(l, s, d, i, q) && l.nmeta <= x < l.size
    ensures d[x] == s.disk[x]
  {
  }

  /** Without an indirect block the other slots are empty. */
  lemma {:induction false} NoIndirect(l: Layout, s: Fs, d: seq<Block>, i: nat, q: nat)
    requires Inv(l, s) && i < |s.mem| && NDIRECT <= q <= NSLOTS && Freeing(l, s, d, i, q) && Addr(s, i, INDIRECT) == 0
    ensures Freeing(l, s, d, i, NSLOTS)
    decreases NSLOTS - q
  {
    hide Inv, Freeing, Used, Word;
    if q < NSLOTS {
      SlotInv(l, s, i, 0);
      assert Addr(s, i, SlotAt(q)) == 0;
      FreeNext(l, s, d, i, q);
      NoIndirect(l, s, d, i, q + 1);
    }
  }

  lemma FileSize(s: Fs, i: nat)
    requires GoodSized(s) && i < |s.mem|
    ensures |Files(s)[i]| == s.mem[i].size
  {
    hide Contents;
  }

  const NO_INODE: Inode := Inode(0, 0, 0, NO_ADDRS)

  lemma NoneUsed(l: Layout, disk: seq<Block>)
    requires ValidLayout(l) && |disk| == l.size && forall x :: 0 <= x < l.size ==> disk[x] == Zeros()
    ensures forall x: nat :: x < l.size ==> !Used(l, disk, x)
  {
    forall x: nat | x < l.size
      ensures !Used(l, disk, x)
    {
      BlocksInRange(l, 0, x);
      ZeroBit(x % BPB % 8);
    }
  }

  lemma {:induction false} ZeroBit(k: nat)
    ensures !BitOf(0, k)
  {
    if k > 0 {
      ZeroBit(k - 1);
    }
  }

  lemma EmptyGood(l: Layout, s: Fs)
    requires ValidLayout(l) && |s.disk| == l.size && |s.mem| == l.ninodes
    requires forall i :: 0 <= i < |s.mem| ==> s.mem[i] == NO_INODE
    requires forall x :: 0 <= x < l.bmapstart ==> s.disk[x] == Zeros()
    requires forall x: nat :: x < l.size ==> (Used(l, s.disk, x) <==> x < l.nmeta)
    ensures Good(l, s)
  {
    hide Used, Word;
    assert IsInode(NO_INODE);
    assert forall i: nat, k: nat :: i < |s.mem| && k < NSLOTS ==> Addr(s, i, k) == 0;
    forall x: nat | x < l.size
      ensures BitOk(l, s, x)
    {
    }
    forall j: nat | j < |s.mem|
      ensures FileOk(l, s, j)
    {
      BlocksInRange(l, j, 0);
      forall q | 0 <= q < INODE_WORDS
        ensures Word(s.disk[IBlock(l, j)], INODE_WORDS * (j % IPB) + q) == InodeWords(s.mem[j])[q]
      {
        ZeroWord(INODE_WORDS * (j % IPB) + q);
      }
    }
  }

  lemma BitPlace(l: Layout, b: nat, bi: nat)
    requires b % BPB == 0 && bi < BPB
    ensures BBlock(l, b + bi) == BBlock(l, b) && (b + bi) % BPB == bi
  {
  }
}
