/**
 The buffer cache over a synchronous disk. Every method is one atomic step of
 some process (the cache lock or a buffer's sleep lock is held throughout), so
 an interleaving of processes is a sequence of calls.
 */
module BufferCache {
  import opened Blocks
  import opened CrashLog
  import opened LruRing
  import opened Params

  const DISK: nat := 1  // the only device

  datatype Buf = Buf(dev: nat, blockno: nat, valid: bool, dirty: bool, refcnt: nat, locked: bool, data: Block)

  predicate Caches(b: Buf, blockno: nat)
  {
    b.dev == DISK && b.blockno == blockno
  }

  predicate Pinned(b: Buf)
  {
    b.refcnt != 0 || b.dirty
  }

  predicate Cached(bufs: seq<Buf>, blockno: nat)
  {
    exists i :: 0 <= i < |bufs| && Caches(bufs[i], blockno)
  }

  /** Somebody has locked the block's buffer. */
  predicate HeldByOther(bufs: seq<Buf>, blockno: nat)
  {
    exists i :: 0 <= i < |bufs| && Caches(bufs[i], blockno) && bufs[i].locked
  }

  predicate AllPinned(bufs: seq<Buf>)
  {
    forall i :: 0 <= i < |bufs| ==> Pinned(bufs[i])
  }

  ghost predicate SameBlock(bufs: seq<Buf>, i: nat, j: nat)
    requires i < |bufs| && j < |bufs|
  {
    bufs[i].dev == DISK && bufs[j].dev == DISK && bufs[i].blockno == bufs[j].blockno
  }

  /** Each block of the disk has at most one buffer. */
  ghost predicate Unique(bufs: seq<Buf>)
  {
    forall i: nat, j: nat :: i < j < |bufs| ==> !SameBlock(bufs, i, j)
  }

  /** What the flags of one buffer promise about it. */
  ghost predicate BufOk(bufs: seq<Buf>, i: nat, changed: set<nat>, disk: Disk, latest: Disk)
    requires i < |bufs|
  {
    BufferOk(bufs[i], i in changed, disk, latest)
  }

  ghost predicate BufferOk(b: Buf, changed: bool, disk: Disk, latest: Disk)
  {
    && (b.dev == DISK ==> b.blockno < |disk| == |latest|)
    && (b.dirty ==> b.dev == DISK && b.valid)
    && (b.refcnt > 0 ==> b.dev == DISK)
    && (b.locked ==> b.refcnt > 0)
    && (changed ==> b.locked && b.valid)
    && (b.dev == DISK && b.valid ==> b.data == latest[b.blockno])
    && (b.dev == DISK && b.valid && !b.dirty && !changed ==> b.data == disk[b.blockno])
  }

  /** A block that has no valid buffer is up to date on the disk. */
  ghost predicate UpToDate(bufs: seq<Buf>, disk: Disk, latest: Disk, b: nat)
    requires b < |disk| == |latest|
  {
    disk[b] == latest[b] || exists i :: 0 <= i < |bufs| && Caches(bufs[i], b) && bufs[i].valid
  }

  /** The state invariant. `latest` is the content last given to each block, by
      whoever held its buffer; `changed` are the buffers whose holder has
      changed the data and has neither logged nor written it yet. */
  ghost predicate Coherent(bufs: seq<Buf>, disk: Disk, latest: Disk, changed: set<nat>)
  {
    && |latest| == |disk|
    && Unique(bufs)
    && (forall i :: i in changed ==> i < |bufs|)
    && (forall i: nat :: i < |bufs| ==> BufOk(bufs, i, changed, disk, latest))
    && (forall b: nat :: b < |disk| ==> UpToDate(bufs, disk, latest, b))
  }

  /** The content a reader of block `b` must see. */
  lemma CoherentBlock(bufs: seq<Buf>, disk: Disk, latest: Disk, changed: set<nat>, i: nat)
    requires Coherent(bufs, disk, latest, changed) && i < |bufs| && bufs[i].dev == DISK
    ensures bufs[i].blockno < |disk|
    ensures !bufs[i].valid ==> disk[bufs[i].blockno] == latest[bufs[i].blockno]
  {
    assert BufOk(bufs, i, changed, disk, latest);
    assert UpToDate(bufs, disk, latest, bufs[i].blockno);
    UniqueElsewhere(bufs, i, bufs[i].blockno);
  }

  /** Replacing a buffer keeps coherence when the buffer itself is in order and
      no valid copy of another block is lost. */
  lemma CoherentUpdate(bufs: seq<Buf>, disk: Disk, latest: Disk, changed: set<nat>, i: nat, b: Buf, changed': set<nat>)
    requires Coherent(bufs, disk, latest, changed) && i < |bufs|
    requires BufferOk(b, i in changed', disk, latest)
    requires changed - {i} == changed' - {i}
    requires b.dev == DISK ==> forall j :: 0 <= j < |bufs| && j != i ==> !Caches(bufs[j], b.blockno)
    requires BufOk(bufs, i, changed, disk, latest)
    requires bufs[i].dev == DISK && bufs[i].valid ==>
               (Caches(b, bufs[i].blockno) && b.valid) || disk[bufs[i].blockno] == latest[bufs[i].blockno]
    ensures Coherent(bufs[i := b], disk, latest, changed')
  {
    var bufs' := bufs[i := b];
    forall j: nat, k: nat | j < k < |bufs'|
      ensures !SameBlock(bufs', j, k)
    {
      assert !SameBlock(bufs, j, k);
    }
    forall j | 0 <= j < |bufs'|
      ensures BufOk(bufs', j, changed', disk, latest)
    {
      assert BufOk(bufs, j, changed, disk, latest);
      assert j != i ==> (j in changed <==> j in changed - {i}) && (j in changed' <==> j in changed' - {i});
    }
    forall k | k in changed'
      ensures k < |bufs'|
    {
      assert k != i ==> k in changed' - {i};
    }
    forall n | 0 <= n < |disk|
      ensures UpToDate(bufs', disk, latest, n)
    {
      assert UpToDate(bufs, disk, latest, n);
      if disk[n] != latest[n] {
        var k :| 0 <= k < |bufs| && Caches(bufs[k], n) && bufs[k].valid;
        assert Caches(bufs'[k], n) && bufs'[k].valid;
      }
    }
  }

  lemma UniqueElsewhere(bufs: seq<Buf>, i: nat, blockno: nat)
    requires Unique(bufs) && i < |bufs| && Caches(bufs[i], blockno)
    ensures forall j :: 0 <= j < |bufs| && j != i ==> !Caches(bufs[j], blockno)
  {
    forall j | 0 <= j < |bufs| && j != i
      ensures !Caches(bufs[j], blockno)
    {
      assert if i < j then !SameBlock(bufs, i, j) else !SameBlock(bufs, j, i);
    }
  }

  /** A block has one buffer, so one holder. */
  lemma OneHolder(bufs: seq<Buf>, blockno: nat)
    requires Unique(bufs)
    ensures forall b :: 0 <= b < |bufs| && Caches(bufs[b], blockno) ==> (HeldByOther(bufs, blockno) <==> bufs[b].locked)
  {
    forall b | 0 <= b < |bufs| && Caches(bufs[b], blockno)
      ensures HeldByOther(bufs, blockno) <==> bufs[b].locked
    {
      UniqueElsewhere(bufs, b, blockno);
    }
  }

  lemma CoherentStore(bufs: seq<Buf>, disk: Disk, latest: Disk, changed: set<nat>, b: nat, data: Block)
    requires Coherent(bufs, disk, latest, changed) && b < |bufs|
    requires bufs[b].dev == DISK && bufs[b].locked && bufs[b].valid
    ensures bufs[b].blockno < |disk|
    ensures Coherent(bufs[b := bufs[b].(data := data)], disk, latest[bufs[b].blockno := data], changed + {b})
  {
    assert BufOk(bufs, b, changed, disk, latest);
    var n := bufs[b].blockno;
    var bufs', latest', changed' := bufs[b := bufs[b].(data := data)], latest[n := data], changed + {b};
    UniqueElsewhere(bufs, b, n);
    forall j: nat, k: nat | j < k < |bufs'|
      ensures !SameBlock(bufs', j, k)
    {
      assert !SameBlock(bufs, j, k);
    }
    forall j | 0 <= j < |bufs|
      ensures BufOk(bufs', j, changed', disk, latest')
    {
      assert BufOk(bufs, j, changed, disk, latest);
      assert j != b ==> !Caches(bufs[j], n);
    }
    forall m | 0 <= m < |disk|
      ensures UpToDate(bufs', disk, latest', m)
    {
      assert UpToDate(bufs, disk, latest, m);
      if m == n {
        assert Caches(bufs'[b], m) && bufs'[b].valid;
      } else if disk[m] != latest[m] {
        var k :| 0 <= k < |bufs| && Caches(bufs[k], m) && bufs[k].valid;
        assert Caches(bufs'[k], m) && bufs'[k].valid;
      }
    }
  }

  lemma CoherentWrite(bufs: seq<Buf>, disk: Disk, latest: Disk, changed: set<nat>, b: nat)
    requires Coherent(bufs, disk, latest, changed) && b < |bufs|
    requires bufs[b].dev == DISK && bufs[b].locked && bufs[b].valid
    ensures bufs[b].blockno < |disk|
    ensures Coherent(bufs[b := bufs[b].(dirty := false)], disk[bufs[b].blockno := bufs[b].data], latest, changed - {b})
  {
    assert BufOk(bufs, b, changed, disk, latest);
    var n := bufs[b].blockno;
    var bufs', disk', changed' := bufs[b := bufs[b].(dirty := false)], disk[n := bufs[b].data], changed - {b};
    UniqueElsewhere(bufs, b, n);
    forall j: nat, k: nat | j < k < |bufs'|
      ensures !SameBlock(bufs', j, k)
    {
      assert !SameBlock(bufs, j, k);
    }
    forall j | 0 <= j < |bufs|
      ensures BufOk(bufs', j, changed', disk', latest)
    {
      assert BufOk(bufs, j, changed, disk, latest);
      assert j != b ==> !Caches(bufs[j], n);
    }
    forall m | 0 <= m < |disk|
      ensures UpToDate(bufs', disk', latest, m)
    {
      assert UpToDate(bufs, disk, latest, m);
      if m != n && disk[m] != latest[m] {
        var k :| 0 <= k < |bufs| && Caches(bufs[k], m) && bufs[k].valid;
        assert Caches(bufs'[k], m) && bufs'[k].valid;
      }
    }
  }

  /** What a cache and its disk hold, apart from which buffers hold it. */
  datatype Contents = Contents(disk: Disk, latest: Disk, history: seq<Write>)

  class Cache {
    const ring: Ring
    var bufs: seq<Buf>
    var disk: Disk
    ghost var history: seq<Write>  // the block writes performed so far
    ghost var latest: Disk
    ghost var changed: set<nat>

    ghost predicate Valid()
      reads this, ring, ring.next, ring.prev
    {
      && ring.Valid() && ring.Complete() && ring.head == NBUF == |bufs|
      && Coherent(bufs, disk, latest, changed)
    }

    /** Nobody uses a buffer. */
    ghost predicate Quiet()
      reads this
    {
      changed == {} && forall i :: 0 <= i < |bufs| ==> bufs[i].refcnt == 0
    }

    ghost function View(): (v: Contents)
      reads this
    {
      Contents(disk, latest, history)
    }

    /** `b` is a locked, valid buffer of block `blockno`. */
    ghost predicate Holds(b: nat, blockno: nat)
      reads this
    {
      b < |bufs| && Caches(bufs[b], blockno) && bufs[b].valid && bufs[b].locked
    }

    constructor (image: Disk)
      ensures Valid() && Quiet() && disk == latest == image && history == []
      ensures forall i :: 0 <= i < NBUF ==> !bufs[i].dirty && bufs[i].dev == 0
      ensures fresh(ring) && fresh(ring.next) && fresh(ring.prev)
    {
      ring := new Ring(NBUF);
      bufs := seq(NBUF, i => Buf(0, 0, false, false, 0, false, Zeros()));
      disk := image;
      history := [];
      latest := image;
      changed := {};
    }

    /** Looks a block up, or recycles the least recently used buffer that is
        neither referenced nor dirty. -1 stands for the panic "no buffers". */
    method Bget(blockno: nat) returns (b: int)
      requires Valid() && blockno < |disk|
      modifies this`bufs
      ensures Valid() && -1 <= b < NBUF
      ensures b == -1 <==> !Cached(old(bufs), blockno) && AllPinned(old(bufs))
      ensures b == -1 ==> bufs == old(bufs)
      ensures b >= 0 && Cached(old(bufs), blockno) ==>
                Caches(old(bufs)[b], blockno) &&
                bufs == old(bufs)[b := old(bufs)[b].(refcnt := old(bufs)[b].refcnt + 1)]
      ensures b >= 0 && !Cached(old(bufs), blockno) ==>
                !Pinned(old(bufs)[b]) &&
                bufs == old(bufs)[b := Buf(DISK, blockno, false, false, 1, false, old(bufs)[b].data)]
      ensures b >= 0 && !Cached(old(bufs), blockno) ==>
                exists p :: 0 <= p < NBUF && ring.order[p] == b &&
                  forall q :: p < q < NBUF ==> Pinned(old(bufs)[ring.order[q]])
    {
      b := FindCached(blockno);
      if b >= 0 {
        assert BufOk(bufs, b, changed, disk, latest);
        UniqueElsewhere(bufs, b, blockno);
        CoherentUpdate(bufs, disk, latest, changed, b, bufs[b].(refcnt := bufs[b].refcnt + 1), changed);
        bufs := bufs[b := bufs[b].(refcnt := bufs[b].refcnt + 1)];
      } else {
        b := FindUnused();
        if b >= 0 {
          assert BufOk(bufs, b, changed, disk, latest);
          var recycled := Buf(DISK, blockno, false, false, 1, false, bufs[b].data);
          CoherentUpdate(bufs, disk, latest, changed, b, recycled, changed);
          bufs := bufs[b := recycled];
        }
      }
    }

    /** `acquiresleep` on a buffer one has a reference to, once it is free. */
    method Lock(b: nat)
      requires Valid() && b < NBUF && bufs[b].refcnt > 0 && !bufs[b].locked
      modifies this`bufs
      ensures Valid() && bufs == old(bufs)[b := old(bufs)[b].(locked := true)]
    {
      assert BufOk(bufs, b, changed, disk, latest);
      UniqueElsewhere(bufs, b, bufs[b].blockno);
      CoherentUpdate(bufs, disk, latest, changed, b, bufs[b].(locked := true), changed);
      bufs := bufs[b := bufs[b].(locked := true)];
    }

    /** `iderw` on a buffer that is not valid: the block is read. */
    method ReadDisk(b: nat)
      requires Valid() && b < NBUF && bufs[b].locked && !bufs[b].valid
      modifies this`bufs
      ensures Valid() && old(bufs)[b].blockno < |disk|
      ensures bufs == old(bufs)[b := old(bufs)[b].(valid := true, data := disk[old(bufs)[b].blockno])]
      ensures bufs[b].data == latest[bufs[b].blockno]
    {
      assert BufOk(bufs, b, changed, disk, latest);
      CoherentBlock(bufs, disk, latest, changed, b);
      var filled := bufs[b].(valid := true, data := disk[bufs[b].blockno]);
      UniqueElsewhere(bufs, b, bufs[b].blockno);
      CoherentUpdate(bufs, disk, latest, changed, b, filled, changed);
      bufs := bufs[b := filled];
    }

    /** A locked buffer with the latest content of the block: however often the
        block's buffer has been recycled, no update is lost. If somebody else has
        the buffer, the caller has a reference to it and waits. */
    method Bread(blockno: nat) returns (b: int, waits: bool)
      requires Valid() && blockno < |disk|
      modifies this`bufs
      ensures Valid() && -1 <= b < NBUF
      ensures b == -1 <==> !Cached(old(bufs), blockno) && AllPinned(old(bufs))
      ensures b == -1 ==> bufs == old(bufs)
      ensures waits <==> HeldByOther(old(bufs), blockno)
      ensures waits ==> b >= 0 && bufs == old(bufs)[b := old(bufs)[b].(refcnt := old(bufs)[b].refcnt + 1)]
      ensures b >= 0 ==> bufs == old(bufs)[b := bufs[b]] && Caches(bufs[b], blockno)
      ensures b >= 0 && !waits ==> Holds(b, blockno) && bufs[b].data == latest[blockno]
      ensures b >= 0 && Cached(old(bufs), blockno) ==>
                Caches(old(bufs)[b], blockno) &&
                bufs[b].refcnt == old(bufs)[b].refcnt + 1 && bufs[b].dirty == old(bufs)[b].dirty
      ensures b >= 0 && !Cached(old(bufs), blockno) ==>
                !Pinned(old(bufs)[b]) && bufs[b].refcnt == 1 && !bufs[b].dirty
    {
      ghost var was := bufs;
      b := Bget(blockno);
      waits := b >= 0 && bufs[b].locked;
      OneHolder(was, blockno);
      if b >= 0 && !waits {
        Lock(b);
        if !bufs[b].valid {
          ReadDisk(b);
        }
        assert BufOk(bufs, b, changed, disk, latest);
      }
    }

    /** The holder of a buffer changes its data. */
    method Store(b: nat, data: Block)
      requires Valid() && b < NBUF && bufs[b].locked && bufs[b].valid
      modifies this`bufs, this`latest, this`changed
      ensures Valid() && bufs[b].blockno < |disk|
      ensures bufs == old(bufs)[b := old(bufs)[b].(data := data)]
      ensures latest == old(latest)[bufs[b].blockno := data]
      ensures changed == old(changed) + {b}
    {
      assert BufOk(bufs, b, changed, disk, latest);
      CoherentStore(bufs, disk, latest, changed, b, data);
      latest := latest[bufs[b].blockno := data];
      changed := changed + {b};
      bufs := bufs[b := bufs[b].(data := data)];
    }

    /** The cache's part of `log_write`: the buffer is pinned until the commit. */
    method MarkDirty(b: nat)
      requires Valid() && b < NBUF && bufs[b].locked && bufs[b].valid
      modifies this`bufs, this`changed
      ensures Valid()
      ensures bufs == old(bufs)[b := old(bufs)[b].(dirty := true)]
      ensures changed == old(changed) - {b}
    {
      assert BufOk(bufs, b, changed, disk, latest);
      UniqueElsewhere(bufs, b, bufs[b].blockno);
      CoherentUpdate(bufs, disk, latest, changed, b, bufs[b].(dirty := true), changed - {b});
      changed := changed - {b};
      bufs := bufs[b := bufs[b].(dirty := true)];
    }

    /** Writes a held buffer to its block, which makes it clean. */
    method Bwrite(b: nat)
      requires Valid() && b < NBUF && bufs[b].locked && bufs[b].valid
      modifies this`bufs, this`disk, this`history, this`changed
      ensures Valid() && bufs[b].blockno < |disk|
      ensures bufs == old(bufs)[b := old(bufs)[b].(dirty := false)]
      ensures disk == old(disk)[bufs[b].blockno := bufs[b].data]
      ensures history == old(history) + [Write(bufs[b].blockno, bufs[b].data)]
      ensures changed == old(changed) - {b}
    {
      assert BufOk(bufs, b, changed, disk, latest);
      CoherentWrite(bufs, disk, latest, changed, b);
      disk := disk[bufs[b].blockno := bufs[b].data];
      history := history + [Write(bufs[b].blockno, bufs[b].data)];
      changed := changed - {b};
      bufs := bufs[b := bufs[b].(dirty := false)];
    }

    /** Gives a buffer back; its changes must have been logged or written. The
        last user makes it the most recently used. */
    method Brelse(b: nat)
      requires Valid() && b < NBUF && bufs[b].locked && b !in changed
      modifies this`bufs, ring, ring.next, ring.prev
      ensures Valid() && old(bufs)[b].refcnt > 0
      ensures bufs == old(bufs)[b := old(bufs)[b].(locked := false, refcnt := old(bufs)[b].refcnt - 1)]
      ensures bufs[b].refcnt == 0 ==>
                b in old(ring.order) && ring.order == [b] + Without(old(ring.order), IndexOf(old(ring.order), b))
      ensures bufs[b].refcnt != 0 ==> ring.order == old(ring.order)
    {
      assert BufOk(bufs, b, changed, disk, latest);
      var free := bufs[b].(locked := false, refcnt := bufs[b].refcnt - 1);
      UniqueElsewhere(bufs, b, bufs[b].blockno);
      CoherentUpdate(bufs, disk, latest, changed, b, free, changed);
      bufs := bufs[b := free];
      if free.refcnt == 0 {
        AllOnRing(ring.order);
        ring.MoveToFront(b);
      }
    }

    method FindCached(blockno: nat) returns (b: int)
      requires Valid()
      ensures -1 <= b < NBUF
      ensures b >= 0 ==> Caches(bufs[b], blockno)
      ensures b == -1 ==> !Cached(bufs, blockno)
    {
      ghost var i := 1;
      NodesInRange(ring.next[..], ring.prev[..], ring.order, ring.head, 0);
      var n := ring.next[ring.head];
      while n != ring.head
        invariant 1 <= i <= NBUF + 1 && n == At(ring.order, ring.head, i)
        invariant forall j :: 0 <= j < i - 1 ==> !Caches(bufs[ring.order[j]], blockno)
        decreases NBUF + 1 - i
      {
        if bufs[n].dev == DISK && bufs[n].blockno == blockno {
          return n;
        }
        NodesInRange(ring.next[..], ring.prev[..], ring.order, ring.head, i);
        n := ring.next[n];
        i := i + 1;
      }
      AllOnRing(ring.order);
      forall k | 0 <= k < NBUF
        ensures !Caches(bufs[k], blockno)
      {
        assert k in ring.order;
      }
      return -1;
    }

    method FindUnused() returns (b: int)
      requires Valid()
      ensures -1 <= b < NBUF
      ensures b >= 0 ==> !Pinned(bufs[b])
      ensures b >= 0 ==> exists p :: 0 <= p < NBUF && ring.order[p] == b &&
                           forall q :: p < q < NBUF ==> Pinned(bufs[ring.order[q]])
      ensures b == -1 ==> AllPinned(bufs)
    {
      ghost var i := NBUF;
      NodesInRange(ring.next[..], ring.prev[..], ring.order, ring.head, NBUF);
      var n := ring.prev[ring.head];
      while n != ring.head
        invariant 0 <= i <= NBUF && n == At(ring.order, ring.head, i)
        invariant forall j :: i <= j < NBUF ==> Pinned(bufs[ring.order[j]])
        decreases i
      {
        if bufs[n].refcnt == 0 && !bufs[n].dirty {
          assert ring.order[i - 1] == n;
          return n;
        }
        NodesInRange(ring.next[..], ring.prev[..], ring.order, ring.head, i - 1);
        n := ring.prev[n];
        i := i - 1;
      }
      AllOnRing(ring.order);
      forall k | 0 <= k < NBUF
        ensures Pinned(bufs[k])
      {
        assert k in ring.order;
      }
      return -1;
    }
  }

  /** A ring of all buffers misses none of them. */
  lemma AllOnRing(order: seq<nat>)
    requires |order| == NBUF && Distinct(order) && Members(order, NBUF)
    ensures forall k: nat :: k < NBUF ==> k in order
  {
    Pigeonhole(order, NBUF);
  }

  lemma {:induction false} Pigeonhole(order: seq<nat>, n: nat)
    requires |order| == n && Distinct(order) && Members(order, n)
    ensures forall k: nat :: k < n ==> k in order
    decreases n
  {
    if n != 0 {
      if n - 1 in order {
        var p := IndexOf(order, n - 1);
        Pigeonhole(Without(order, p), n - 1);
        forall k: nat | k < n
          ensures k in order
        {
          if k < n - 1 {
            assert k in Without(order, p);
          }
        }
      } else {
        Overfull(order, n - 1);
      }
    }
  }

  lemma {:induction false} Overfull(order: seq<nat>, n: nat)
    requires |order| > n && Distinct(order) && Members(order, n)
    ensures false
    decreases n
  {
    if n != 0 {
      if n - 1 in order {
        Overfull(Without(order, IndexOf(order, n - 1)), n - 1);
      } else {
        Overfull(order, n - 1);
      }
    }
  }
}
