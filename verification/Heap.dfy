/**
 The user-level allocator: a circular free list in address order whose
 neighbours are merged as soon as they touch (Kernighan and Ritchie, The C
 Programming Language, section 8.7). Memory is counted in header-sized units
 of eight bytes; a block is its header unit and the units after it.
 */
module Heap {
  import opened Counting

  const UNIT: nat := 8
  const MIN_GROWTH: nat := 4096
  const UINT: nat := 0x1_0000_0000

  type Fields = map<nat, nat>  // a header field of every header in memory

  // ---- The free list ----

  /** The link of free block `a`: to the next higher free block, or from the
      highest one back to the lowest, `base`. */
  ghost predicate Link(base: nat, free: set<nat>, ptr: Fields, a: nat)
  {
    && a in ptr && ptr[a] in free
    && if ptr[a] > a then forall c :: c in free ==> !(a < c < ptr[a])
       else ptr[a] == base && forall c :: c in free ==> c <= a
  }

  /** Free block `a` neither overlaps nor touches the free blocks above it. */
  ghost predicate Gap(base: nat, free: set<nat>, size: Fields, a: nat)
  {
    && a in size && (size[a] == 0 <==> a == base)
    && forall c :: c in free && a < c ==> a + size[a] < c
  }

  /** A ring in address order with one wrap, fully merged, from the empty block
      `base` at its bottom. */
  ghost predicate FreeList(base: nat, free: set<nat>, ptr: Fields, size: Fields)
  {
    && base in free && (forall a :: a in free ==> base <= a)
    && (forall a {:trigger Link(base, free, ptr, a)} :: a in free ==> Link(base, free, ptr, a))
    && (forall a {:trigger Gap(base, free, size, a)} :: a in free ==> Gap(base, free, size, a))
  }

  /** Unit `u` belongs to one of `blocks`. */
  ghost predicate Covers(blocks: set<nat>, size: Fields, u: nat)
  {
    exists a :: a in blocks && a in size && a <= u < a + size[a]
  }

  ghost predicate Disjoint(a: nat, m: nat, b: nat, n: nat)
  {
    a + m <= b || b + n <= a
  }

  /** An allocated block is intact and meets no other block. */
  ghost predicate Alone(base: nat, free: set<nat>, size: Fields, used: set<nat>, a: nat)
  {
    && a in size && size[a] > 0 && a > base
    && (forall c :: c in free ==> c != a && c in size && Disjoint(c, size[c], a, size[a]))
    && (forall c :: c in used && c != a ==> c in size && Disjoint(c, size[c], a, size[a]))
  }

  /** Free and allocated blocks partition the memory obtained. */
  ghost predicate Partition(base: nat, free: set<nat>, size: Fields, used: set<nat>, owned: set<nat>)
  {
    && (forall a {:trigger Alone(base, free, size, used, a)} :: a in used ==> Alone(base, free, size, used, a))
    && (forall u: nat {:trigger u in owned} :: u in owned <==> Covers(free, size, u) || Covers(used, size, u))
  }

  // ---- Going round the ring ----

  /** The free blocks strictly after `p` and before `b`, in ring order. */
  ghost function Between(free: set<nat>, p: nat, b: nat): (s: set<nat>)
    ensures s <= free
  {
    if p < b then set c | c in free && p < c < b
    else set c | c in free && (c > p || c < b)
  }

  lemma BetweenNext(base: nat, free: set<nat>, ptr: Fields, p: nat, b: nat)
    requires base in free && (forall a :: a in free ==> base <= a) && p in free && Link(base, free, ptr, p)
    requires base < b && b !in free && p != b
    requires !(p < b < ptr[p]) && !(p >= ptr[p] && (b > p || b < ptr[p]))
    ensures |Between(free, ptr[p], b)| < |Between(free, p, b)|
  {
    var q := ptr[p];
    assert q in Between(free, p, b);
    assert Between(free, q, b) <= Between(free, p, b) - {q};
    SubsetSize(Between(free, q, b), Between(free, p, b) - {q});
  }

  /** The free blocks after `p` up to and including `last`, in ring order. */
  ghost function Ahead(free: set<nat>, p: nat, last: nat): (s: set<nat>)
    ensures s <= free
  {
    if p <= last then set c | c in free && p < c <= last
    else set c | c in free && (c > p || c <= last)
  }

  lemma AheadNext(base: nat, free: set<nat>, ptr: Fields, p: nat, last: nat)
    requires base in free && (forall a :: a in free ==> base <= a) && p in free && last in free && p != last
    requires Link(base, free, ptr, p)
    ensures ptr[p] in Ahead(free, p, last)
    ensures Ahead(free, ptr[p], last) == Ahead(free, p, last) - {ptr[p]}
  {
  }

  lemma AheadAll(base: nat, free: set<nat>, ptr: Fields, p: nat)
    requires base in free && (forall a :: a in free ==> base <= a) && p in free && Link(base, free, ptr, p)
    ensures Ahead(free, ptr[p], p) + {ptr[p]} == free
  {
  }

  // ---- Putting a block back ----

  /** Block `b` belongs between the free block `p` and the one after it. */
  ghost predicate Place(base: nat, free: set<nat>, ptr: Fields, size: Fields, b: nat, p: nat)
  {
    && FreeList(base, free, ptr, size)
    && b in size && size[b] > 0 && base < b && b !in free
    && (forall c :: c in free ==> c in size && Disjoint(c, size[c], b, size[b]))
    && p in free && p < b && forall c :: c in free ==> !(p < c < b)
  }

  lemma PlaceFound(base: nat, free: set<nat>, ptr: Fields, p: nat, b: nat)
    requires base in free && (forall a :: a in free ==> base <= a) && p in free && Link(base, free, ptr, p)
    requires base < b && b !in free
    requires (p < b < ptr[p]) || (p >= ptr[p] && (b > p || b < ptr[p]))
    ensures p < b && forall c :: c in free ==> !(p < c < b)
  {
  }

  /** The heap's free part after a block has been put back. */
  datatype Freed = Freed(free: set<nat>, ptr: Fields, size: Fields)

  /** The upper neighbour, if the block touches it, is absorbed into it. */
  function JoinUp(free: set<nat>, ptr: Fields, size: Fields, b: nat, p: nat): (r: Freed)
    requires b in size && p in ptr && ptr[p] in ptr && ptr[p] in size
  {
    var next := ptr[p];
    if b + size[b] == next
    then Freed(free - {next} + {b}, ptr[b := ptr[next]], size[b := size[b] + size[next]])
    else Freed(free + {b}, ptr[b := next], size)
  }

  /** Then the block, if it touches the lower neighbour, is absorbed by it. */
  function JoinDown(f: Freed, b: nat, p: nat): (r: Freed)
    requires b in f.size && p in f.size && b in f.ptr
  {
    if p + f.size[p] == b
    then Freed(f.free - {b}, f.ptr[p := f.ptr[b]], f.size[p := f.size[p] + f.size[b]])
    else Freed(f.free, f.ptr[p := b], f.size)
  }

  /** What `JoinUp` leaves: a free list except that `b` may touch `p` below it
      and that `p` is not linked to it yet. */
  ghost predicate HalfJoined(base: nat, f: Freed, b: nat, p: nat)
  {
    && base in f.free && (forall a :: a in f.free ==> base <= a)
    && p in f.free && b in f.free && p < b && base < b && (forall c :: c in f.free ==> !(p < c < b))
    && (forall a {:trigger Link(base, f.free, f.ptr, a)} :: a in f.free && a != p ==> Link(base, f.free, f.ptr, a))
    && (forall a {:trigger Gap(base, f.free, f.size, a)} :: a in f.free && a != p ==> Gap(base, f.free, f.size, a))
    && p in f.size && (f.size[p] == 0 <==> p == base) && p + f.size[p] <= b
  }

  lemma PlaceNext(base: nat, free: set<nat>, ptr: Fields, size: Fields, b: nat, p: nat)
    requires Place(base, free, ptr, size, b, p)
    ensures Link(base, free, ptr, p) && Gap(base, free, size, p) && p + size[p] <= b
    ensures Link(base, free, ptr, ptr[p]) && Gap(base, free, size, ptr[p])
    ensures if ptr[p] > p then b + size[b] <= ptr[p] && forall c :: c in free ==> c <= p || c >= ptr[p]
            else ptr[p] == base && forall c :: c in free ==> c <= p
  {
    assert Link(base, free, ptr, p) && Gap(base, free, size, p);
    assert Link(base, free, ptr, ptr[p]) && Gap(base, free, size, ptr[p]);
  }

  lemma InsertLink(base: nat, free: set<nat>, ptr: Fields, b: nat, p: nat, a: nat)
    requires Link(base, free, ptr, p) && p in free && p < b && b !in free && (ptr[p] > p ==> b < ptr[p])
    requires base < b && a != p && (a == b || Link(base, free, ptr, a))
    requires a in free + {b}
    ensures Link(base, free + {b}, ptr[b := ptr[p]], a)
  {
  }

  lemma AbsorbLink(base: nat, free: set<nat>, ptr: Fields, b: nat, p: nat, a: nat)
    requires Link(base, free, ptr, p) && p in free && p < b < ptr[p] && Link(base, free, ptr, ptr[p])
    requires base <= p && b !in free && base in free && (forall c :: c in free ==> base <= c)
    requires a != p && (a == b || Link(base, free, ptr, a))
    requires a in free - {ptr[p]} + {b}
    ensures Link(base, free - {ptr[p]} + {b}, ptr[b := ptr[ptr[p]]], a)
  {
    if a != b {
      assert ptr[a] != ptr[p];
    }
  }

  lemma InsertGap(base: nat, free: set<nat>, size: Fields, b: nat, p: nat, a: nat)
    requires b in size && size[b] > 0 && base < b && p in free && p < b && (forall c :: c in free ==> !(p < c < b))
    requires forall c :: c in free && b < c ==> b + size[b] < c
    requires a != p && a in free + {b} && (a == b || Gap(base, free, size, a))
    ensures Gap(base, free + {b}, size, a)
  {
  }

  lemma AbsorbGap(base: nat, free: set<nat>, size: Fields, b: nat, p: nat, next: nat, a: nat)
    requires b in size && size[b] > 0 && base < b && p in free && p < b && (forall c :: c in free ==> !(p < c < b))
    requires next in free && b + size[b] == next && Gap(base, free, size, next)
    requires forall c :: c in free && b < c ==> next <= c
    requires a != p && a in free - {next} + {b} && (a == b || Gap(base, free, size, a))
    ensures Gap(base, free - {next} + {b}, size[b := size[b] + size[next]], a)
  {
  }

  lemma AbsorbLinks(base: nat, free: set<nat>, ptr: Fields, size: Fields, b: nat, p: nat)
    requires Place(base, free, ptr, size, b, p) && p in ptr && ptr[p] in ptr && ptr[p] in size
    requires b + size[b] == ptr[p]
    ensures forall a {:trigger Link(base, free - {ptr[p]} + {b}, ptr[b := ptr[ptr[p]]], a)} ::
              a in free - {ptr[p]} + {b} && a != p ==> Link(base, free - {ptr[p]} + {b}, ptr[b := ptr[ptr[p]]], a)
  {
    hide Gap;
    PlaceNext(base, free, ptr, size, b, p);
    forall a | a in free - {ptr[p]} + {b} && a != p
      ensures Link(base, free - {ptr[p]} + {b}, ptr[b := ptr[ptr[p]]], a)
    {
      assert a != b ==> Link(base, free, ptr, a);
      AbsorbLink(base, free, ptr, b, p, a);
    }
  }

  lemma AbsorbKeeps(base: nat, free: set<nat>, ptr: Fields, size: Fields, b: nat, p: nat)
    requires Place(base, free, ptr, size, b, p) && p in ptr && ptr[p] in ptr && ptr[p] in size
    requires b + size[b] == ptr[p]
    ensures HalfJoined(base, JoinUp(free, ptr, size, b, p), b, p)
  {
    PlaceNext(base, free, ptr, size, b, p);
    AbsorbLinks(base, free, ptr, size, b, p);
    hide Link;
    var next := ptr[p];
    var free' := free - {next} + {b};
    forall a | a in free' && a != p
      ensures Gap(base, free', size[b := size[b] + size[next]], a)
    {
      assert a != b ==> Gap(base, free, size, a);
      AbsorbGap(base, free, size, b, p, next, a);
    }
  }

  lemma InsertKeeps(base: nat, free: set<nat>, ptr: Fields, size: Fields, b: nat, p: nat)
    requires Place(base, free, ptr, size, b, p) && p in ptr && ptr[p] in ptr && ptr[p] in size
    requires b + size[b] != ptr[p]
    ensures HalfJoined(base, JoinUp(free, ptr, size, b, p), b, p)
  {
    PlaceNext(base, free, ptr, size, b, p);
    forall a | a in free + {b} && a != p
      ensures Link(base, free + {b}, ptr[b := ptr[p]], a)
    {
      assert a != b ==> Link(base, free, ptr, a);
      InsertLink(base, free, ptr, b, p, a);
    }
    forall a | a in free + {b} && a != p
      ensures Gap(base, free + {b}, size, a)
    {
      assert a != b ==> Gap(base, free, size, a);
      InsertGap(base, free, size, b, p, a);
    }
  }

  lemma JoinUpKeeps(base: nat, free: set<nat>, ptr: Fields, size: Fields, b: nat, p: nat)
    requires Place(base, free, ptr, size, b, p) && p in ptr && ptr[p] in ptr && ptr[p] in size
    ensures HalfJoined(base, JoinUp(free, ptr, size, b, p), b, p)
  {
    if b + size[b] == ptr[p] {
      AbsorbKeeps(base, free, ptr, size, b, p);
    } else {
      InsertKeeps(base, free, ptr, size, b, p);
    }
  }

  lemma JoinDownLinks(base: nat, f: Freed, b: nat, p: nat)
    requires HalfJoined(base, f, b, p) && b in f.size && b in f.ptr
    ensures var r := JoinDown(f, b, p);
            forall a {:trigger Link(base, r.free, r.ptr, a)} :: a in r.free ==> Link(base, r.free, r.ptr, a)
  {
    assert Link(base, f.free, f.ptr, b);
    var r := JoinDown(f, b, p);
    forall a | a in r.free
      ensures Link(base, r.free, r.ptr, a)
    {
      if a != p {
        assert Link(base, f.free, f.ptr, a);
      }
    }
  }

  lemma JoinDownKeeps(base: nat, f: Freed, b: nat, p: nat)
    requires HalfJoined(base, f, b, p)
    ensures b in f.size && b in f.ptr
    ensures var r := JoinDown(f, b, p); FreeList(base, r.free, r.ptr, r.size)
  {
    assert Link(base, f.free, f.ptr, b) && Gap(base, f.free, f.size, b);
    JoinDownLinks(base, f, b, p);
    var r := JoinDown(f, b, p);
    forall a | a in r.free
      ensures Gap(base, r.free, r.size, a)
    {
      if a != p {
        assert Gap(base, f.free, f.size, a);
      }
    }
  }

  /** The whole of `free`, once the place is known. */
  function PutBack(free: set<nat>, ptr: Fields, size: Fields, b: nat, p: nat): (r: Freed)
    requires b in size && p in ptr && ptr[p] in ptr && ptr[p] in size && p in size && p != b
  {
    JoinDown(JoinUp(free, ptr, size, b, p), b, p)
  }

  lemma PutBackKeeps(base: nat, free: set<nat>, ptr: Fields, size: Fields, b: nat, p: nat)
    requires Place(base, free, ptr, size, b, p)
    ensures p in ptr && ptr[p] in ptr && ptr[p] in size && p in size
    ensures var r := PutBack(free, ptr, size, b, p); p in r.free && FreeList(base, r.free, r.ptr, r.size)
  {
    PlaceNext(base, free, ptr, size, b, p);
    JoinUpKeeps(base, free, ptr, size, b, p);
    JoinDownKeeps(base, JoinUp(free, ptr, size, b, p), b, p);
  }

  // ---- Which units a block put back adds to the free ones ----

  lemma JoinUpCovers(base: nat, free: set<nat>, ptr: Fields, size: Fields, b: nat, p: nat, u: nat)
    requires Place(base, free, ptr, size, b, p) && p in ptr && ptr[p] in free && ptr[p] in ptr && ptr[p] in size
    ensures var f := JoinUp(free, ptr, size, b, p);
            Covers(f.free, f.size, u) <==> Covers(free, size, u) || b <= u < b + size[b]
  {
    var next := ptr[p];
    var f := JoinUp(free, ptr, size, b, p);
    if Covers(free, size, u) {
      var a :| a in free && a in size && a <= u < a + size[a];
      if b + size[b] == next && a == next {
        assert b in f.free && b <= u < b + f.size[b];
      } else {
        assert a in f.free && a in f.size && a <= u < a + f.size[a];
      }
    }
    if b <= u < b + size[b] {
      assert b in f.free && b in f.size && b <= u < b + f.size[b];
    }
    if Covers(f.free, f.size, u) && !(b <= u < b + size[b]) {
      var a :| a in f.free && a in f.size && a <= u < a + f.size[a];
      if a == b {
        assert next in free && next <= u < next + size[next];
      } else {
        assert a in free && a in size && a <= u < a + size[a];
      }
    }
  }

  lemma JoinDownCovers(base: nat, f: Freed, b: nat, p: nat, u: nat)
    requires HalfJoined(base, f, b, p) && b in f.size && b in f.ptr
    ensures var r := JoinDown(f, b, p);
            Covers(r.free, r.size, u) <==> Covers(f.free, f.size, u)
  {
    var r := JoinDown(f, b, p);
    if Covers(f.free, f.size, u) {
      var a :| a in f.free && a in f.size && a <= u < a + f.size[a];
      if a == b && p + f.size[p] == b {
        assert p in r.free && p in r.size && p <= u < p + r.size[p];
      } else {
        assert a in r.free && a in r.size && a <= u < a + r.size[a];
      }
    }
    if Covers(r.free, r.size, u) {
      var a :| a in r.free && a in r.size && a <= u < a + r.size[a];
      if a == p && u >= b {
        assert b in f.free && b <= u < b + f.size[b];
      } else {
        assert a in f.free && a in f.size && a <= u < a + f.size[a];
      }
    }
  }

  lemma PutBackCovers(base: nat, free: set<nat>, ptr: Fields, size: Fields, b: nat, p: nat, u: nat)
    requires Place(base, free, ptr, size, b, p) && p in ptr && ptr[p] in free && ptr[p] in ptr && ptr[p] in size
    requires p in size
    ensures var r := PutBack(free, ptr, size, b, p);
            Covers(r.free, r.size, u) <==> Covers(free, size, u) || b <= u < b + size[b]
  {
    var f := JoinUp(free, ptr, size, b, p);
    JoinUpCovers(base, free, ptr, size, b, p, u);
    JoinUpKeeps(base, free, ptr, size, b, p);
    assert b in f.size && b in f.ptr;
    JoinDownCovers(base, f, b, p, u);
  }

  /** The block that takes in the block put back. */
  lemma PutBackHolds(base: nat, free: set<nat>, ptr: Fields, size: Fields, b: nat, p: nat)
    requires Place(base, free, ptr, size, b, p) && p in ptr && ptr[p] in ptr && ptr[p] in size && p in size
    ensures var r := PutBack(free, ptr, size, b, p);
            exists a :: a in r.free && a in r.size && r.size[a] >= size[b]
  {
    var r := PutBack(free, ptr, size, b, p);
    var a := if p + size[p] == b then p else b;
    assert a in r.free && a in r.size && r.size[a] >= size[b];
  }

  /** An allocated block stays alone when another one is put back. */
  lemma AloneAfter(base: nat, free: set<nat>, ptr: Fields, size: Fields, used: set<nat>, b: nat, p: nat, a: nat)
    requires Place(base, free, ptr, size, b, p) && p in ptr && ptr[p] in free && ptr[p] in ptr && ptr[p] in size
    requires p in size
    requires a in used && b in used && a != b && Alone(base, free, size, used, a)
    ensures var r := PutBack(free, ptr, size, b, p); Alone(base, r.free, r.size, used - {b}, a) && r.size[a] == size[a]
  {
  }

  lemma PutBackPartition(base: nat, free: set<nat>, ptr: Fields, size: Fields, used: set<nat>, owned: set<nat>, b: nat,
                         p: nat)
    requires Place(base, free, ptr, size, b, p) && p in ptr && ptr[p] in free && ptr[p] in ptr && ptr[p] in size
    requires p in size
    requires Partition(base, free, size, used, owned) && b in used
    ensures var r := PutBack(free, ptr, size, b, p); Partition(base, r.free, r.size, used - {b}, owned)
    ensures forall a :: a in used - {b} ==> a in size && PutBack(free, ptr, size, b, p).size[a] == size[a]
  {
    var r := PutBack(free, ptr, size, b, p);
    forall a | a in used - {b}
      ensures Alone(base, r.free, r.size, used - {b}, a) && a in size && r.size[a] == size[a]
    {
      assert Alone(base, free, size, used, a);
      AloneAfter(base, free, ptr, size, used, b, p, a);
    }
    forall u: nat
      ensures u in owned <==> Covers(r.free, r.size, u) || Covers(used - {b}, r.size, u)
    {
      PutBackCovers(base, free, ptr, size, b, p, u);
      UsedWithout(size, r.size, used, b, u);
    }
  }

  lemma UsedWithout(size: Fields, size': Fields, used: set<nat>, b: nat, u: nat)
    requires b in used && b in size
    requires forall a :: a in used - {b} ==> a in size && a in size' && size'[a] == size[a]
    ensures Covers(used, size, u) <==> Covers(used - {b}, size', u) || b <= u < b + size[b]
  {
    if Covers(used, size, u) {
      var a :| a in used && a in size && a <= u < a + size[a];
      assert a != b ==> a in used - {b};
    }
    if Covers(used - {b}, size', u) {
      var a :| a in used - {b} && a in size' && a <= u < a + size'[a];
      assert a in used && a in size;
    }
  }

  // ---- Taking a block ----

  /** A block of the right size leaves the ring. */
  lemma UnlinkKeeps(base: nat, free: set<nat>, ptr: Fields, size: Fields, prev: nat, p: nat)
    requires FreeList(base, free, ptr, size) && prev in free && prev in ptr && ptr[prev] == p && p in free
    requires p in ptr && p != base
    ensures FreeList(base, free - {p}, ptr[prev := ptr[p]], size)
  {
    assert Link(base, free, ptr, prev) && Link(base, free, ptr, p);
    forall a | a in free - {p}
      ensures Link(base, free - {p}, ptr[prev := ptr[p]], a) && Gap(base, free - {p}, size, a)
    {
      UnlinkOther(base, free, ptr, size, prev, p, a);
    }
  }

  lemma UnlinkOther(base: nat, free: set<nat>, ptr: Fields, size: Fields, prev: nat, p: nat, a: nat)
    requires FreeList(base, free, ptr, size) && prev in free && prev in ptr && ptr[prev] == p && p in free
    requires p in ptr && p != base
    requires a in free && a != p
    ensures Link(base, free - {p}, ptr[prev := ptr[p]], a) && Gap(base, free - {p}, size, a)
  {
    assert Link(base, free, ptr, prev) && Link(base, free, ptr, p);
    assert Link(base, free, ptr, a) && Gap(base, free, size, a);
    assert prev < p;
    assert a != prev ==> ptr[a] != p;
  }

  lemma TakeWhole(base: nat, free: set<nat>, ptr: Fields, size: Fields, used: set<nat>, owned: set<nat>, p: nat)
    requires FreeList(base, free, ptr, size) && Partition(base, free, size, used, owned) && p in free && p != base
    ensures p !in used && Partition(base, free - {p}, size, used + {p}, owned)
  {
    assert Gap(base, free, size, p);
    forall a | a in used + {p}
      ensures Alone(base, free - {p}, size, used + {p}, a)
    {
      if a != p {
        assert Alone(base, free, size, used, a);
      } else {
        AloneTaken(base, free, ptr, size, used, owned, p);
      }
    }
    assert p in used ==> Alone(base, free, size, used, p);
    forall a | a in free
      ensures a in size
    {
      assert Gap(base, free, size, a);
    }
    forall u: nat
      ensures u in owned <==> Covers(free - {p}, size, u) || Covers(used + {p}, size, u)
    {
      UsedWithout(size, size, free, p, u);
      UsedWithout(size, size, used + {p}, p, u);
      assert used + {p} - {p} == used;
    }
  }

  lemma AloneTaken(base: nat, free: set<nat>, ptr: Fields, size: Fields, used: set<nat>, owned: set<nat>, p: nat)
    requires FreeList(base, free, ptr, size) && Partition(base, free, size, used, owned) && p in free && p != base
    ensures Alone(base, free - {p}, size, used + {p}, p)
  {
    assert Gap(base, free, size, p);
    forall c | c in free - {p}
      ensures c in size && Disjoint(c, size[c], p, size[p])
    {
      assert Gap(base, free, size, c);
    }
    forall c | c in used && c != p
      ensures c in size && Disjoint(c, size[c], p, size[p])
    {
      assert Alone(base, free, size, used, c);
    }
  }

  /** A larger block gives up its tail. */
  lemma SplitKeeps(base: nat, free: set<nat>, ptr: Fields, size: Fields, used: set<nat>, owned: set<nat>, p: nat,
                   n: nat)
    requires FreeList(base, free, ptr, size) && Partition(base, free, size, used, owned) && p in free
    requires p in size && 0 < n < size[p]
    ensures var q := p + size[p] - n;
            var size' := size[p := size[p] - n][q := n];
            q !in free && q !in used &&
            FreeList(base, free, ptr, size') && Partition(base, free, size', used + {q}, owned) &&
            forall a :: a in used ==> a in size && size'[a] == size[a]
  {
    var q := p + size[p] - n;
    TailIsInside(base, free, ptr, size, used, owned, p, n);
    SplitFreeList(base, free, ptr, size, p, n);
    SplitPartition(base, free, ptr, size, used, owned, p, n);
    forall a | a in used
      ensures a in size && a != p
    {
      assert Alone(base, free, size, used, a);
    }
  }

  lemma SplitFreeList(base: nat, free: set<nat>, ptr: Fields, size: Fields, p: nat, n: nat)
    requires FreeList(base, free, ptr, size) && p in free && p in size && 0 < n < size[p] && p + size[p] - n !in free
    ensures FreeList(base, free, ptr, size[p := size[p] - n][p + size[p] - n := n])
  {
    var size' := size[p := size[p] - n][p + size[p] - n := n];
    forall a | a in free
      ensures Gap(base, free, size', a)
    {
      assert Gap(base, free, size, a);
    }
  }

  lemma TailIsInside(base: nat, free: set<nat>, ptr: Fields, size: Fields, used: set<nat>, owned: set<nat>, p: nat,
                     n: nat)
    requires FreeList(base, free, ptr, size) && Partition(base, free, size, used, owned) && p in free
    requires p in size && 0 < n < size[p]
    ensures p + size[p] - n !in free && p + size[p] - n !in used && p != base
  {
    var q := p + size[p] - n;
    assert Gap(base, free, size, p);
    assert q in used ==> Alone(base, free, size, used, q);
  }

  lemma SplitPartition(base: nat, free: set<nat>, ptr: Fields, size: Fields, used: set<nat>, owned: set<nat>, p: nat,
                       n: nat)
    requires FreeList(base, free, ptr, size) && Partition(base, free, size, used, owned) && p in free && p != base
    requires p in size && 0 < n < size[p]
    requires var q := p + size[p] - n; q !in free && q !in used
    ensures var q := p + size[p] - n;
            Partition(base, free, size[p := size[p] - n][q := n], used + {q}, owned)
  {
    var q := p + size[p] - n;
    var size' := size[p := size[p] - n][q := n];
    forall a | a in used + {q}
      ensures Alone(base, free, size', used + {q}, a)
    {
      SplitAlone(base, free, ptr, size, used, owned, p, n, a);
    }
    forall u: nat
      ensures u in owned <==> Covers(free, size', u) || Covers(used + {q}, size', u)
    {
      SplitCovers(base, free, size, used, p, n, u);
      assert u in owned <==> Covers(free, size, u) || Covers(used, size, u);
    }
  }

  lemma SplitAlone(base: nat, free: set<nat>, ptr: Fields, size: Fields, used: set<nat>, owned: set<nat>, p: nat,
                   n: nat, a: nat)
    requires FreeList(base, free, ptr, size) && Partition(base, free, size, used, owned) && p in free && p != base
    requires p in size && 0 < n < size[p]
    requires var q := p + size[p] - n; q !in free && q !in used && a in used + {q}
    ensures var q := p + size[p] - n;
            Alone(base, free, size[p := size[p] - n][q := n], used + {q}, a)
  {
    var q := p + size[p] - n;
    assert Gap(base, free, size, p);
    if a == q {
      forall c | c in free
        ensures c in size && (c != p ==> Disjoint(c, size[c], p, size[p]))
      {
        assert Gap(base, free, size, c);
      }
      forall c | c in used
        ensures c in size && Disjoint(c, size[c], p, size[p])
      {
        assert Alone(base, free, size, used, c);
      }
    } else {
      assert Alone(base, free, size, used, a);
    }
  }

  lemma SplitCovers(base: nat, free: set<nat>, size: Fields, used: set<nat>, p: nat, n: nat, u: nat)
    requires p in free && p !in used && p in size && 0 < n < size[p]
    requires var q := p + size[p] - n; q !in free && q !in used
    ensures var q := p + size[p] - n;
            var size' := size[p := size[p] - n][q := n];
            Covers(free, size', u) || Covers(used + {q}, size', u) <==>
            Covers(free, size, u) || Covers(used, size, u)
  {
    var q := p + size[p] - n;
    var size' := size[p := size[p] - n][q := n];
    if Covers(free, size', u) {
      var a :| a in free && a in size' && a <= u < a + size'[a];
      assert a in free && a in size && a <= u < a + size[a];
    }
    if Covers(used + {q}, size', u) {
      var a :| a in used + {q} && a in size' && a <= u < a + size'[a];
      if a == q {
        assert p in free && p <= u < p + size[p];
      } else {
        assert a in used && a in size && a <= u < a + size[a];
      }
    }
    if Covers(free, size, u) {
      var a :| a in free && a in size && a <= u < a + size[a];
      if a == p && u >= q {
        assert q in used + {q} && q <= u < q + size'[q];
      } else {
        assert a in size' && a <= u < a + size'[a];
      }
    }
    if Covers(used, size, u) {
      var a :| a in used && a in size && a <= u < a + size[a];
      assert a in used + {q} && a in size' && a <= u < a + size'[a];
    }
  }

  // ---- The allocator ----

  /** The units that `malloc` takes for a request, in C's 32-bit arithmetic. */
  function Units(nbytes: nat): (n: nat)
    ensures n >= 1
  {
    (nbytes + UNIT - 1) % UINT / UNIT + 1
  }

  /** The block holds the request besides its header if and only if the rounding
      does not overflow. */
  lemma PayloadFitsIff(nbytes: nat)
    requires nbytes < UINT
    ensures (Units(nbytes) - 1) * UNIT >= nbytes <==> nbytes <= UINT - UNIT
    ensures nbytes <= UINT - UNIT ==> (Units(nbytes) - 1) * 8 < nbytes + 8
    ensures nbytes > UINT - UNIT ==> Units(nbytes) == 1
  {
  }

  /** A 32-bit word passed where C expects an `int`. */
  function AsInt(w: nat): (i: int)
  {
    if w < UINT / 2 then w else w - UINT
  }

  /** The number of bytes that `morecore` passes to `sbrk` for a request. */
  function Asked(nbytes: nat): (i: int)
  {
    AsInt(Max(Units(nbytes), MIN_GROWTH) * UNIT % UINT)
  }

  /** `sbrk` is asked for the memory that is meant if and only if the request is
      below 2 GB, or so large that the rounding has overflowed. */
  lemma AsksForEnoughIff(nbytes: nat)
    requires nbytes < UINT
    ensures Asked(nbytes) == Max(Units(nbytes), MIN_GROWTH) * UNIT <==>
            Max(Units(nbytes), MIN_GROWTH) * UNIT < UINT / 2
    ensures Max(Units(nbytes), MIN_GROWTH) * UNIT < UINT / 2 <==> nbytes <= UINT / 2 - 2 * UNIT || nbytes > UINT - UNIT
  {
    if nbytes <= UINT - UNIT {
      assert Units(nbytes) == (nbytes + UNIT - 1) / UNIT + 1;
    }
  }

  /** A request of 2 GB makes `sbrk` shrink the heap. */
  lemma HugeRequestShrinks()
    ensures Asked(0x8000_0000) < 0
  {
    assert Units(0x8000_0000) == 0x1000_0001;
    assert Asked(0x8000_0000) == AsInt(0x8000_0008);
  }

  ghost function Span(b: nat, n: nat): (s: set<nat>)
    ensures forall u: nat :: u in s <==> b <= u < b + n
  {
    if n == 0 then {} else Span(b, n - 1) + {b + n - 1}
  }

  /** New memory from `sbrk` is a block of its own before it is put back. */
  lemma GrowPartition(base: nat, free: set<nat>, ptr: Fields, size: Fields, used: set<nat>, owned: set<nat>, b: nat,
                      n: nat)
    requires FreeList(base, free, ptr, size) && Partition(base, free, size, used, owned)
    requires base < b && n > 0 && forall u :: u in owned ==> u < b
    ensures var size' := size[b := n];
            b !in free && b !in used &&
            FreeList(base, free, ptr, size') &&
            Partition(base, free, size', used + {b}, owned + Span(b, n)) &&
            forall a :: a in used ==> a in size && size'[a] == size[a]
  {
    var size' := size[b := n];
    GrowBelow(base, free, ptr, size, used, owned, b);
    forall a | a in free
      ensures Gap(base, free, size', a)
    {
      assert Gap(base, free, size, a);
    }
    forall a | a in used + {b}
      ensures Alone(base, free, size', used + {b}, a)
    {
      assert a in used ==> Alone(base, free, size, used, a);
    }
    forall u: nat
      ensures u in owned + Span(b, n) <==> Covers(free, size', u) || Covers(used + {b}, size', u)
    {
      GrowCovers(free, size, used, b, n, u);
      assert u in owned <==> Covers(free, size, u) || Covers(used, size, u);
    }
  }

  /** Every block ends below the memory that `sbrk` adds. */
  lemma GrowBelow(base: nat, free: set<nat>, ptr: Fields, size: Fields, used: set<nat>, owned: set<nat>, b: nat)
    requires FreeList(base, free, ptr, size) && Partition(base, free, size, used, owned)
    requires base < b && forall u :: u in owned ==> u < b
    ensures forall a :: a in free ==> a in size && a < b && a + size[a] <= b
    ensures forall a :: a in used ==> a in size && a < b && a + size[a] <= b
  {
    forall a | a in free
      ensures a in size && a < b && a + size[a] <= b
    {
      assert Gap(base, free, size, a);
      if a != base {
        assert Covers(free, size, a + size[a] - 1);
        assert a + size[a] - 1 in owned;
      }
    }
    forall a | a in used
      ensures a in size && a < b && a + size[a] <= b
    {
      assert Alone(base, free, size, used, a);
      assert Covers(used, size, a + size[a] - 1);
      assert a + size[a] - 1 in owned;
    }
  }

  lemma GrowCovers(free: set<nat>, size: Fields, used: set<nat>, b: nat, n: nat, u: nat)
    requires b !in free && b !in used
    ensures Covers(free, size[b := n], u) <==> Covers(free, size, u)
    ensures Covers(used + {b}, size[b := n], u) <==> Covers(used, size, u) || b <= u < b + n
  {
    var size' := size[b := n];
    if Covers(used, size, u) {
      var a :| a in used && a in size && a <= u < a + size[a];
      assert a in used + {b} && a in size' && a <= u < a + size'[a];
    }
    if b <= u < b + n {
      assert b in used + {b} && b in size';
    }
    if Covers(used + {b}, size', u) {
      var a :| a in used + {b} && a in size' && a <= u < a + size'[a];
      assert a != b ==> a in used && a in size;
    }
  }

  /** The links and the sizes that `free` leaves. */
  function NewPtr(ptr: Fields, size: Fields, b: nat, p: nat): (r: Fields)
    requires b in size && p in ptr && ptr[p] in ptr && ptr[p] in size && p in size && p != b
  {
    PutBack({}, ptr, size, b, p).ptr
  }

  function NewSize(ptr: Fields, size: Fields, b: nat, p: nat): (r: Fields)
    requires b in size && p in ptr && ptr[p] in ptr && ptr[p] in size && p in size && p != b
  {
    PutBack({}, ptr, size, b, p).size
  }

  /** All that `free` promises about the heap. */
  lemma FreeEffect(base: nat, free: set<nat>, ptr: Fields, size: Fields, used: set<nat>, owned: set<nat>, b: nat,
                   p: nat)
    returns (free': set<nat>)
    requires Place(base, free, ptr, size, b, p) && Partition(base, free, size, used, owned) && b in used
    ensures p in ptr && ptr[p] in ptr && ptr[p] in size && p in size && p in free'
    ensures FreeList(base, free', NewPtr(ptr, size, b, p), NewSize(ptr, size, b, p))
    ensures Partition(base, free', NewSize(ptr, size, b, p), used - {b}, owned)
    ensures Holds(free', NewSize(ptr, size, b, p), size[b])
    ensures SameSizes(used - {b}, size, NewSize(ptr, size, b, p))
  {
    PlaceNext(base, free, ptr, size, b, p);
    PutBackKeeps(base, free, ptr, size, b, p);
    PutBackPartition(base, free, ptr, size, used, owned, b, p);
    PutBackHolds(base, free, ptr, size, b, p);
    free' := PutBack(free, ptr, size, b, p).free;
  }

  /** Some free block has at least `n` units. */
  ghost predicate Holds(free: set<nat>, size: Fields, n: nat)
  {
    exists a :: a in free && a in size && size[a] >= n
  }

  /** The blocks of `used` keep their sizes. */
  ghost predicate SameSizes(used: set<nat>, size: Fields, size': Fields)
  {
    forall a :: a in used ==> a in size && a in size' && size'[a] == size[a]
  }

  /** At the end of a lap, only the last block is left to hold `n` units. */
  lemma LapHolds(free: set<nat>, size: Fields, p: nat, n: nat)
    requires p in free && p in size
    ensures Holds(Ahead(free, p, p) + {p}, size, n) ==> size[p] >= n
    ensures Holds(free, size, n) ==> size[p] >= n || Holds(free - Ahead(free, p, p) - {p}, size, n)
  {
    assert Ahead(free, p, p) == {};
    if Holds(free, size, n) && size[p] < n {
      var a :| a in free && a in size && size[a] >= n;
      assert a in free - Ahead(free, p, p) - {p};
    }
  }

  /** A block that is too small can be passed by. */
  lemma AheadHolds(base: nat, free: set<nat>, ptr: Fields, size: Fields, p: nat, last: nat, n: nat)
    requires base in free && (forall a :: a in free ==> base <= a) && p in free && last in free && p != last
    requires Link(base, free, ptr, p) && p in size && size[p] < n
    ensures |Ahead(free, ptr[p], last)| < |Ahead(free, p, last)|
    ensures Holds(Ahead(free, p, last) + {p}, size, n) ==> Holds(Ahead(free, ptr[p], last) + {ptr[p]}, size, n)
    ensures Holds(free - Ahead(free, ptr[p], last) - {ptr[p]}, size, n) ==>
      Holds(free - Ahead(free, p, last) - {p}, size, n)
  {
    AheadNext(base, free, ptr, p, last);
    assert Ahead(free, ptr[p], last) + {ptr[p]} == Ahead(free, p, last);
    assert free - Ahead(free, ptr[p], last) - {ptr[p]} == free - Ahead(free, p, last);
    if Holds(free - Ahead(free, p, last), size, n) {
      var a :| a in free - Ahead(free, p, last) && a in size && size[a] >= n;
      assert a in free - Ahead(free, p, last) - {p};
    }
  }

  /** `sbrk` can be asked for the memory that `n` units need. */
  predicate Askable(n: nat)
  {
    Max(n, MIN_GROWTH) * UNIT < UINT / 2
  }

  /** What `morecore` comes to. It is wild if `sbrk` has been asked for another
      amount than is meant: the header it then writes may be anywhere. */
  datatype Core = More | NoMore | Wild

  /** Block `p` is the first free one that is large enough, in the order of the ring
      from the block after `freep` on. */
  ghost predicate FirstFit(free: set<nat>, size: Fields, freep: nat, n: nat, p: nat)
  {
    && p in free && p in size && size[p] >= n
    && forall c :: c in free && c in size && c != p && c !in Ahead(free, p, freep) ==> size[c] < n
  }

  lemma FitFound(free: set<nat>, size: Fields, freep: nat, n: nat, p: nat)
    requires p in free && p in size && size[p] >= n && !Holds(free - Ahead(free, p, freep) - {p}, size, n)
    ensures FirstFit(free, size, freep, n, p)
  {
    forall c | c in free && c in size && c != p && c !in Ahead(free, p, freep)
      ensures size[c] < n
    {
      assert c in free - Ahead(free, p, freep) - {p};
    }
  }

  class Allocator {
    const base: nat   // the static header of size zero, below the heap
    const limit: nat  // where `sbrk` fails
    var ptr: Fields
    var size: Fields
    var freep: nat    // zero before the first call
    var brk: nat
    ghost var free: set<nat>
    ghost var used: set<nat>
    ghost var owned: set<nat>

    ghost predicate Valid()
      reads this
    {
      && 0 < base < brk
      && (forall u :: u in owned ==> u < brk)
      && if freep == 0 then free == {} && used == {} && owned == {}
         else freep in free && FreeList(base, free, ptr, size) && Partition(base, free, size, used, owned)
    }

    constructor (b: nat, heap: nat, top: nat)
      requires 0 < b < heap
      ensures Valid() && used == {} && owned == {} && freep == 0 && base == b && brk == heap && limit == top
    {
      base, limit := b, top;
      ptr, size := map[], map[];
      freep, brk := 0, heap;
      free, used, owned := {}, {}, {};
    }

    /** The search of `free`: the free block after which `bp` belongs, found
        within one lap of the ring. */
    method FindPlace(bp: nat) returns (p: nat, ghost steps: nat)
      requires Valid() && bp in used
      ensures Place(base, free, ptr, size, bp, p)
      ensures steps < |free|
    {
      assert Alone(base, free, size, used, bp);
      p := freep;
      steps := 0;
      BetweenBelow(free, p, bp);
      assert Link(base, free, ptr, p);
      while !(bp > p && bp < ptr[p])
        invariant p in free && Link(base, free, ptr, p)
        invariant steps + |Between(free, p, bp)| < |free|
        decreases |Between(free, p, bp)|
      {
        if p >= ptr[p] && (bp > p || bp < ptr[p]) {
          break;
        }
        BetweenNext(base, free, ptr, p, bp);
        p := ptr[p];
        assert Link(base, free, ptr, p);
        steps := steps + 1;
      }
      PlaceFound(base, free, ptr, p, bp);
    }

    /** Puts an allocated block back, merged with what it touches. */
    method Free(bp: nat)
      requires Valid() && bp in used
      modifies this`ptr, this`size, this`freep, this`free, this`used
      ensures Valid() && freep != 0
      ensures used == old(used) - {bp}
      ensures SameSizes(used, old(size), size)
      ensures bp in old(size) && Holds(free, size, old(size)[bp])
      ensures freep in old(free) && freep < bp && forall c :: c in old(free) ==> !(freep < c < bp)
    {
      var p, _ := FindPlace(bp);
      ghost var free' := FreeEffect(base, free, ptr, size, used, owned, bp, p);
      Relink(bp, p);
      free := free';
      used := used - {bp};
    }

    /** The pointer updates of `free`. */
    method Relink(bp: nat, p: nat)
      requires bp in size && p in ptr && ptr[p] in ptr && ptr[p] in size && p in size && p != bp
      modifies this`ptr, this`size, this`freep
      ensures ptr == NewPtr(old(ptr), old(size), bp, p)
      ensures size == NewSize(old(ptr), old(size), bp, p)
      ensures freep == p
    {
      var next := ptr[p];
      if bp + size[bp] == next {
        size := size[bp := size[bp] + size[next]];
        ptr := ptr[bp := ptr[next]];
      } else {
        ptr := ptr[bp := next];
      }
      if p + size[p] == bp {
        size := size[p := size[p] + size[bp]];
        ptr := ptr[p := ptr[bp]];
      } else {
        ptr := ptr[p := bp];
      }
      freep := p;
    }

    /** First fit from the block after `freep`; at the end of a lap without one,
        the heap grows, which can succeed only once. Nothing is claimed for what
        follows a wild `morecore`, but when it happens is. */
    method Malloc(nbytes: nat) returns (bp: nat, wild: bool, ghost grown: nat)
      requires Valid() && nbytes < UINT
      modifies this
      ensures wild <==> !Holds(old(free), old(size), Units(nbytes)) && !Askable(Units(nbytes))
      ensures Valid()
      ensures bp != 0 ==>
        !wild && bp !in old(used) && used == old(used) + {bp} && bp in size && size[bp] == Units(nbytes)
      ensures bp == 0 ==> used == old(used) && grown == 0 && !Holds(free, size, Units(nbytes))
      ensures bp == 0 && !wild ==> brk + Max(Units(nbytes), MIN_GROWTH) > limit
      ensures SameSizes(old(used), old(size), size)
      ensures grown <= 1 && old(owned) <= owned && (grown == 0 ==> owned == old(owned))
      ensures grown == 1 <==> bp != 0 && !Holds(old(free), old(size), Units(nbytes))
      ensures brk == old(brk) + if grown == 0 then 0 else if Units(nbytes) < 4096 then 4096 else Units(nbytes)
      ensures grown == 0 && bp != 0 ==>
        exists p: nat :: FirstFit(old(free), old(size), old(freep), Units(nbytes), p) &&
                         bp == p + (old(size)[p] - Units(nbytes)) && freep in old(ptr) && old(ptr)[freep] == p
    {
      hide Partition, Ahead, FirstFit, Askable;
      var n := Units(nbytes);
      grown := 0;
      wild := false;
      Start();
      var prev := freep;
      var p := ptr[prev];
      while true
        invariant Valid() && freep != 0 && used == old(used) && grown <= 1
        invariant prev in free && p in free && Link(base, free, ptr, prev) && p == ptr[prev] && Link(base, free, ptr, p)
        invariant SameSizes(used, old(size), size)
        invariant old(owned) <= owned && (grown == 0 ==> owned == old(owned))
        invariant grown == 0 ==> (Holds(free, size, n) <==> Holds(old(free), old(size), n))
        invariant grown == 1 ==> Askable(n) && Holds(Ahead(free, p, freep) + {p}, size, n)
        invariant grown == 0 ==> !Holds(free - Ahead(free, p, freep) - {p}, size, n)
        invariant grown == 1 ==> !Holds(old(free), old(size), n)
        invariant brk == old(brk) + if grown == 0 then 0 else if n < 4096 then 4096 else n
        invariant grown == 0 && old(freep) != 0 ==> free == old(free) && size == old(size) && freep == old(freep)
        invariant grown == 0 && old(freep) != 0 ==> ptr == old(ptr)
        decreases 1 - grown, |Ahead(free, p, freep)|
      {
        assert Gap(base, free, size, p);
        if size[p] >= n {
          assert Holds(free, size, n);
          if grown == 0 {
            FitFound(free, size, freep, n, p);
          }
          bp := Take(prev, p, n);
          return;
        }
        if p == freep {
          LapHolds(free, size, p, n);
          assert grown == 0;
          var r := Grow(n);
          if !r.More? {
            return 0, r.Wild?, 0;
          }
          grown := grown + 1;
          p := freep;
        } else {
          assert Link(base, free, ptr, ptr[p]);
          AheadHolds(base, free, ptr, size, p, freep, n);
        }
        prev := p;
        p := ptr[p];
      }
    }

    /** The links at `freep`, and that a lap from the block after it sees all. */
    ghost predicate AtStart()
      reads this
      requires Valid() && freep != 0
    {
      && Link(base, free, ptr, freep) && Link(base, free, ptr, ptr[freep])
      && Ahead(free, ptr[freep], freep) + {ptr[freep]} == free
      && free - Ahead(free, ptr[freep], freep) - {ptr[freep]} == {}
    }

    lemma CanStart()
      requires Valid() && freep != 0
      ensures AtStart()
    {
      assert Link(base, free, ptr, freep) && Link(base, free, ptr, ptr[freep]);
      AheadAll(base, free, ptr, freep);
    }

    /** The first call makes `base` the only free block. */
    method Start()
      requires Valid()
      modifies this`ptr, this`size, this`freep, this`free
      ensures Valid() && freep != 0 && AtStart() && SameSizes(used, old(size), size)
      ensures forall n: nat :: n > 0 ==> (Holds(free, size, n) <==> Holds(old(free), old(size), n))
      ensures old(freep) != 0 ==> free == old(free) && size == old(size) && freep == old(freep) && ptr == old(ptr)
    {
      UsedHaveSizes();
      if freep == 0 {
        ptr := ptr[base := base];
        size := size[base := 0];
        freep := base;
        free := {base};
        assert Link(base, free, ptr, base) && Gap(base, free, size, base);
      }
      CanStart();
    }

    /** At the end of a lap: more memory, in which the request fits. */
    method Grow(n: nat) returns (r: Core)
      requires Valid() && freep != 0 && n > 0
      modifies this
      ensures r.Wild? <==> !Askable(n)
      ensures Valid() && freep != 0 && used == old(used) && SameSizes(used, old(size), size) && old(owned) <= owned
      ensures !r.More? ==> owned == old(owned) && free == old(free) && size == old(size)
      ensures r.NoMore? ==> brk + Max(n, MIN_GROWTH) > limit
      ensures r.More? ==> AtStart() && Holds(free, size, n)
      ensures brk == old(brk) + if r.More? then Max(n, MIN_GROWTH) else 0
    {
      r := Morecore(n);
      CanStart();
    }

    lemma UsedHaveSizes()
      requires Valid()
      ensures forall a :: a in used ==> a in size
    {
      if freep != 0 {
        forall a | a in used
          ensures a in size
        {
          assert Alone(base, free, size, used, a);
        }
      }
    }

    /** Takes `n` units from free block `p`, which follows `prev`. */
    method Take(prev: nat, p: nat, n: nat) returns (bp: nat)
      requires Valid() && freep != 0 && prev in free && p in free && Link(base, free, ptr, prev) && ptr[prev] == p
      requires p in size && size[p] >= n > 0
      modifies this`ptr, this`size, this`freep, this`free, this`used
      ensures Valid() && freep == prev && bp != 0
      ensures bp !in old(used) && used == old(used) + {bp} && bp in size && size[bp] == n
      ensures bp == p + (old(size)[p] - n)
      ensures SameSizes(old(used), old(size), size)
    {
      UsedHaveSizes();
      assert Link(base, free, ptr, p) && Gap(base, free, size, p);
      if size[p] == n {
        TakeWhole(base, free, ptr, size, used, owned, p);
        UnlinkKeeps(base, free, ptr, size, prev, p);
        ptr := ptr[prev := ptr[p]];
        bp := p;
        free := free - {p};
      } else {
        SplitKeeps(base, free, ptr, size, used, owned, p, n);
        var rest := size[p] - n;
        bp := p + rest;
        size := size[p := rest][bp := n];
      }
      used := used + {bp};
      freep := prev;
    }

    /** Extends the heap by `n` units, or fails. */
    method Sbrk(n: nat) returns (p: int)
      requires Valid() && n * UNIT < UINT / 2
      modifies this`brk
      ensures Valid() && p == (if old(brk) + n > limit then -1 else old(brk))
      ensures brk == if p < 0 then old(brk) else old(brk) + n
    {
      if brk + n > limit {
        return -1;
      }
      p := brk;
      brk := brk + n;
    }

    /** Asks for memory and puts it into the ring as a freed block. */
    method Morecore(n: nat) returns (r: Core)
      requires Valid() && freep != 0 && n > 0
      modifies this
      ensures r.Wild? <==> !Askable(n)
      ensures r.More? <==> Askable(n) && old(brk) + Max(n, MIN_GROWTH) <= limit
      ensures Valid() && freep != 0 && used == old(used)
      ensures !r.More? ==>
        owned == old(owned) && free == old(free) && ptr == old(ptr) && size == old(size) && brk == old(brk)
      ensures r.More? ==>
        owned == old(owned) + Span(old(brk), Max(n, MIN_GROWTH)) && old(owned) !! Span(old(brk), Max(n, MIN_GROWTH))
      ensures r.More? ==> Holds(free, size, n) && brk == old(brk) + Max(n, MIN_GROWTH)
      ensures SameSizes(used, old(size), size)
    {
      var nu := n;
      if nu < MIN_GROWTH {
        nu := MIN_GROWTH;
      }
      UsedHaveSizes();
      AskedAsMeant(nu);
      if AsInt(nu * UNIT % UINT) != nu * UNIT {
        return Wild;
      }
      var p := Sbrk(nu);
      if p < 0 {
        return NoMore;
      }
      GrowPartition(base, free, ptr, size, used, owned, p, nu);
      size := size[p := nu];
      used := used + {p};
      owned := owned + Span(p, nu);
      Free(p);
      return More;
    }
  }

  lemma AskedAsMeant(n: nat)
    ensures AsInt(n * UNIT % UINT) == n * UNIT <==> n * UNIT < UINT / 2
  {
  }

  function Max(a: nat, b: nat): (m: nat)
  {
    if a < b then b else a
  }

  lemma BetweenBelow(free: set<nat>, p: nat, b: nat)
    requires p in free && b !in free
    ensures |Between(free, p, b)| < |free|
  {
    assert Between(free, p, b) <= free - {p};
    SubsetSize(Between(free, p, b), free - {p});
  }
}
