/**
 The functions of `vm.c` over the page pool of `kalloc.c`.
 */
module Vm {
  import opened Counting
  import opened PageTables
  import opened PageCounts

  type Page = seq<nat>

  const JUNK: Page := [1]
  const ZEROS: Page := [0]

  const PTE_W: nat := 2
  const PTE_U: nat := 4

  /** The pool, and what stands in the pages. Page tables are kept in `PageDir`. */
  class Kmem {
    var free: seq<nat>
    var data: map<nat, Page>

    /** `kalloc`: a page, or 0. */
    method Kalloc() returns (f: nat)
      modifies this`free
      ensures old(free) == [] ==> f == 0 && free == []
      ensures old(free) != [] ==> f == old(free)[0] && free == old(free)[1..]
    {
      if free == [] {
        return 0;
      }
      f := free[0];
      free := free[1..];
    }

    /** `kfree`. */
    method Kfree(f: nat)
      modifies this
      ensures free == [f] + old(free) && data == old(data)[f := JUNK]
    {
      data := data[f := JUNK];
      free := [f] + free;
    }
  }

  class PageDir {
    const frame: nat
    var pdes: seq<Pde>

    ghost function D(): (d: Dir)
      reads this
    {
      Dir(frame, pdes)
    }

    constructor (frame: nat)
      ensures this.frame == frame && pdes == seq(ENTRIES, _ => NoPde)
    {
      this.frame := frame;
      pdes := seq(ENTRIES, _ => NoPde);
    }
  }

  /** The pages that are not in the pool hold what they held. */
  ghost predicate Untouched(data: map<nat, Page>, data': map<nat, Page>, free': seq<nat>)
  {
    forall f: nat {:trigger PageOf(data', f)} :: f !in free' ==> PageOf(data', f) == PageOf(data, f)
  }

  function PageOf(data: map<nat, Page>, f: nat): (p: Page)
  {
    if f in data then data[f] else []
  }

  ghost predicate Within(a: seq<nat>, b: seq<nat>)
  {
    forall f :: f in a ==> f in b
  }

  ghost predicate SameLookups(d: Dir, d': Dir)
    requires Shape(d) && Shape(d')
  {
    forall v: nat {:trigger Lookup(d', v)} :: v < NPAGES ==> Lookup(d', v) == Lookup(d, v)
  }

  /** `walkpgdir`: is there a table for page `v`? With `alloc`, one is made.
      Pages in `hand` are in use by the caller, for no directory yet. */
  method Walk(k: Kmem, d: PageDir, v: nat, alloc: bool, ghost hand: seq<nat>) returns (ok: bool)
    requires Inv(d.D(), hand + k.free) && v < NPAGES
    modifies k`free, d
    ensures Inv(d.D(), hand + k.free) && Conserved(old(d.D()), hand + old(k.free), d.D(), hand + k.free)
    ensures SameLookups(old(d.D()), d.D())
    ensures ok ==> HasTable(d.D(), v)
    ensures !ok <==> !HasTable(old(d.D()), v) && (!alloc || old(k.free) == [])
    ensures !ok || HasTable(old(d.D()), v) ==> d.pdes == old(d.pdes) && k.free == old(k.free)
    ensures !alloc ==> d.pdes == old(d.pdes) && k.free == old(k.free)
    ensures Within(k.free, old(k.free))
    ensures ok ==> |old(k.free)| + 1 == |k.free| + Cost(old(d.D()), v) && TableAdded(old(d.D()), d.D(), v)
  {
    hide Inv, Lookup, FrameAt, Has;
    var i := v / ENTRIES;
    ConservedItself(d.D(), hand + k.free);
    if d.pdes[i].NoPde? {
      if !alloc {
        return false;
      }
      ghost var was, free := d.D(), k.free;
      var f := k.Kalloc();
      if f == 0 {
        PoolHasNoNull(was, hand, free);
        return false;
      }
      d.pdes := d.pdes[i := Pde(f, EmptyTable())];
      assert hand + free == hand + [f] + k.free;
      NewTable(was, hand, f, k.free, i);
    }
    ok := true;
  }

  lemma ConservedItself(d: Dir, free: seq<nat>)
    requires Shape(d)
    ensures Conserved(d, free, d, free)
  {
    hide Has;
  }

  lemma PoolHasNoNull(d: Dir, hand: seq<nat>, free: seq<nat>)
    requires Inv(d, hand + free)
    ensures free != [] ==> free[0] != 0
  {
    if free != [] {
      assert (hand + free)[|hand|] == free[0];
    }
  }

  lemma NewTable(d: Dir, a: seq<nat>, f: nat, b: seq<nat>, i: nat)
    requires Inv(d, a + [f] + b) && i < ENTRIES && d.pdes[i].NoPde?
    ensures Inv(AddTable(d, i, f), a + b) && Conserved(d, a + [f] + b, AddTable(d, i, f), a + b)
    ensures SameLookups(d, AddTable(d, i, f))
  {
    hide Lookup, Has;
    AddTableSlot(d, i, f);
    assert (a + [f] + b)[|a|] == f;
    Take(d, a, f, b, AddTable(d, i, f), Table(i));
  }

  // ---- Mapping ----

  datatype MapResult = Mapped | NoMemory | Remap

  /** The pages in hand after `f` has been mapped at page `v`: a user page now
      belongs to the directory. */
  ghost function Rest(hand: seq<nat>, v: nat): (rest: seq<nat>)
  {
    if v < NUSER && hand != [] then hand[1..] else hand
  }

  /** One turn of the loop of `mappages`. */
  method MapPage(k: Kmem, d: PageDir, v: nat, f: nat, flags: nat, ghost hand: seq<nat>) returns (r: MapResult)
    requires Inv(d.D(), hand + k.free) && v < NPAGES && (v < NUSER ==> hand != [] && hand[0] == f)
    modifies k`free, d
    ensures r.NoMemory? <==> !HasTable(old(d.D()), v) && old(k.free) == []
    ensures r.Remap? <==> Lookup(old(d.D()), v).Pte?
    ensures !r.Mapped? ==> d.pdes == old(d.pdes) && k.free == old(k.free)
    ensures Within(k.free, old(k.free))
    ensures r.Mapped? ==> Inv(d.D(), Rest(hand, v) + k.free)
    ensures r.Mapped? ==> Conserved(old(d.D()), hand + old(k.free), d.D(), Rest(hand, v) + k.free)
    ensures r.Mapped? ==> |old(k.free)| + 1 == |k.free| + Cost(old(d.D()), v) && TableAdded(old(d.D()), d.D(), v)
    ensures r.Mapped? ==>
      forall u: nat :: u < NPAGES ==> Lookup(d.D(), u) == if u == v then Pte(f, flags) else Lookup(old(d.D()), u)
  {
    hide Inv, Lookup, FrameAt, Has, Conserved, Tables;
    ghost var was, free := d.D(), k.free;
    if Lookup(was, v).Pte? {
      PresentTable(was, v);
    }
    var ok := Walk(k, d, v, true, hand);
    if !ok {
      return NoMemory;
    }
    ghost var t := d.D();
    var i := v / ENTRIES;
    assert Lookup(t, v) == Lookup(was, v);
    LookupIs(t, v);
    if d.pdes[i].ptes[v % ENTRIES].Pte? {
      return Remap;
    }
    d.pdes := d.pdes[i := d.pdes[i].(ptes := d.pdes[i].ptes[v % ENTRIES := Pte(f, flags)])];
    SetPteIs(t, d.D(), v, Pte(f, flags));
    SetPteTables(t, v, Pte(f, flags));
    MapKeeps(t, hand, k.free, v, f, flags);
    ConservedMore(was, hand + free, t, hand + k.free, d.D(), Rest(hand, v) + k.free);
    forall u: nat | u < NPAGES
      ensures Lookup(d.D(), u) == if u == v then Pte(f, flags) else Lookup(was, u)
    {
      SetPteLookup(t, v, Pte(f, flags), u);
      assert Lookup(t, u) == Lookup(was, u);
    }
    r := Mapped;
  }

  lemma LookupIs(d: Dir, v: nat)
    requires Shape(d) && v < NPAGES && HasTable(d, v)
    ensures Lookup(d, v) == d.pdes[v / ENTRIES].ptes[v % ENTRIES]
  {
  }

  lemma PresentTable(d: Dir, v: nat)
    requires Shape(d) && v < NPAGES && Lookup(d, v).Pte?
    ensures HasTable(d, v)
  {
  }

  lemma SetPteIs(t: Dir, d: Dir, v: nat, p: Pte)
    requires Shape(t) && v < NPAGES && HasTable(t, v) && d.frame == t.frame
    requires d.pdes == t.pdes[v / ENTRIES := t.pdes[v / ENTRIES].(ptes := t.pdes[v / ENTRIES].ptes[v % ENTRIES := p])]
    ensures d == SetPte(t, v, p)
  {
  }

  lemma SetPteTables(d: Dir, v: nat, p: Pte)
    requires Shape(d) && v < NPAGES && HasTable(d, v)
    ensures Tables(SetPte(d, v, p)) == Tables(d)
  {
  }

  lemma MapKeeps(d: Dir, hand: seq<nat>, free: seq<nat>, v: nat, f: nat, flags: nat)
    requires Inv(d, hand + free) && v < NPAGES && HasTable(d, v) && Lookup(d, v).NoPte?
    requires v < NUSER ==> hand != [] && hand[0] == f
    ensures Inv(SetPte(d, v, Pte(f, flags)), Rest(hand, v) + free)
    ensures Conserved(d, hand + free, SetPte(d, v, Pte(f, flags)), Rest(hand, v) + free)
  {
    hide Has, SetPte;
    if v < NUSER {
      assert hand + free == [] + [f] + (hand[1..] + free);
      assert (hand + free)[0] == f;
      SetPteSlot(d, v, Pte(f, flags));
      SetPteNonNull(d, v, Pte(f, flags));
      assert [] + (hand[1..] + free) == hand[1..] + free;
      Take(d, [], f, hand[1..] + free, SetPte(d, v, Pte(f, flags)), User(v));
    } else {
      SetKernelPte(d, hand + free, v, Pte(f, flags));
    }
  }

  // ---- Freeing ----

  /** The number of pages that `sz` bytes need. */
  function Pages(sz: nat): (n: nat)
    ensures forall v: nat {:trigger v * PGSIZE} :: v < n <==> v * PGSIZE < sz
  {
    (sz + PGSIZE - 1) / PGSIZE
  }

  /** A page-by-page scan from `lo` to `hi`: the pages that are mapped there, the
      last one first, as they come to lie in the pool. */
  ghost function Scan(d: Dir, lo: nat, hi: nat): (fs: seq<nat>)
    requires Shape(d) && lo <= hi <= NUSER
    decreases hi - lo
  {
    if lo == hi then []
    else (if Lookup(d, hi - 1).Pte? then [Lookup(d, hi - 1).frame] else []) + Scan(d, lo, hi - 1)
  }

  /** Pages that are not there do not matter. */
  lemma {:induction false} ScanSkips(d: Dir, lo: nat, mid: nat, hi: nat)
    requires Shape(d) && lo <= mid <= hi <= NUSER && forall v: nat :: mid <= v < hi ==> Lookup(d, v).NoPte?
    ensures Scan(d, lo, hi) == Scan(d, lo, mid)
    decreases hi
  {
    hide Lookup;
    if mid < hi {
      ScanSkips(d, lo, mid, hi - 1);
      assert Lookup(d, hi - 1).NoPte?;
    }
  }

  ghost predicate Unmapped(was: Dir, d: Dir, lo: nat, hi: nat)
    requires Shape(was) && Shape(d)
  {
    forall v: nat {:trigger Lookup(d, v)} :: v < NPAGES ==>
      Lookup(d, v) == if lo <= v < hi then NoPte else Lookup(was, v)
  }

  /** Free the page mapped at `v`. */
  method FreeAt(k: Kmem, d: PageDir, v: nat, ghost hand: seq<nat>)
    requires Inv(d.D(), hand + k.free) && v < NUSER && HasTable(d.D(), v) && d.pdes[v / ENTRIES].ptes[v % ENTRIES].Pte?
    modifies k, d
    ensures Lookup(old(d.D()), v).Pte? && d.D() == SetPte(old(d.D()), v, NoPte)
    ensures k.free == [Lookup(old(d.D()), v).frame] + old(k.free)
    ensures k.data == old(k.data)[Lookup(old(d.D()), v).frame := JUNK]
    ensures Inv(d.D(), hand + k.free) && Conserved(old(d.D()), hand + old(k.free), d.D(), hand + k.free)
  {
    hide Inv, Has, Conserved;
    ghost var t, pool := d.D(), k.free;
    LookupIs(t, v);
    FreePage(t, hand, pool, v);
    k.Kfree(d.pdes[v / ENTRIES].ptes[v % ENTRIES].frame);
    d.pdes := d.pdes[v / ENTRIES := d.pdes[v / ENTRIES].(ptes := d.pdes[v / ENTRIES].ptes[v % ENTRIES := NoPte])];
    SetPteIs(t, d.D(), v, NoPte);
  }

  /** `deallocuvm`. It skips to the next table where there is none, and frees the
      same pages in the same order as a page-by-page scan. */
  method Deallocuvm(k: Kmem, d: PageDir, oldsz: nat, newsz: nat, ghost hand: seq<nat>) returns (sz: nat)
    requires Inv(d.D(), hand + k.free) && oldsz <= KERNBASE
    modifies k, d
    ensures sz == if newsz >= oldsz then oldsz else newsz
    ensures Inv(d.D(), hand + k.free) && Conserved(old(d.D()), hand + old(k.free), d.D(), hand + k.free)
    ensures Unmapped(old(d.D()), d.D(), Pages(newsz), Pages(oldsz))
    ensures newsz < oldsz ==> Pages(newsz) <= Pages(oldsz) <= NUSER
    ensures newsz < oldsz ==> k.free == Scan(old(d.D()), Pages(newsz), Pages(oldsz)) + old(k.free)
    ensures newsz >= oldsz ==> k.free == old(k.free)
    ensures Untouched(old(k.data), k.data, k.free)
  {
    hide Inv, Lookup, FrameAt, Has, Conserved, Freed, Scan, SameLookups, Unmapped, Untouched, BeforeNextTable, SetPte;
    ghost var was, free := d.D(), k.free;
    FreedNone(was, free, k.data, hand, newsz, oldsz);
    if newsz >= oldsz {
      return oldsz;
    }
    var a := (newsz + PGSIZE - 1) / PGSIZE * PGSIZE;
    ghost var lo, hi := Pages(newsz), Pages(oldsz);
    while a < oldsz
      invariant a % PGSIZE == 0 && lo <= a / PGSIZE && a <= 2 * KERNBASE
      invariant Freed(was, free, old(k.data), d.D(), k.free, k.data, hand, lo, Least(a / PGSIZE, hi))
      decreases oldsz + PGSIZE - a
    {
      var v := a / PGSIZE;
      assert v < hi && (a + PGSIZE) / PGSIZE == v + 1 && (a + PGSIZE) % PGSIZE == 0;
      FreedInv(was, free, old(k.data), d.D(), k.free, k.data, hand, lo, v);
      var there := Walk(k, d, v, false, hand);
      if !there {
        a := BeforeNextTable(v);
        NoTable(d.D(), v);
        FreedSkip(was, free, old(k.data), d.D(), k.free, k.data, hand, lo, v, Least(a / PGSIZE + 1, hi));
      } else if d.pdes[v / ENTRIES].ptes[v % ENTRIES].Pte? {
        ghost var t, pool, data := d.D(), k.free, k.data;
        FreeAt(k, d, v, hand);
        FreedOne(was, free, old(k.data), t, pool, data, hand, lo, v, d.D(), k.free);
      } else {
        LookupIs(d.D(), v);
        FreedSkip(was, free, old(k.data), d.D(), k.free, k.data, hand, lo, v, v + 1);
      }
      a := a + PGSIZE;
    }
    FreedInv(was, free, old(k.data), d.D(), k.free, k.data, hand, lo, hi);
    sz := newsz;
  }

  /** The pages from `lo` to `n` have been freed. */
  ghost predicate Freed(was: Dir, free: seq<nat>, data: map<nat, Page>, d: Dir, free': seq<nat>, data': map<nat, Page>,
                        hand: seq<nat>, lo: nat, n: nat)
    requires Shape(was) && lo <= n <= NUSER
  {
    && Inv(d, hand + free') && Conserved(was, hand + free, d, hand + free') && Unmapped(was, d, lo, n)
    && free' == Scan(was, lo, n) + free && Untouched(data, data', free')
  }

  lemma FreedNone(was: Dir, free: seq<nat>, data: map<nat, Page>, hand: seq<nat>, newsz: nat, oldsz: nat)
    requires Inv(was, hand + free) && oldsz <= KERNBASE
    ensures Conserved(was, hand + free, was, hand + free) && Untouched(data, data, free)
    ensures newsz >= oldsz ==> Unmapped(was, was, Pages(newsz), Pages(oldsz))
    ensures newsz < oldsz ==>
      Pages(newsz) <= NUSER && Freed(was, free, data, was, free, data, hand, Pages(newsz), Pages(newsz))
  {
    hide Inv, Lookup, Conserved;
    ConservedItself(was, hand + free);
    if newsz < oldsz {
      assert Scan(was, Pages(newsz), Pages(newsz)) + free == free;
    }
  }

  lemma FreedInv(was: Dir, free: seq<nat>, data: map<nat, Page>, d: Dir, free': seq<nat>, data': map<nat, Page>,
                 hand: seq<nat>, lo: nat, n: nat)
    requires Shape(was) && lo <= n <= NUSER && Freed(was, free, data, d, free', data', hand, lo, n)
    ensures Inv(d, hand + free') && Conserved(was, hand + free, d, hand + free') && Unmapped(was, d, lo, n)
    ensures free' == Scan(was, lo, n) + free && Untouched(data, data', free')
  {
    hide Inv, Lookup, Conserved, Scan, Untouched, Unmapped;
  }

  lemma FreedSkip(was: Dir, free: seq<nat>, data: map<nat, Page>, d: Dir, free': seq<nat>, data': map<nat, Page>,
                  hand: seq<nat>, lo: nat, n: nat, next: nat)
    requires Shape(was) && lo <= n < next <= NUSER && Freed(was, free, data, d, free', data', hand, lo, n) && Shape(d)
    requires forall u: nat :: n <= u < next ==> Lookup(d, u).NoPte?
    ensures Freed(was, free, data, d, free', data', hand, lo, next)
  {
    hide Inv, Conserved, Untouched, Unmapped, Scan, Lookup;
    Skipped(was, d, lo, n, next);
  }

  lemma FreedOne(was: Dir, free: seq<nat>, data: map<nat, Page>, t: Dir, pool: seq<nat>, data1: map<nat, Page>,
                 hand: seq<nat>, lo: nat, v: nat, d: Dir, free': seq<nat>)
    requires Shape(was) && Shape(t) && lo <= v < NUSER && Freed(was, free, data, t, pool, data1, hand, lo, v)
    requires HasTable(t, v) && Lookup(t, v).Pte? && d == SetPte(t, v, NoPte) && free' == [Lookup(t, v).frame] + pool
    requires Inv(d, hand + free') && Conserved(t, hand + pool, d, hand + free')
    ensures Freed(was, free, data, d, free', data1[Lookup(t, v).frame := JUNK], hand, lo, v + 1)
  {
    hide Inv, Conserved, Untouched, Unmapped, Lookup;
    FreeTouches(data, data1, pool, Lookup(t, v).frame);
    ConservedMore(was, hand + free, t, hand + pool, d, hand + free');
    Unmap(was, t, lo, v);
    assert Scan(was, lo, v + 1) + free == [Lookup(t, v).frame] + (Scan(was, lo, v) + free);
  }

  /** The last page before the next table. */
  function BeforeNextTable(v: nat): (a: nat)
    requires v < NUSER
    ensures a % PGSIZE == 0 && a / PGSIZE + 1 == (v / ENTRIES + 1) * ENTRIES > v && a + PGSIZE <= KERNBASE
    ensures (a + PGSIZE) / PGSIZE == a / PGSIZE + 1 && (a + PGSIZE) % PGSIZE == 0 && a >= v * PGSIZE
  {
    (v / ENTRIES + 1) * ENTRIES * PGSIZE - PGSIZE
  }

  function Least(a: nat, b: nat): (m: nat)
  {
    if a < b then a else b
  }

  lemma NoTable(d: Dir, v: nat)
    requires Shape(d) && v < NPAGES && !HasTable(d, v)
    ensures forall u: nat :: v <= u < (v / ENTRIES + 1) * ENTRIES ==> u < NPAGES && Lookup(d, u).NoPte?
  {
    forall u: nat | v <= u < (v / ENTRIES + 1) * ENTRIES
      ensures u < NPAGES && Lookup(d, u).NoPte?
    {
      assert u / ENTRIES == v / ENTRIES;
    }
  }

  lemma FreeTouches(data0: map<nat, Page>, data: map<nat, Page>, free: seq<nat>, f: nat)
    requires Untouched(data0, data, free)
    ensures Untouched(data0, data[f := JUNK], [f] + free)
  {
    forall g: nat | g !in [f] + free
      ensures PageOf(data[f := JUNK], g) == PageOf(data0, g)
    {
      assert g !in free && g != f;
      assert PageOf(data, g) == PageOf(data0, g);
    }
  }

  lemma Skipped(was: Dir, d: Dir, lo: nat, v: nat, next: nat)
    requires Shape(was) && Shape(d) && lo <= v < next <= NUSER && Unmapped(was, d, lo, v)
    requires forall u: nat :: v <= u < next ==> Lookup(d, u).NoPte?
    ensures Unmapped(was, d, lo, next) && Scan(was, lo, next) == Scan(was, lo, v)
  {
    hide Lookup;
    forall u: nat | v <= u < next
      ensures Lookup(was, u).NoPte?
    {
      assert Lookup(d, u).NoPte?;
    }
    ScanSkips(was, lo, v, next);
  }

  lemma FreePage(d: Dir, hand: seq<nat>, free: seq<nat>, v: nat)
    requires Inv(d, hand + free) && v < NUSER && HasTable(d, v) && Lookup(d, v).Pte?
    ensures Inv(SetPte(d, v, NoPte), hand + ([Lookup(d, v).frame] + free))
    ensures Conserved(d, hand + free, SetPte(d, v, NoPte), hand + ([Lookup(d, v).frame] + free))
  {
    hide Has, SetPte;
    SetPteSlot(d, v, NoPte);
    SetPteNonNull(d, v, NoPte);
    assert FrameAt(d, User(v)) == Lookup(d, v).frame != 0;
    Put(d, hand, free, SetPte(d, v, NoPte), User(v));
  }

  lemma Unmap(was: Dir, t: Dir, lo: nat, v: nat)
    requires Shape(was) && Shape(t) && lo <= v < NUSER && HasTable(t, v) && Unmapped(was, t, lo, v)
    ensures Unmapped(was, SetPte(t, v, NoPte), lo, v + 1) && Lookup(was, v) == Lookup(t, v)
  {
    hide Lookup, SetPte;
    forall u: nat | u < NPAGES
      ensures Lookup(SetPte(t, v, NoPte), u) == if lo <= u < v + 1 then NoPte else Lookup(was, u)
    {
      SetPteLookup(t, v, NoPte, u);
      assert Lookup(t, u) == if lo <= u < v then NoPte else Lookup(was, u);
    }
  }

  // ---- Freeing a whole directory ----

  /** The directory without its first `i` tables. */
  ghost function Without(d: Dir, i: nat): (e: Dir)
    requires |d.pdes| == ENTRIES && i <= ENTRIES
    ensures |e.pdes| == ENTRIES && e.frame == d.frame
    ensures forall j :: 0 <= j < ENTRIES ==> e.pdes[j] == if j < i then NoPde else d.pdes[j]
  {
    d.(pdes := seq(ENTRIES, j requires 0 <= j < ENTRIES => if j < i then NoPde else d.pdes[j]))
  }

  /** No user page is mapped. */
  ghost predicate NoUser(d: Dir)
    requires Shape(d)
  {
    forall v: nat {:trigger Lookup(d, v)} :: v < NUSER ==> Lookup(d, v).NoPte?
  }

  lemma WithoutShape(d: Dir, i: nat)
    requires Shape(d) && NoUser(d) && NonNull(d) && i <= ENTRIES
    ensures Shape(Without(d, i)) && NoUser(Without(d, i)) && NonNull(Without(d, i))
  {
    forall v: nat | v < NUSER
      ensures Lookup(Without(d, i), v).NoPte?
    {
      assert Lookup(d, v).NoPte?;
    }
  }

  /** Giving back table `i`. */
  lemma FreeTable(d: Dir, i: nat, free: seq<nat>)
    requires Shape(d) && NoUser(d) && NonNull(d) && i < ENTRIES && Shape(Without(d, i)) && Inv(Without(d, i), free)
    ensures Shape(Without(d, i + 1))
    ensures d.pdes[i].NoPde? ==> Without(d, i + 1) == Without(d, i)
    ensures d.pdes[i].Pde? ==>
      && Inv(Without(d, i + 1), [d.pdes[i].frame] + free)
      && Conserved(Without(d, i), free, Without(d, i + 1), [d.pdes[i].frame] + free)
  {
    hide Lookup, Has, Inv;
    WithoutShape(d, i);
    WithoutShape(d, i + 1);
    var e, e' := Without(d, i), Without(d, i + 1);
    if d.pdes[i].Pde? {
      forall y | IsSlot(y) && y != Table(i)
        ensures FrameAt(e', y) == FrameAt(e, y)
      {
        if y.User? {
          assert Lookup(e, y.v).NoPte? && Lookup(e', y.v).NoPte?;
        }
      }
      assert [] + free == free && [] + ([d.pdes[i].frame] + free) == [d.pdes[i].frame] + free;
      Put(e, [], free, e', Table(i));
    } else {
      assert e'.pdes == e.pdes;
    }
  }

  /** A directory that owns nothing but its own page. */
  lemma FreeSelf(d: Dir, free: seq<nat>)
    requires Shape(d) && NoUser(d) && NonNull(d) && Shape(Without(d, ENTRIES)) && Inv(Without(d, ENTRIES), free)
    ensures NoDup([d.frame] + free) && 0 !in [d.frame] + free
    ensures forall f: nat :: f in [d.frame] + free <==> Has(Without(d, ENTRIES), free, f)
  {
    hide Lookup;
    WithoutShape(d, ENTRIES);
    var e := Without(d, ENTRIES);
    SlotsApart(e, free, Self, Self);
    forall f: nat
      ensures f in [d.frame] + free <==> Has(e, free, f)
    {
      if x :| Owns(e, x, f) {
        assert x == Self;
      }
      assert Owns(e, Self, d.frame);
    }
  }

  /** `freevm`: every page the directory owned goes back to the pool, once. */
  method Freevm(k: Kmem, d: PageDir)
    requires Inv(d.D(), k.free)
    modifies k, d
    ensures NoDup(k.free) && 0 !in k.free
    ensures forall f: nat :: f in k.free <==> Has(old(d.D()), old(k.free), f)
    ensures Untouched(old(k.data), k.data, k.free)
  {
    hide Inv, Lookup, Has, Conserved, FrameAt;
    ghost var was, free := d.D(), k.free;
    assert [] + k.free == k.free;
    var sz := Deallocuvm(k, d, KERNBASE, 0, []);
    assert [] + k.free == k.free;
    ghost var t := d.D();
    assert NoUser(t) by {
      forall v: nat | v < NUSER
        ensures Lookup(t, v).NoPte?
      {
        assert Lookup(t, v) == NoPte;
      }
    }
    InvNonNull(t, k.free);
    WithoutNone(t);
    var i := 0;
    while i < ENTRIES
      invariant i <= ENTRIES && d.D() == t
      invariant Shape(Without(t, i)) && Inv(Without(t, i), k.free) && Conserved(was, free, Without(t, i), k.free)
      invariant Untouched(old(k.data), k.data, k.free)
    {
      FreeTable(t, i, k.free);
      if d.pdes[i].Pde? {
        ghost var pool := k.free;
        FreeTouches(old(k.data), k.data, k.free, d.pdes[i].frame);
        k.Kfree(d.pdes[i].frame);
        ConservedMore(was, free, Without(t, i), pool, Without(t, i + 1), k.free);
      }
      i := i + 1;
    }
    FreeSelf(t, k.free);
    ghost var pool := k.free;
    FreeTouches(old(k.data), k.data, k.free, d.frame);
    k.Kfree(d.frame);
    AllBack(was, free, Without(t, ENTRIES), pool, k.free);
  }

  lemma WithoutNone(d: Dir)
    requires |d.pdes| == ENTRIES
    ensures Without(d, 0) == d
  {
    assert Without(d, 0).pdes == d.pdes;
  }

  lemma InvNonNull(d: Dir, free: seq<nat>)
    requires Inv(d, free)
    ensures NonNull(d)
  {
  }

  lemma AllBack(was: Dir, free: seq<nat>, e: Dir, pool: seq<nat>, free': seq<nat>)
    requires Shape(was) && Shape(e) && Conserved(was, free, e, pool)
    requires forall f: nat :: f in free' <==> Has(e, pool, f)
    ensures forall f: nat :: f in free' <==> Has(was, free, f)
  {
    hide Has;
    forall f: nat
      ensures f in free' <==> Has(was, free, f)
    {
      assert Has(was, free, f) <==> Has(e, pool, f);
    }
  }

  // ---- Growing ----

  /** From `lo` to `hi` there are new pages full of zeros that the user may write;
      everywhere else nothing has changed. */
  ghost predicate Extended(was: Dir, d: Dir, data: map<nat, Page>, lo: nat, hi: nat)
    requires Shape(was) && Shape(d)
  {
    forall v: nat {:trigger Lookup(d, v)} :: v < NPAGES ==>
      if lo <= v < hi
      then Lookup(d, v).Pte? && Lookup(d, v).flags == PTE_W + PTE_U && PageOf(data, Lookup(d, v).frame) == ZEROS
      else Lookup(d, v) == Lookup(was, v)
  }

  ghost predicate Unused(d: Dir, lo: nat, hi: nat)
    requires Shape(d)
  {
    forall v: nat {:trigger Lookup(d, v)} :: lo <= v < hi && v < NPAGES ==> Lookup(d, v).NoPte?
  }

  /** One turn of the loop of `allocuvm`: a zeroed page at `v`. If there is no
      page for a page table, page `f` is in hand, and otherwise `f` is 0. */
  method AddPage(k: Kmem, d: PageDir, v: nat) returns (r: MapResult, f: nat)
    requires Inv(d.D(), k.free) && v < NUSER
    modifies k, d
    ensures r.Remap? <==> old(k.free) != [] && Lookup(old(d.D()), v).Pte?
    ensures r.NoMemory? <==> |old(k.free)| < Cost(old(d.D()), v)
    ensures r.Mapped? ==> Inv(d.D(), k.free) && Conserved(old(d.D()), old(k.free), d.D(), k.free)
    ensures r.Mapped? ==> |old(k.free)| == |k.free| + Cost(old(d.D()), v) && TableAdded(old(d.D()), d.D(), v)
    ensures r.Mapped? ==> f in old(k.free) && Within(k.free, old(k.free)) && k.data == old(k.data)[f := ZEROS]
    ensures r.Mapped? ==>
      forall u: nat :: u < NPAGES ==>
        Lookup(d.D(), u) == if u == v then Pte(f, PTE_W + PTE_U) else Lookup(old(d.D()), u)
    ensures r.NoMemory? ==> d.pdes == old(d.pdes)
    ensures r.NoMemory? && f == 0 ==> old(k.free) == [] == k.free && k.data == old(k.data)
    ensures r.NoMemory? && f != 0 ==> old(k.free) == [f] + k.free && k.data == old(k.data)[f := ZEROS]
  {
    hide Inv, Lookup, Has, Conserved, FrameAt, TableAdded;
    ghost var was, free := d.D(), k.free;
    if Lookup(was, v).Pte? {
      PresentTable(was, v);
    }
    f := k.Kalloc();
    if free != [] {
      assert [] + free == free == [f] + k.free;
      PoolHasNoNull(was, [], free);
    }
    if f == 0 {
      return NoMemory, 0;
    }
    k.data := k.data[f := ZEROS];
    r := MapPage(k, d, v, f, PTE_W + PTE_U, [f]);
    assert Rest([f], v) + k.free == k.free;
  }

  /** A page from the pool is none of the pages that are mapped. */
  lemma NewPageKeeps(was: Dir, t: Dir, d: Dir, free: seq<nat>, data: map<nat, Page>, lo: nat, v: nat, f: nat)
    requires Shape(was) && Shape(d) && Inv(t, free) && lo <= v < NUSER && f in free && Extended(was, t, data, lo, v)
    requires forall u: nat :: u < NPAGES ==> Lookup(d, u) == if u == v then Pte(f, PTE_W + PTE_U) else Lookup(t, u)
    ensures Extended(was, d, data[f := ZEROS], lo, v + 1)
  {
    hide Has;
    forall u: nat | u < NPAGES
      ensures if lo <= u < v + 1
              then
                && Lookup(d, u).Pte? && Lookup(d, u).flags == PTE_W + PTE_U
                && PageOf(data[f := ZEROS], Lookup(d, u).frame) == ZEROS
              else Lookup(d, u) == Lookup(was, u)
    {
      assert Lookup(d, u) == if u == v then Pte(f, PTE_W + PTE_U) else Lookup(t, u);
      if lo <= u < v {
        SlotsApart(t, free, User(u), User(u));
        assert Lookup(t, u).Pte? && FrameAt(t, User(u)) != f;
      }
    }
  }

  /** Pages that were in the pool neither before nor after hold what they held. */
  ghost predicate OthersKept(data: map<nat, Page>, free: seq<nat>, data': map<nat, Page>, free': seq<nat>)
  {
    forall f: nat {:trigger PageOf(data', f)} :: f !in free && f !in free' ==> PageOf(data', f) == PageOf(data, f)
  }

  /** What `allocuvm` does when it runs out of pages at `v`, with page `f` in hand
      unless `f` is 0. */
  method Rollback(k: Kmem, d: PageDir, oldsz: nat, newsz: nat, f: nat, ghost was: Dir, ghost free: seq<nat>,
                  ghost v: nat)
    requires Shape(was) && Shape(d.D()) && oldsz < newsz < KERNBASE && Pages(oldsz) <= v <= Pages(newsz)
    requires Inv(d.D(), (if f == 0 then [] else [f]) + k.free)
    requires Conserved(was, free, d.D(), (if f == 0 then [] else [f]) + k.free)
    requires OutsideSame(was, d.D(), Pages(oldsz), v)
    modifies k, d
    ensures Inv(d.D(), k.free) && Conserved(was, free, d.D(), k.free)
    ensures Unmapped(was, d.D(), Pages(oldsz), Pages(newsz))
    ensures Untouched(old(k.data), k.data, k.free)
  {
    hide Inv, Lookup, Has, Conserved, FrameAt, Scan;
    ghost var t, hand := d.D(), if f == 0 then [] else [f];
    ghost var pool := hand + k.free;
    var sz := Deallocuvm(k, d, newsz, oldsz, hand);
    ConservedMore(was, free, t, pool, d.D(), hand + k.free);
    if f != 0 {
      FreeTouches(old(k.data), k.data, k.free, f);
      k.Kfree(f);
    } else {
      assert hand + k.free == k.free;
    }
    forall u: nat | u < NPAGES
      ensures Lookup(d.D(), u) == if Pages(oldsz) <= u < Pages(newsz) then NoPte else Lookup(was, u)
    {
      assert Lookup(d.D(), u) == if Pages(oldsz) <= u < Pages(newsz) then NoPte else Lookup(t, u);
    }
  }

  ghost predicate OutsideSame(was: Dir, d: Dir, lo: nat, hi: nat)
    requires Shape(was) && Shape(d)
  {
    forall u: nat {:trigger Lookup(d, u)} :: u < NPAGES && !(lo <= u < hi) ==> Lookup(d, u) == Lookup(was, u)
  }

  lemma RollbackKept(data: map<nat, Page>, free: seq<nat>, data1: map<nat, Page>, f: nat, data': map<nat, Page>,
                     free': seq<nat>)
    requires Untouched(data, data1, free) && (f != 0 ==> f in free)
    requires Untouched(if f == 0 then data1 else data1[f := ZEROS], data', free')
    ensures OthersKept(data, free, data', free')
  {
    forall g: nat | g !in free && g !in free'
      ensures PageOf(data', g) == PageOf(data, g)
    {
      assert PageOf(data1, g) == PageOf(data, g);
    }
  }

  /** `allocuvm`: either the new pages are there, or no page of the range is and
      every page that was taken is back in the pool or in a page table; all other
      mappings are as before. It succeeds if and only if the range is unused and
      the pool has its pages and the tables they lack. If a page of the range was
      mapped already, it panics or, when memory runs out first, takes that page
      away. */
  method Allocuvm(k: Kmem, d: PageDir, oldsz: nat, newsz: nat) returns (sz: nat, panic: bool)
    requires Inv(d.D(), k.free)
    modifies k, d
    ensures panic <==>
      && oldsz <= newsz < KERNBASE
      && exists v: nat :: FirstMapped(old(d.D()), Pages(oldsz), Pages(newsz), v) &&
                          |old(k.free)| > Need(old(d.D()), Pages(oldsz), v)
    ensures !panic ==> Inv(d.D(), k.free) && Conserved(old(d.D()), old(k.free), d.D(), k.free)
    ensures !panic ==> OthersKept(old(k.data), old(k.free), k.data, k.free)
    ensures newsz >= KERNBASE ==> sz == 0 && d.pdes == old(d.pdes) && k.free == old(k.free)
    ensures newsz < KERNBASE && newsz < oldsz ==> sz == oldsz && d.pdes == old(d.pdes) && k.free == old(k.free)
    ensures oldsz <= newsz < KERNBASE ==> Pages(oldsz) <= Pages(newsz)
    ensures oldsz <= newsz < KERNBASE && newsz != 0 ==>
      (sz == newsz <==>
        && Unused(old(d.D()), Pages(oldsz), Pages(newsz))
        && |old(k.free)| >= Need(old(d.D()), Pages(oldsz), Pages(newsz)))
    ensures oldsz <= newsz < KERNBASE && !panic ==> sz == newsz || sz == 0
    ensures oldsz <= newsz < KERNBASE && !panic && sz == newsz && newsz != 0 ==>
      Unused(old(d.D()), Pages(oldsz), Pages(newsz)) && Extended(old(d.D()), d.D(), k.data, Pages(oldsz), Pages(newsz))
    ensures oldsz <= newsz < KERNBASE && !panic && sz == 0 && newsz != 0 ==>
      && Unmapped(old(d.D()), d.D(), Pages(oldsz), Pages(newsz))
      && (SameLookups(old(d.D()), d.D()) <==> Unused(old(d.D()), Pages(oldsz), Pages(newsz)))
  {
    hide Inv, Lookup, Has, Conserved, FrameAt, Scan, Tables, TablesOf, Need, Cost;
    ghost var was, free, data := d.D(), k.free, k.data;
    panic := false;
    ConservedItself(was, free);
    if newsz >= KERNBASE {
      return 0, false;
    }
    if newsz < oldsz {
      return oldsz, false;
    }
    var a := (oldsz + PGSIZE - 1) / PGSIZE * PGSIZE;
    ghost var lo, hi := Pages(oldsz), Pages(newsz);
    NothingNeeded(was, lo);
    while a < newsz
      invariant a % PGSIZE == 0 && lo <= a / PGSIZE <= hi
      invariant Inv(d.D(), k.free) && Conserved(was, free, d.D(), k.free)
      invariant Extended(was, d.D(), k.data, lo, a / PGSIZE) && Unused(was, lo, a / PGSIZE)
      invariant Untouched(data, k.data, free) && Within(k.free, free)
      invariant Tables(d.D()) == Tables(was) + TablesOf(lo, a / PGSIZE)
      invariant |free| == |k.free| + Need(was, lo, a / PGSIZE)
    {
      var v := a / PGSIZE;
      NeedNext(was, d.D(), lo, v);
      ghost var t, pool, data1 := d.D(), k.free, k.data;
      assert Lookup(t, v) == Lookup(was, v);
      var r, f := AddPage(k, d, v);
      if r.Remap? {
        assert FirstMapped(was, lo, hi, v);
        return 0, true;
      }
      if r.NoMemory? {
        ghost var hand := if f == 0 then [] else [f];
        assert hand + k.free == pool;
        Rollback(k, d, oldsz, newsz, f, was, free, v);
        RollbackKept(data, free, data1, f, k.data, k.free);
        UnmappedSame(was, d.D(), lo, hi);
        RanOut(was, t, lo, v, hi, |free|);
        return 0, false;
      }
      NewPageKeeps(was, t, d.D(), pool, data1, lo, v, f);
      ConservedMore(was, free, t, pool, d.D(), k.free);
      PoolPageSet(data, data1, free, f, ZEROS);
      a := a + PGSIZE;
    }
    sz := newsz;
  }

  /** Page `v` is the first one of the range that is mapped. */
  ghost predicate FirstMapped(d: Dir, lo: nat, hi: nat, v: nat)
    requires Shape(d)
  {
    lo <= v < hi && v < NPAGES && Unused(d, lo, v) && Lookup(d, v).Pte?
  }

  /** If the pool is empty at page `v`, it has too few pages for the range, and no
      page of it is met that is mapped. */
  lemma RanOut(was: Dir, t: Dir, lo: nat, v: nat, hi: nat, pages: nat)
    requires Shape(was) && Shape(t) && lo <= v < hi <= NPAGES && Unused(was, lo, v)
    requires Lookup(t, v) == Lookup(was, v)
    requires Need(was, lo, v + 1) == Need(was, lo, v) + Cost(t, v) && Need(was, lo, v) <= pages < Need(was, lo, v + 1)
    ensures pages < Need(was, lo, hi)
    ensures forall u: nat :: FirstMapped(was, lo, hi, u) ==> pages <= Need(was, lo, u)
  {
    hide Lookup, Need;
    NeedGrows(was, lo, v + 1, hi);
    forall u: nat | FirstMapped(was, lo, hi, u)
      ensures pages <= Need(was, lo, u)
    {
      if u == v {
        PresentTable(t, v);
      } else if u > v {
        NeedGrows(was, lo, v + 1, u);
      }
    }
  }

  /** Taking the pages of a range away changes nothing if none was there. */
  lemma UnmappedSame(was: Dir, d: Dir, lo: nat, hi: nat)
    requires Shape(was) && Shape(d) && Unmapped(was, d, lo, hi)
    ensures SameLookups(was, d) <==> Unused(was, lo, hi)
  {
    hide Lookup;
    if SameLookups(was, d) {
      forall v: nat | lo <= v < hi && v < NPAGES
        ensures Lookup(was, v).NoPte?
      {
        assert Lookup(d, v) == NoPte;
      }
    }
    if Unused(was, lo, hi) {
      forall v: nat | v < NPAGES
        ensures Lookup(d, v) == Lookup(was, v)
      {
        assert lo <= v < hi ==> Lookup(was, v).NoPte?;
      }
    }
  }

  lemma PoolPageSet(data: map<nat, Page>, data1: map<nat, Page>, free: seq<nat>, f: nat, p: Page)
    requires Untouched(data, data1, free) && f in free
    ensures Untouched(data, data1[f := p], free)
  {
    forall g: nat | g !in free
      ensures PageOf(data1[f := p], g) == PageOf(data, g)
    {
      assert PageOf(data1, g) == PageOf(data, g);
    }
  }

  // ---- The kernel's part ----

  /** Pages `v` to `v + n` are mapped to frames from `frame` on. */
  datatype Range = Range(v: nat, n: nat, frame: nat, flags: nat)

  predicate InRange(r: Range, u: nat)
  {
    r.v <= u < r.v + r.n
  }

  /** The kernel's ranges lie above KERNBASE and do not overlap. */
  ghost predicate IsKmap(kmap: seq<Range>)
  {
    && (forall i :: 0 <= i < |kmap| ==> NUSER <= kmap[i].v && 0 < kmap[i].n && kmap[i].v + kmap[i].n <= NPAGES)
    && (forall i, j, u {:trigger InRange(kmap[i], u), InRange(kmap[j], u)} ::
          0 <= i < |kmap| && 0 <= j < |kmap| && InRange(kmap[i], u) && InRange(kmap[j], u) ==> i == j)
  }

  const EXTMEM: nat := 0x10_0000
  const PHYSTOP: nat := 0xE00_0000
  const DEVSPACE: nat := 0xFE00_0000
  const KERNLINK: nat := KERNBASE + EXTMEM
  const ADDRESSES: nat := 0x1_0000_0000

  /** What `mappages` makes of a row of `kmap`: all pages from that of the first
      byte to that of the last one. The size is computed in 32 bits. */
  function RowRange(virt: nat, start: nat, end: nat, perm: nat): (r: Range)
    requires virt + (end - start) % ADDRESSES > 0
  {
    var last := virt + (end - start) % ADDRESSES - 1;
    Range(virt / PGSIZE, if last < virt then 0 else last / PGSIZE - virt / PGSIZE + 1, start / PGSIZE, perm)
  }

  /** The four rows of `kmap`; `kdata` is the address of the kernel's data. */
  function Kmap(kdata: nat): (kmap: seq<Range>)
    requires KERNLINK < kdata < KERNBASE + PHYSTOP
  {
    [RowRange(KERNBASE, 0, EXTMEM, PTE_W),
     RowRange(KERNLINK, KERNLINK - KERNBASE, kdata - KERNBASE, 0),
     RowRange(kdata, kdata - KERNBASE, PHYSTOP, PTE_W),
     RowRange(DEVSPACE, DEVSPACE, 0, PTE_W)]
  }

  lemma KmapRows(kdata: nat)
    requires KERNLINK < kdata < KERNBASE + PHYSTOP
    ensures var text, rest := Kmap(kdata)[1], Kmap(kdata)[2];
            && Kmap(kdata)[0] == Range(0x8_0000, 0x100, 0, PTE_W)
            && text.v == 0x8_0100 && text.v + text.n == (kdata - 1) / PGSIZE + 1
            && text.frame == 0x100 && text.flags == 0
            && rest.v == kdata / PGSIZE && rest.v + rest.n == 0x8_E000
            && rest.frame == kdata / PGSIZE - 0x8_0000 && rest.flags == PTE_W
            && Kmap(kdata)[3] == Range(0xF_E000, 0x2000, 0xF_E000, PTE_W)
  {
  }

  /** The rows do not overlap if and only if the kernel's data starts a page, as
      the linker script sees to: otherwise the last page of the text is the first
      page of the data. */
  lemma KmapOkIff(kdata: nat)
    requires KERNLINK < kdata < KERNBASE + PHYSTOP
    ensures IsKmap(Kmap(kdata)) <==> kdata % PGSIZE == 0
  {
    KmapRows(kdata);
    var kmap, p := Kmap(kdata), kdata / PGSIZE;
    hide Kmap;
    if kdata % PGSIZE == 0 {
      assert (kdata - 1) / PGSIZE + 1 == p;
    } else {
      assert (kdata - 1) / PGSIZE == p;
      assert InRange(kmap[1], p) && InRange(kmap[2], p);
    }
  }

  function Target(r: Range, u: nat): (p: Pte)
    requires InRange(r, u)
  {
    Pte(r.frame + (u - r.v), r.flags)
  }

  /** The entry for page `u` after the first `i` ranges. */
  function Kernel(kmap: seq<Range>, i: nat, u: nat): (p: Pte)
    requires i <= |kmap|
  {
    if i == 0 then NoPte
    else if InRange(kmap[i - 1], u) then Target(kmap[i - 1], u)
    else Kernel(kmap, i - 1, u)
  }

  /** The first `i` ranges and `m` pages of the next one are mapped, and nothing
      else is. */
  ghost predicate KernelTo(d: Dir, kmap: seq<Range>, i: nat, m: nat)
    requires Shape(d) && i <= |kmap|
  {
    forall u: nat {:trigger Lookup(d, u)} :: u < NPAGES ==>
      Lookup(d, u) == if i < |kmap| && kmap[i].v <= u < kmap[i].v + m && m <= kmap[i].n then Target(kmap[i], u)
                      else Kernel(kmap, i, u)
  }

  lemma {:induction false} NotYet(kmap: seq<Range>, i: nat, j: nat, u: nat)
    requires IsKmap(kmap) && i <= j < |kmap| && InRange(kmap[j], u)
    ensures Kernel(kmap, i, u) == NoPte
  {
    if i > 0 {
      assert !InRange(kmap[i - 1], u);
      NotYet(kmap, i - 1, j, u);
    }
  }

  /** The user's part of a new directory is empty. */
  lemma {:induction false} KernelHigh(kmap: seq<Range>, i: nat, u: nat)
    requires IsKmap(kmap) && i <= |kmap| && u < NUSER
    ensures Kernel(kmap, i, u) == NoPte
  {
    if i > 0 {
      KernelHigh(kmap, i - 1, u);
    }
  }

  /** The kernel's entry for page `u`: all of physical memory from KERNBASE on, with
      its text read-only, and the devices at their own addresses. */
  function KernelEntry(kdata: nat, u: nat): (p: Pte)
  {
    if 0x8_0000 <= u < 0x8_E000 then
      Pte(u - 0x8_0000, if 0x8_0100 <= u < kdata / PGSIZE then 0 else PTE_W)
    else if 0xF_E000 <= u < NPAGES then Pte(u, PTE_W)
    else NoPte
  }

  lemma KernelIs(kdata: nat, u: nat)
    requires KERNLINK < kdata < KERNBASE + PHYSTOP && kdata % PGSIZE == 0 && u < NPAGES
    ensures Kernel(Kmap(kdata), 4, u) == KernelEntry(kdata, u)
  {
    KmapRows(kdata);
    var kmap := Kmap(kdata);
    hide Kmap;
    assert (kdata - 1) / PGSIZE + 1 == kdata / PGSIZE;
    KernelOne(kmap, 3, u);
    KernelOne(kmap, 2, u);
    KernelOne(kmap, 1, u);
    KernelOne(kmap, 0, u);
  }

  lemma KernelOne(kmap: seq<Range>, i: nat, u: nat)
    requires i < |kmap|
    ensures Kernel(kmap, i + 1, u) == if InRange(kmap[i], u) then Target(kmap[i], u) else Kernel(kmap, i, u)
  {
  }

  /** The directory maps what the kernel's entries say, and nothing else. */
  ghost predicate MapsKernel(d: Dir, kdata: nat)
    requires Shape(d)
  {
    forall u: nat {:trigger Lookup(d, u)} :: u < NPAGES ==> Lookup(d, u) == KernelEntry(kdata, u)
  }

  lemma KernelMapped(d: Dir, kdata: nat)
    requires Shape(d) && KERNLINK < kdata < KERNBASE + PHYSTOP && kdata % PGSIZE == 0
    requires KernelTo(d, Kmap(kdata), 4, 0)
    ensures MapsKernel(d, kdata)
  {
    hide Lookup, Kernel, RowRange, KernelEntry;
    forall u: nat | u < NPAGES
      ensures Lookup(d, u) == KernelEntry(kdata, u)
    {
      KernelIs(kdata, u);
      assert Lookup(d, u) == Kernel(Kmap(kdata), 4, u);
    }
  }

  /** The directory is made of pages of the pool `free`. */
  ghost predicate MadeFrom(d: Dir, pool: seq<nat>, free: seq<nat>)
    requires Shape(d)
  {
    forall f: nat {:trigger Has(d, pool, f)} :: Has(d, pool, f) <==> f in free
  }

  ghost predicate IsPool(free: seq<nat>)
  {
    NoDup(free) && 0 !in free
  }

  lemma EmptyDir(d: Dir, f: nat, free: seq<nat>)
    requires d == Dir(f, seq(ENTRIES, _ => NoPde)) && IsPool([f] + free)
    ensures Inv(d, free) && MadeFrom(d, free, [f] + free)
    ensures forall v: nat :: v < NPAGES ==> Lookup(d, v) == NoPte
  {
    assert ([f] + free)[0] == f && forall g :: g in [f] + free <==> g == f || g in free;
    forall i, j | 0 <= i < j < |free|
      ensures free[i] != free[j]
    {
      assert ([f] + free)[i + 1] == free[i] && ([f] + free)[j + 1] == free[j];
    }
    assert forall i :: 0 <= i < |free| ==> ([f] + free)[i + 1] == free[i];
    assert Owns(d, Self, f);
  }

  lemma MadeFromMore(d: Dir, pool: seq<nat>, d': Dir, pool': seq<nat>, free: seq<nat>)
    requires Shape(d) && Shape(d') && MadeFrom(d, pool, free) && Conserved(d, pool, d', pool')
    ensures MadeFrom(d', pool', free)
  {
    hide Has;
    forall f: nat
      ensures Has(d', pool', f) <==> f in free
    {
      assert Has(d, pool, f) <==> Has(d', pool', f);
    }
  }

  lemma NextKernelPage(d: Dir, d': Dir, kmap: seq<Range>, i: nat, m: nat)
    requires Shape(d) && Shape(d') && i < |kmap| && m < kmap[i].n && KernelTo(d, kmap, i, m)
    requires var v := kmap[i].v + m;
             forall u: nat :: u < NPAGES ==>
               Lookup(d', u) == if u == v then Pte(kmap[i].frame + m, kmap[i].flags) else Lookup(d, u)
    ensures KernelTo(d', kmap, i, m + 1)
  {
    hide Lookup, Kernel;
    forall u: nat | u < NPAGES
      ensures Lookup(d', u) == if kmap[i].v <= u < kmap[i].v + (m + 1) then Target(kmap[i], u) else Kernel(kmap, i, u)
    {
      assert Lookup(d', u) == if u == kmap[i].v + m then Pte(kmap[i].frame + m, kmap[i].flags) else Lookup(d, u);
    }
  }

  lemma RangeDone(d: Dir, kmap: seq<Range>, i: nat)
    requires Shape(d) && i < |kmap| && KernelTo(d, kmap, i, kmap[i].n)
    ensures KernelTo(d, kmap, i + 1, 0)
  {
    hide Lookup;
    forall u: nat | u < NPAGES
      ensures Lookup(d, u) == Kernel(kmap, i + 1, u)
    {
      assert Lookup(d, u) == if InRange(kmap[i], u) then Target(kmap[i], u) else Kernel(kmap, i, u);
    }
  }

  /** `mappages` for one of the kernel's ranges. It cannot meet a page that is
      mapped already. */
  method MapRange(k: Kmem, d: PageDir, kmap: seq<Range>, i: nat, ghost free: seq<nat>) returns (r: MapResult)
    requires Inv(d.D(), k.free) && MadeFrom(d.D(), k.free, free) && IsKmap(kmap) && i < |kmap|
    requires KernelTo(d.D(), kmap, i, 0) && MadeOf(d.D(), k.free, free)
    requires TablesOf(kmap[i].v, kmap[i].v + kmap[i].n) <= KernelTables()
    modifies k`free, d
    ensures Inv(d.D(), k.free) && MadeFrom(d.D(), k.free, free) && !r.Remap?
    ensures r.Mapped? ==> KernelTo(d.D(), kmap, i + 1, 0) && MadeOf(d.D(), k.free, free)
    ensures r.NoMemory? ==> |free| < KERNELPAGES
  {
    hide Inv, Lookup, Has, Conserved, FrameAt, KernelTo, MadeFrom, MadeOf, TablesOf, Cost;
    var m := 0;
    while m < kmap[i].n
      invariant m <= kmap[i].n && Inv(d.D(), k.free) && MadeFrom(d.D(), k.free, free) && KernelTo(d.D(), kmap, i, m)
      invariant MadeOf(d.D(), k.free, free)
    {
      ghost var t, pool := d.D(), k.free;
      assert [] + k.free == k.free;
      NotThere(t, kmap, i, m);
      KernelPage(kmap[i], m);
      r := MapPage(k, d, kmap[i].v + m, kmap[i].frame + m, kmap[i].flags, []);
      if r.NoMemory? {
        NoKernelTable(t, pool, free, kmap[i].v + m);
        return;
      }
      MadeOfMore(t, pool, free, d.D(), k.free, kmap[i].v + m);
      assert [] + k.free == k.free && Rest([], kmap[i].v + m) == [];
      MadeFromMore(t, pool, d.D(), k.free, free);
      NextKernelPage(t, d.D(), kmap, i, m);
      m := m + 1;
    }
    RangeDone(d.D(), kmap, i);
    r := Mapped;
  }

  /** The directory and its tables are what is missing from the pool, and every
      table is one of the kernel's. */
  ghost predicate MadeOf(d: Dir, pool: seq<nat>, free: seq<nat>)
    requires |d.pdes| == ENTRIES
  {
    |free| == 1 + |Tables(d)| + |pool| && Tables(d) <= KernelTables()
  }

  lemma KernelPage(r: Range, m: nat)
    requires m < r.n && TablesOf(r.v, r.v + r.n) <= KernelTables()
    ensures (r.v + m) / ENTRIES in KernelTables()
  {
    assert (r.v + m) / ENTRIES in TablesOf(r.v, r.v + r.n);
  }

  lemma MadeOfMore(d: Dir, pool: seq<nat>, free: seq<nat>, d': Dir, pool': seq<nat>, v: nat)
    requires Shape(d) && Shape(d') && MadeOf(d, pool, free) && v < NPAGES && v / ENTRIES in KernelTables()
    requires |pool| + 1 == |pool'| + Cost(d, v) && TableAdded(d, d', v)
    ensures MadeOf(d', pool', free)
  {
    assert HasTable(d, v) <==> v / ENTRIES in Tables(d);
    hide Tables, KernelTables;
    if v / ENTRIES in Tables(d) {
      assert Tables(d') == Tables(d);
    }
  }

  lemma NoKernelTable(d: Dir, pool: seq<nat>, free: seq<nat>, v: nat)
    requires Shape(d) && MadeOf(d, pool, free) && v < NPAGES && v / ENTRIES in KernelTables()
    requires !HasTable(d, v) && pool == []
    ensures |free| < KERNELPAGES
  {
    KernelPages();
    assert v / ENTRIES !in Tables(d);
    hide Tables, KernelTables;
    SubsetSize(Tables(d) + {v / ENTRIES}, KernelTables());
  }

  /** With all of the kernel's pages mapped, all of its tables are there. */
  lemma AllKernelTables(d: Dir, kdata: nat)
    requires Shape(d) && KERNLINK < kdata < KERNBASE + PHYSTOP && kdata % PGSIZE == 0
    requires KernelTo(d, Kmap(kdata), 4, 0)
    ensures KernelTables() <= Tables(d)
  {
    hide KernelTables, Tables, Below, Lookup, Kmap;
    KernelTablesAre();
    forall i | i in KernelTables()
      ensures i in Tables(d)
    {
      KernelTableThere(d, kdata, i);
    }
  }

  lemma KernelTableThere(d: Dir, kdata: nat, i: nat)
    requires Shape(d) && KERNLINK < kdata < KERNBASE + PHYSTOP && kdata % PGSIZE == 0
    requires KernelTo(d, Kmap(kdata), 4, 0) && (512 <= i < 568 || 1016 <= i < ENTRIES)
    ensures i in Tables(d)
  {
    hide Lookup, Kernel, RowRange;
    var u := i * ENTRIES;
    assert u / ENTRIES == i;
    KernelMaps(kdata, u);
    assert Lookup(d, u) == Kernel(Kmap(kdata), 4, u);
    PresentTable(d, u);
  }

  lemma KernelMaps(kdata: nat, u: nat)
    requires KERNLINK < kdata < KERNBASE + PHYSTOP && kdata % PGSIZE == 0
    requires 0x8_0000 <= u < 0x8_E000 || 0xF_E000 <= u < NPAGES
    ensures Kernel(Kmap(kdata), 4, u).Pte?
  {
    KmapRows(kdata);
    var kmap := Kmap(kdata);
    hide Kmap, Kernel;
    var j := if InRange(kmap[0], u) then 0 else if InRange(kmap[1], u) then 1 else if InRange(kmap[2], u) then 2 else 3;
    KernelCovers(kmap, 4, j, u);
  }

  lemma {:induction false} KernelCovers(kmap: seq<Range>, n: nat, j: nat, u: nat)
    requires j < n <= |kmap| && InRange(kmap[j], u)
    ensures Kernel(kmap, n, u).Pte?
  {
    if j < n - 1 {
      KernelCovers(kmap, n - 1, j, u);
    }
  }

  lemma RowTables(kdata: nat, i: nat)
    requires KERNLINK < kdata < KERNBASE + PHYSTOP && kdata % PGSIZE == 0 && i < 4
    ensures var r := Kmap(kdata)[i]; TablesOf(r.v, r.v + r.n) <= KernelTables()
  {
    KmapRows(kdata);
    hide Kmap;
  }

  lemma NotThere(d: Dir, kmap: seq<Range>, i: nat, m: nat)
    requires Shape(d) && IsKmap(kmap) && i < |kmap| && m < kmap[i].n && KernelTo(d, kmap, i, m)
    ensures kmap[i].v + m < NPAGES && Lookup(d, kmap[i].v + m).NoPte?
  {
    hide Lookup, Kernel;
    assert InRange(kmap[i], kmap[i].v + m);
    NotYet(kmap, i, i, kmap[i].v + m);
    assert Lookup(d, kmap[i].v + m) == Kernel(kmap, i, kmap[i].v + m);
  }

  /** `setupkvm`: a directory with the kernel's pages and no others, or, with fewer
      than `KERNELPAGES` pages in the pool, nothing and every page back there. */
  method Setupkvm(k: Kmem, kdata: nat) returns (d: PageDir?)
    requires IsPool(k.free) && KERNLINK < kdata < KERNBASE + PHYSTOP && kdata % PGSIZE == 0
    modifies k
    ensures d != null ==> fresh(d) && Inv(d.D(), k.free) && MadeFrom(d.D(), k.free, old(k.free))
    ensures d != null ==> KernelTo(d.D(), Kmap(kdata), 4, 0) && MapsKernel(d.D(), kdata)
    ensures d != null <==> |old(k.free)| >= KERNELPAGES
    ensures d != null ==> |old(k.free)| == KERNELPAGES + |k.free| && Tables(d.D()) == KernelTables()
    ensures d == null ==> IsPool(k.free) && forall f: nat :: f in k.free <==> f in old(k.free)
    ensures Untouched(old(k.data), k.data, old(k.free))
  {
    hide Inv, Lookup, Has, Conserved, FrameAt, KernelTo, MadeFrom, MadeOf, Tables, TablesOf, KernelTables;
    hide MapsKernel;
    var kmap := Kmap(kdata);
    KmapOkIff(kdata);
    ghost var free := k.free;
    var f := k.Kalloc();
    if f == 0 {
      return null;
    }
    assert free == [f] + k.free;
    d := new PageDir(f);
    EmptyDir(d.D(), f, k.free);
    StartKernel(d.D(), kmap, k.free, free);
    var i := 0;
    while i < |kmap|
      invariant i <= |kmap| && fresh(d) && k.data == old(k.data)
      invariant Inv(d.D(), k.free) && MadeFrom(d.D(), k.free, free) && KernelTo(d.D(), kmap, i, 0)
      invariant MadeOf(d.D(), k.free, free)
    {
      RowTables(kdata, i);
      var r := MapRange(k, d, kmap, i, free);
      if !r.Mapped? {
        ghost var t, pool := d.D(), k.free;
        Freevm(k, d);
        AllReturned(t, pool, free, old(k.data), k.data, k.free);
        return null;
      }
      i := i + 1;
    }
    KernelMapped(d.D(), kdata);
    AllKernelTables(d.D(), kdata);
    AllMade(d.D(), k.free, free);
  }

  lemma StartKernel(d: Dir, kmap: seq<Range>, pool: seq<nat>, free: seq<nat>)
    requires Shape(d) && d.pdes == seq(ENTRIES, _ => NoPde) && |free| == 1 + |pool|
    requires forall v: nat :: v < NPAGES ==> Lookup(d, v) == NoPte
    ensures KernelTo(d, kmap, 0, 0) && MadeOf(d, pool, free)
  {
    hide Lookup, KernelTables;
    assert Tables(d) == {};
  }

  lemma AllMade(d: Dir, pool: seq<nat>, free: seq<nat>)
    requires |d.pdes| == ENTRIES && MadeOf(d, pool, free) && KernelTables() <= Tables(d)
    ensures Tables(d) == KernelTables() && |free| == KERNELPAGES + |pool|
  {
    hide Tables, KernelTables;
    KernelPages();
  }

  lemma AllReturned(d: Dir, pool: seq<nat>, free: seq<nat>, data: map<nat, Page>, data': map<nat, Page>,
                    free': seq<nat>)
    requires Shape(d) && MadeFrom(d, pool, free) && Untouched(data, data', free')
    requires forall f: nat :: f in free' <==> Has(d, pool, f)
    ensures forall f: nat :: f in free' <==> f in free
    ensures Untouched(data, data', free)
  {
    hide Has;
    forall f: nat
      ensures f in free' <==> f in free
    {
      assert Has(d, pool, f) <==> f in free;
    }
  }

  // ---- Copying ----

  /** The first `n` pages of `e` are copies of those of `d`, with the same flags;
      the rest is the kernel's. */
  ghost predicate Copied(d: Dir, data: map<nat, Page>, e: Dir, data': map<nat, Page>, kmap: seq<Range>, n: nat)
    requires Shape(d) && Shape(e)
  {
    forall u: nat {:trigger Lookup(e, u)} :: u < NPAGES ==>
      if u < n then CopyOf(Lookup(d, u), data, Lookup(e, u), data') else Lookup(e, u) == Kernel(kmap, |kmap|, u)
  }

  predicate CopyOf(p: Pte, data: map<nat, Page>, q: Pte, data': map<nat, Page>)
  {
    p.Pte? && q.Pte? && q.flags == p.flags && PageOf(data', q.frame) == PageOf(data, p.frame)
  }

  lemma CopiedNext(d: Dir, data: map<nat, Page>, t: Dir, data1: map<nat, Page>, e: Dir, pool: seq<nat>,
                   kmap: seq<Range>, n: nat, f: nat)
    requires Shape(d) && Shape(e) && n < NUSER && Inv(t, pool) && f in pool && Copied(d, data, t, data1, kmap, n)
    requires Lookup(d, n).Pte? && PageOf(data1, Lookup(d, n).frame) == PageOf(data, Lookup(d, n).frame)
    requires forall u: nat :: u < NPAGES ==> Lookup(e, u) == if u == n then Pte(f, Lookup(d, n).flags) else Lookup(t, u)
    ensures Copied(d, data, e, data1[f := PageOf(data1, Lookup(d, n).frame)], kmap, n + 1)
  {
    hide Has, Kernel, Lookup;
    var data2 := data1[f := PageOf(data1, Lookup(d, n).frame)];
    forall u: nat | u < NPAGES
      ensures if u < n + 1 then CopyOf(Lookup(d, u), data, Lookup(e, u), data2)
              else Lookup(e, u) == Kernel(kmap, |kmap|, u)
    {
      assert Lookup(e, u) == if u == n then Pte(f, Lookup(d, n).flags) else Lookup(t, u);
      if u < n {
        SlotsApart(t, pool, User(u), User(u));
        assert CopyOf(Lookup(d, u), data, Lookup(t, u), data1);
      }
    }
  }

  lemma CopiedKernel(d: Dir, data: map<nat, Page>, e: Dir, data': map<nat, Page>, kdata: nat, n: nat)
    requires Shape(d) && Shape(e) && KERNLINK < kdata < KERNBASE + PHYSTOP && kdata % PGSIZE == 0
    requires Copied(d, data, e, data', Kmap(kdata), n)
    ensures forall u: nat :: n <= u < NPAGES ==> Lookup(e, u) == KernelEntry(kdata, u)
  {
    hide Lookup, Kernel, RowRange, KernelEntry;
    forall u: nat | n <= u < NPAGES
      ensures Lookup(e, u) == KernelEntry(kdata, u)
    {
      KernelIs(kdata, u);
      assert Lookup(e, u) == Kernel(Kmap(kdata), 4, u);
    }
  }

  /** One turn of the loop of `copyuvm`. */
  method CopyPage(k: Kmem, d: PageDir, e: PageDir, v: nat) returns (ok: bool, f: nat)
    requires d != e && Shape(d.D()) && v < NUSER && Lookup(d.D(), v).Pte? && Inv(e.D(), k.free)
    requires Lookup(e.D(), v).NoPte?
    modifies k, e
    ensures ok ==> Inv(e.D(), k.free) && Conserved(old(e.D()), old(k.free), e.D(), k.free)
    ensures ok <==> |old(k.free)| >= Cost(old(e.D()), v)
    ensures ok ==> |old(k.free)| == |k.free| + Cost(old(e.D()), v) && TableAdded(old(e.D()), e.D(), v)
    ensures ok ==> f in old(k.free) && k.data == old(k.data)[f := PageOf(old(k.data), Lookup(d.D(), v).frame)]
    ensures ok ==>
      forall u: nat :: u < NPAGES ==>
        Lookup(e.D(), u) == if u == v then Pte(f, Lookup(d.D(), v).flags) else Lookup(old(e.D()), u)
    ensures !ok ==> e.pdes == old(e.pdes) && k.free == old(k.free)
    ensures !ok ==> k.data == old(k.data) || (f in old(k.free) && k.data == old(k.data)[f := JUNK])
  {
    hide Inv, Lookup, Has, Conserved, FrameAt, TableAdded;
    ghost var was, free := e.D(), k.free;
    PresentTable(d.D(), v);
    LookupIs(d.D(), v);
    var pte := d.pdes[v / ENTRIES].ptes[v % ENTRIES];
    f := k.Kalloc();
    if free != [] {
      assert [] + free == free == [f] + k.free;
      PoolHasNoNull(was, [], free);
    }
    if f == 0 {
      return false, 0;
    }
    k.data := k.data[f := PageOf(k.data, pte.frame)];
    var r := MapPage(k, e, v, f, pte.flags, [f]);
    assert Rest([f], v) + k.free == k.free;
    ok := r.Mapped?;
    if !ok {
      k.Kfree(f);
      assert k.data == old(k.data)[f := JUNK];
    }
  }

  /** `copyuvm`: a directory with copies of the first pages of `d` and the
      kernel's pages, made of pages from the pool; or nothing, and every page is
      back in the pool. The pages of `d` are not touched. It panics at the first
      page that is absent, unless memory runs out before. */
  method Copyuvm(k: Kmem, d: PageDir, sz: nat, kdata: nat) returns (e: PageDir?, panic: bool)
    requires Inv(d.D(), k.free) && sz <= KERNBASE && KERNLINK < kdata < KERNBASE + PHYSTOP && kdata % PGSIZE == 0
    modifies k
    ensures !panic ==> Inv(d.D(), k.free)
    ensures panic <==> exists v: nat :: FirstAbsent(d.D(), Pages(sz), v) && |old(k.free)| >= CopyNeed(v)
    ensures e != null <==> AllPresent(d.D(), Pages(sz)) && |old(k.free)| >= CopyNeed(Pages(sz))
    ensures !panic && e != null ==> fresh(e) && Inv(e.D(), k.free) && MadeFrom(e.D(), k.free, old(k.free))
    ensures !panic && e != null ==> Copied(d.D(), old(k.data), e.D(), k.data, Kmap(kdata), Pages(sz))
    ensures !panic && e != null ==>
      forall u: nat :: Pages(sz) <= u < NPAGES ==> Lookup(e.D(), u) == KernelEntry(kdata, u)
    ensures !panic && e == null ==> IsPool(k.free) && forall f: nat :: f in k.free <==> f in old(k.free)
    ensures Untouched(old(k.data), k.data, old(k.free)) || panic
  {
    hide Inv, Lookup, Has, Conserved, FrameAt, KernelTo, MadeFrom, Copied, Untouched, CopyNeed, Copying, Tables, Cost;
    ghost var free, data := k.free, k.data;
    InvPool(d.D(), free);
    panic := false;
    ghost var kmap := Kmap(kdata);
    KmapOkIff(kdata);
    e := Setupkvm(k, kdata);
    if e == null {
      PoolShrinks(d.D(), free, k.free);
      CopyNeedLeast();
      return;
    }
    ghost var e0 := e.D();
    StartCopying(e0, k.free, free);
    StartCopy(d.D(), data, e.D(), k.data, kmap);
    var i := 0;
    while i < sz
      invariant i % PGSIZE == 0 && i / PGSIZE <= Pages(sz) && e != null && fresh(e) && d.pdes == old(d.pdes)
      invariant Inv(e.D(), k.free) && MadeFrom(e.D(), k.free, free)
      invariant Copied(d.D(), data, e.D(), k.data, kmap, i / PGSIZE) && Untouched(data, k.data, free)
      invariant AllPresent(d.D(), i / PGSIZE) && Copying(e0, e.D(), k.free, free, i / PGSIZE)
    {
      var v := i / PGSIZE;
      CopyingNext(e0, e.D(), k.free, free, v);
      var there := Present(d, v);
      if !there {
        assert FirstAbsent(d.D(), Pages(sz), v);
        return null, true;
      }
      ghost var t, pool, data1 := e.D(), k.free, k.data;
      NotCopied(d.D(), data, t, data1, kmap, v);
      var ok, f := CopyPage(k, d, e, v);
      if !ok {
        CopyFailed(k, e, t, pool, free, data, data1, f);
        PoolShrinks(d.D(), free, k.free);
        CopyRanOut(d.D(), v, Pages(sz), |free|);
        return null, false;
      }
      PoolOfPool(t, pool, free, f);
      ParentPage(d.D(), free, data, data1, v);
      CopiedNext(d.D(), data, t, data1, e.D(), pool, kmap, v, f);
      MadeFromMore(t, pool, e.D(), k.free, free);
      PoolPageSet(data, data1, free, f, PageOf(data1, Lookup(d.D(), v).frame));
      CopyingStep(e0, t, pool, free, v, e.D(), k.free);
      i := i + PGSIZE;
    }
    CopyingIs(e0, e.D(), k.free, free, Pages(sz));
    CopiedKernel(d.D(), data, e.D(), k.data, kdata, Pages(sz));
    InvPool(e.D(), k.free);
    forall f | f in k.free
      ensures f in free
    {
      PoolOfPool(e.D(), k.free, free, f);
    }
    PoolShrinks(d.D(), free, k.free);
  }

  ghost predicate AllPresent(d: Dir, n: nat)
    requires Shape(d)
  {
    forall v: nat {:trigger Lookup(d, v)} :: v < n && v < NPAGES ==> Lookup(d, v).Pte?
  }

  /** Page `v` is the first one below `hi` that is not mapped. */
  ghost predicate FirstAbsent(d: Dir, hi: nat, v: nat)
    requires Shape(d)
  {
    v < hi && v < NPAGES && AllPresent(d, v) && Lookup(d, v).NoPte?
  }

  /** The copy `e` of `n` pages was made of what is missing from the pool; `e0` is
      the directory it started from. */
  ghost predicate Copying(e0: Dir, e: Dir, pool: seq<nat>, free: seq<nat>, n: nat)
    requires |e0.pdes| == ENTRIES && |e.pdes| == ENTRIES
  {
    && Tables(e0) == KernelTables() && Tables(e) == Tables(e0) + TablesOf(0, n)
    && |free| == CopyNeed(n) + |pool|
  }

  lemma StartCopying(e: Dir, pool: seq<nat>, free: seq<nat>)
    requires |e.pdes| == ENTRIES && Tables(e) == KernelTables() && |free| == KERNELPAGES + |pool|
    ensures Copying(e, e, pool, free, 0)
  {
    hide Tables, KernelTables, TablesOf;
    NothingNeeded(e, 0);
  }

  lemma CopyingIs(e0: Dir, e: Dir, pool: seq<nat>, free: seq<nat>, n: nat)
    requires |e0.pdes| == ENTRIES && |e.pdes| == ENTRIES && Copying(e0, e, pool, free, n)
    ensures |free| == CopyNeed(n) + |pool|
  {
    hide Tables, KernelTables, TablesOf, CopyNeed;
  }

  lemma CopyingNext(e0: Dir, e: Dir, pool: seq<nat>, free: seq<nat>, v: nat)
    requires |e0.pdes| == ENTRIES && |e.pdes| == ENTRIES && Copying(e0, e, pool, free, v) && v < NUSER
    ensures |free| == CopyNeed(v) + |pool| && CopyNeed(v + 1) == CopyNeed(v) + Cost(e, v)
  {
    hide Tables, KernelTables, TablesOf, CopyNeed, Cost, Need;
    NeedNext(e0, e, 0, v);
    CopyNeedIs(e0, v);
    CopyNeedIs(e0, v + 1);
  }

  lemma CopyingStep(e0: Dir, t: Dir, pool: seq<nat>, free: seq<nat>, v: nat, e: Dir, pool': seq<nat>)
    requires |e0.pdes| == ENTRIES && |t.pdes| == ENTRIES && |e.pdes| == ENTRIES && v < NUSER
    requires Copying(e0, t, pool, free, v) && TableAdded(t, e, v) && |pool| == |pool'| + Cost(t, v)
    ensures Copying(e0, e, pool', free, v + 1)
  {
    hide Tables, KernelTables, TablesOf, CopyNeed, Cost;
    CopyingNext(e0, t, pool, free, v);
    NeedNext(e0, t, 0, v);
  }

  /** If the pool is empty at page `v`, it has too few pages for the copy, and no
      page is met that is absent. */
  lemma CopyRanOut(d: Dir, v: nat, hi: nat, pages: nat)
    requires Shape(d) && v < hi <= NUSER && AllPresent(d, v + 1) && CopyNeed(v) <= pages < CopyNeed(v + 1)
    ensures pages < CopyNeed(hi)
    ensures forall u: nat :: FirstAbsent(d, hi, u) ==> pages < CopyNeed(u)
  {
    hide Lookup;
    CopyNeedGrows(v + 1, hi);
    forall u: nat | FirstAbsent(d, hi, u)
      ensures pages < CopyNeed(u)
    {
      if u > v {
        CopyNeedGrows(v + 1, u);
      }
    }
  }

  /** Is page `v` mapped? */
  method Present(d: PageDir, v: nat) returns (there: bool)
    requires Shape(d.D()) && v < NPAGES
    ensures there <==> Lookup(d.D(), v).Pte?
  {
    there := d.pdes[v / ENTRIES].Pde? && d.pdes[v / ENTRIES].ptes[v % ENTRIES].Pte?;
  }

  /** The end of `copyuvm` when it runs out of pages. */
  method CopyFailed(k: Kmem, e: PageDir, ghost t: Dir, ghost pool: seq<nat>, ghost free: seq<nat>,
                    ghost data: map<nat, Page>, ghost data1: map<nat, Page>, ghost f: nat)
    requires e.D() == t && Inv(t, pool) && k.free == pool && MadeFrom(t, pool, free) && Untouched(data, data1, free)
    requires k.data == data1 || (f in pool && k.data == data1[f := JUNK])
    modifies k, e
    ensures IsPool(k.free) && (forall g: nat :: g in k.free <==> g in free) && Untouched(data, k.data, free)
  {
    hide Inv, Lookup, Has, Conserved, FrameAt, MadeFrom, Untouched;
    if k.data != data1 {
      PoolOfPool(t, pool, free, f);
      PoolPageSet(data, data1, free, f, JUNK);
    }
    ghost var data2 := k.data;
    Freevm(k, e);
    AllReturned(t, pool, free, data2, k.data, k.free);
    UntouchedMore(data, data2, k.data, free);
  }

  lemma UntouchedMore(data: map<nat, Page>, data1: map<nat, Page>, data2: map<nat, Page>, free: seq<nat>)
    requires Untouched(data, data1, free) && Untouched(data1, data2, free)
    ensures Untouched(data, data2, free)
  {
    forall f: nat | f !in free
      ensures PageOf(data2, f) == PageOf(data, f)
    {
      assert PageOf(data1, f) == PageOf(data, f);
    }
  }

  lemma InvPool(d: Dir, free: seq<nat>)
    requires Inv(d, free)
    ensures IsPool(free)
  {
  }

  /** A directory does not mind if the pool gets smaller. */
  lemma PoolShrinks(d: Dir, free: seq<nat>, free': seq<nat>)
    requires Inv(d, free) && IsPool(free') && Within(free', free)
    ensures Inv(d, free')
  {
    hide FrameAt, Lookup;
    forall x, y | IsSlot(x) && IsSlot(y)
      ensures Apart(d, free', x, y)
    {
      SlotsApart(d, free, x, y);
    }
  }

  /** The pool holds only pages that were in the pool. */
  lemma PoolOfPool(d: Dir, pool: seq<nat>, free: seq<nat>, f: nat)
    requires Shape(d) && MadeFrom(d, pool, free) && f in pool
    ensures f in free
  {
    assert Has(d, pool, f);
  }

  /** The pages of the parent are not in the pool. */
  lemma ParentPage(d: Dir, free: seq<nat>, data: map<nat, Page>, data1: map<nat, Page>, v: nat)
    requires Inv(d, free) && v < NUSER && Lookup(d, v).Pte? && Untouched(data, data1, free)
    ensures PageOf(data1, Lookup(d, v).frame) == PageOf(data, Lookup(d, v).frame)
  {
    SlotsApart(d, free, User(v), User(v));
  }

  lemma StartCopy(d: Dir, data: map<nat, Page>, e: Dir, data': map<nat, Page>, kmap: seq<Range>)
    requires Shape(d) && Shape(e) && KernelTo(e, kmap, |kmap|, 0)
    ensures Copied(d, data, e, data', kmap, 0)
  {
    hide Lookup, Kernel;
  }

  lemma NotCopied(d: Dir, data: map<nat, Page>, e: Dir, data': map<nat, Page>, kmap: seq<Range>, v: nat)
    requires Shape(d) && Shape(e) && IsKmap(kmap) && v < NUSER && Copied(d, data, e, data', kmap, v)
    ensures Lookup(e, v).NoPte?
  {
    hide Lookup;
    KernelHigh(kmap, |kmap|, v);
    assert Lookup(e, v) == Kernel(kmap, |kmap|, v);
  }

  /** Parent and child own no page together. */
  lemma ParentAndChild(d: Dir, free: seq<nat>, e: Dir, pool: seq<nat>, x: Slot, y: Slot)
    requires Inv(d, free) && Shape(e) && MadeFrom(e, pool, free) && IsSlot(x) && IsSlot(y) && FrameAt(d, x) != 0
    ensures FrameAt(d, x) != FrameAt(e, y)
  {
    SlotsApart(d, free, x, x);
    if FrameAt(e, y) == FrameAt(d, x) {
      assert Owns(e, y, FrameAt(e, y));
      assert Has(e, pool, FrameAt(e, y));
    }
  }
}
