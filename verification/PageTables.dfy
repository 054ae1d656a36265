/**
 Two-level page tables and the pool of pages they are made from. A directory
 owns its own page, the pages of its tables and the pages mapped for the user.
 */
module PageTables {

  const ENTRIES: nat := 1024
  const PGSIZE: nat := 4096
  const KERNBASE: nat := 0x8000_0000

  /** The number of virtual pages, and of those below KERNBASE. */
  const NPAGES: nat := 0x10_0000
  const NUSER: nat := 0x8_0000

  /** Pages are named by their frame number; frame 0 is never in the pool. */
  datatype Pte = NoPte | Pte(frame: nat, flags: nat)

  datatype Pde = NoPde | Pde(frame: nat, ptes: seq<Pte>)

  datatype Dir = Dir(frame: nat, pdes: seq<Pde>)

  ghost predicate Shape(d: Dir)
  {
    && |d.pdes| == ENTRIES
    && forall i {:trigger d.pdes[i]} :: 0 <= i < ENTRIES && d.pdes[i].Pde? ==> |d.pdes[i].ptes| == ENTRIES
  }

  /** The entry for virtual page `v`. */
  function Lookup(d: Dir, v: nat): (p: Pte)
    requires Shape(d) && v < NPAGES
  {
    var pde := d.pdes[v / ENTRIES];
    if pde.Pde? then pde.ptes[v % ENTRIES] else NoPte
  }

  // ---- What a directory owns ----

  datatype Slot = Self | Table(i: nat) | User(v: nat)

  predicate IsSlot(x: Slot)
  {
    x.Self? || (x.Table? && x.i < ENTRIES) || (x.User? && x.v < NUSER)
  }

  /** The page in a slot, or 0. */
  function FrameAt(d: Dir, x: Slot): (f: nat)
    requires Shape(d) && IsSlot(x)
  {
    match x
    case Self => d.frame
    case Table(i) => if d.pdes[i].Pde? then d.pdes[i].frame else 0
    case User(v) => if Lookup(d, v).Pte? then Lookup(d, v).frame else 0
  }

  ghost predicate NoDup(free: seq<nat>)
  {
    forall i, j :: 0 <= i < j < |free| ==> free[i] != free[j]
  }

  /** The page in the slot is in no other slot and not in the pool. */
  ghost predicate Apart(d: Dir, free: seq<nat>, x: Slot, y: Slot)
    requires Shape(d) && IsSlot(x) && IsSlot(y)
  {
    FrameAt(d, x) != 0 ==> FrameAt(d, x) !in free && (FrameAt(d, x) == FrameAt(d, y) ==> x == y)
  }

  ghost predicate Inv(d: Dir, free: seq<nat>)
    ensures Inv(d, free) ==> Shape(d)
  {
    && Shape(d) && d.frame != 0 && NoDup(free) && 0 !in free
    && (forall x, y {:trigger Apart(d, free, x, y)} :: IsSlot(x) && IsSlot(y) ==> Apart(d, free, x, y))
    && (forall v: nat {:trigger Lookup(d, v)} :: v < NUSER && Lookup(d, v).Pte? ==> Lookup(d, v).frame != 0)
    && (forall i {:trigger d.pdes[i]} :: 0 <= i < ENTRIES && d.pdes[i].Pde? ==> d.pdes[i].frame != 0)
  }

  ghost predicate Owns(d: Dir, x: Slot, f: nat)
    requires Shape(d)
  {
    IsSlot(x) && f != 0 && FrameAt(d, x) == f
  }

  /** The page is in the pool or belongs to the directory. */
  ghost predicate Has(d: Dir, free: seq<nat>, f: nat)
    requires Shape(d)
  {
    f in free || exists x :: Owns(d, x, f)
  }

  /** No page is lost and none appears. */
  ghost predicate Conserved(d: Dir, free: seq<nat>, d': Dir, free': seq<nat>)
    requires Shape(d) && Shape(d')
  {
    forall f: nat {:trigger Has(d', free', f)} {:trigger Has(d, free, f)} :: Has(d, free, f) <==> Has(d', free', f)
  }

  lemma ConservedMore(d: Dir, free: seq<nat>, d1: Dir, free1: seq<nat>, d2: Dir, free2: seq<nat>)
    requires Shape(d) && Shape(d1) && Shape(d2) && Conserved(d, free, d1, free1) && Conserved(d1, free1, d2, free2)
    ensures Conserved(d, free, d2, free2)
  {
    hide Has;
    forall f: nat
      ensures Has(d, free, f) <==> Has(d2, free2, f)
    {
      assert Has(d, free, f) <==> Has(d1, free1, f);
    }
  }

  // ---- Moving one page ----

  /** Slot `x` changes and no other slot does. */
  ghost predicate OnlySlot(d: Dir, d': Dir, x: Slot)
    requires Shape(d) && Shape(d') && IsSlot(x)
  {
    forall y {:trigger FrameAt(d', y)} :: IsSlot(y) && y != x ==> FrameAt(d', y) == FrameAt(d, y)
  }

  /** The entries that Inv speaks about are not null pointers. */
  ghost predicate NonNull(d: Dir)
    requires Shape(d)
  {
    && d.frame != 0
    && (forall v: nat {:trigger Lookup(d, v)} :: v < NUSER && Lookup(d, v).Pte? ==> Lookup(d, v).frame != 0)
    && (forall i {:trigger d.pdes[i]} :: 0 <= i < ENTRIES && d.pdes[i].Pde? ==> d.pdes[i].frame != 0)
  }

  lemma SlotsApart(d: Dir, free: seq<nat>, x: Slot, y: Slot)
    requires Inv(d, free) && IsSlot(x) && IsSlot(y)
    ensures Apart(d, free, x, y)
  {
    hide FrameAt, Lookup;
  }

  /** A page goes from the pool into an empty slot. */
  lemma Take(d: Dir, a: seq<nat>, f0: nat, b: seq<nat>, d': Dir, x: Slot)
    requires Inv(d, a + [f0] + b) && Shape(d') && NonNull(d') && IsSlot(x) && OnlySlot(d, d', x)
    requires FrameAt(d, x) == 0 && FrameAt(d', x) == f0
    ensures Inv(d', a + b) && Conserved(d, a + [f0] + b, d', a + b)
  {
    hide FrameAt, Lookup;
    var free := a + [f0] + b;
    Removed(a, f0, b);
    forall y, z | IsSlot(y) && IsSlot(z)
      ensures Apart(d', a + b, y, z)
    {
      SlotsApart(d, free, y, z);
      SlotsApart(d, free, z, y);
    }
    forall f: nat
      ensures Has(d, free, f) <==> Has(d', a + b, f)
    {
      assert f in free <==> f == f0 || f in a + b;
      assert Owns(d', x, f0);
      if y :| Owns(d, y, f) {
        assert Owns(d', y, f);
      }
      if y :| Owns(d', y, f) {
        assert y == x || Owns(d, y, f);
      }
    }
  }

  lemma Removed(a: seq<nat>, f0: nat, b: seq<nat>)
    requires NoDup(a + [f0] + b) && 0 !in a + [f0] + b
    ensures NoDup(a + b) && 0 !in a + b && f0 != 0 && f0 !in a + b
    ensures forall f :: f in a + [f0] + b <==> f == f0 || f in a + b
  {
    var free := a + [f0] + b;
    assert free[|a|] == f0;
    forall i | 0 <= i < |a + b|
      ensures (a + b)[i] == free[if i < |a| then i else i + 1] && (a + b)[i] != f0
    {
    }
  }

  /** A page goes from a slot back into the pool. */
  lemma Put(d: Dir, a: seq<nat>, b: seq<nat>, d': Dir, x: Slot)
    requires Inv(d, a + b) && Shape(d') && NonNull(d') && IsSlot(x) && OnlySlot(d, d', x)
    requires FrameAt(d, x) != 0 && FrameAt(d', x) == 0
    ensures Inv(d', a + ([FrameAt(d, x)] + b)) && Conserved(d, a + b, d', a + ([FrameAt(d, x)] + b))
  {
    hide FrameAt, Lookup;
    var f0 := FrameAt(d, x);
    var free := a + ([f0] + b);
    SlotsApart(d, a + b, x, x);
    Inserted(a, f0, b);
    forall y, z | IsSlot(y) && IsSlot(z)
      ensures Apart(d', free, y, z)
    {
      SlotsApart(d, a + b, y, z);
      SlotsApart(d, a + b, y, x);
    }
    forall f: nat
      ensures Has(d, a + b, f) <==> Has(d', free, f)
    {
      assert f in free <==> f == f0 || f in a + b;
      if y :| Owns(d, y, f) {
        assert y == x || Owns(d', y, f);
      }
      if y :| Owns(d', y, f) {
        assert Owns(d, y, f);
      }
      assert Owns(d, x, f0);
    }
  }

  lemma Inserted(a: seq<nat>, f0: nat, b: seq<nat>)
    requires NoDup(a + b) && 0 !in a + b && f0 != 0 && f0 !in a + b
    ensures NoDup(a + ([f0] + b)) && 0 !in a + ([f0] + b)
    ensures forall f :: f in a + ([f0] + b) <==> f == f0 || f in a + b
  {
    var free := a + ([f0] + b);
    assert free[|a|] == f0;
    forall i | 0 <= i < |free| && i != |a|
      ensures free[i] == (a + b)[if i < |a| then i else i - 1] && free[i] != f0
    {
    }
    forall i | 0 <= i < |a + b|
      ensures (a + b)[i] == free[if i < |a| then i else i + 1]
    {
    }
  }

  // ---- Changing an entry ----

  predicate HasTable(d: Dir, v: nat)
    requires |d.pdes| == ENTRIES && v < NPAGES
  {
    d.pdes[v / ENTRIES].Pde?
  }

  function SetPte(d: Dir, v: nat, p: Pte): (d': Dir)
    requires Shape(d) && v < NPAGES && HasTable(d, v)
    ensures Shape(d')
  {
    var i := v / ENTRIES;
    d.(pdes := d.pdes[i := d.pdes[i].(ptes := d.pdes[i].ptes[v % ENTRIES := p])])
  }

  lemma SetPteLookup(d: Dir, v: nat, p: Pte, u: nat)
    requires Shape(d) && v < NPAGES && HasTable(d, v) && u < NPAGES
    ensures Lookup(SetPte(d, v, p), u) == if u == v then p else Lookup(d, u)
  {
    assert u / ENTRIES == v / ENTRIES && u % ENTRIES == v % ENTRIES <==> u == v;
  }

  lemma SetPteSlot(d: Dir, v: nat, p: Pte)
    requires Shape(d) && v < NUSER && HasTable(d, v)
    ensures OnlySlot(d, SetPte(d, v, p), User(v))
    ensures FrameAt(SetPte(d, v, p), User(v)) == if p.Pte? then p.frame else 0
  {
    forall y | IsSlot(y) && y != User(v)
      ensures FrameAt(SetPte(d, v, p), y) == FrameAt(d, y)
    {
      if y.User? {
        SetPteLookup(d, v, p, y.v);
      }
    }
    SetPteLookup(d, v, p, v);
  }

  lemma SetPteNonNull(d: Dir, v: nat, p: Pte)
    requires Shape(d) && NonNull(d) && v < NPAGES && HasTable(d, v) && (v < NUSER && p.Pte? ==> p.frame != 0)
    ensures NonNull(SetPte(d, v, p))
  {
    hide Lookup;
    forall u: nat | u < NUSER && Lookup(SetPte(d, v, p), u).Pte?
      ensures Lookup(SetPte(d, v, p), u).frame != 0
    {
      SetPteLookup(d, v, p, u);
    }
  }

  /** Kernel pages are nobody's. */
  lemma SetKernelPte(d: Dir, free: seq<nat>, v: nat, p: Pte)
    requires Inv(d, free) && NUSER <= v < NPAGES && HasTable(d, v)
    ensures Inv(SetPte(d, v, p), free) && Conserved(d, free, SetPte(d, v, p), free)
  {
    hide Lookup;
    var d' := SetPte(d, v, p);
    SetPteNonNull(d, v, p);
    forall x | IsSlot(x)
      ensures FrameAt(d', x) == FrameAt(d, x)
    {
      if x.User? {
        SetPteLookup(d, v, p, x.v);
      }
    }
    SameSlots(d, d', free);
  }

  lemma SameSlots(d: Dir, d': Dir, free: seq<nat>)
    requires Inv(d, free) && Shape(d') && NonNull(d')
    requires forall x {:trigger FrameAt(d', x)} :: IsSlot(x) ==> FrameAt(d', x) == FrameAt(d, x)
    ensures Inv(d', free) && Conserved(d, free, d', free)
  {
    hide FrameAt, Lookup;
    forall y, z | IsSlot(y) && IsSlot(z)
      ensures Apart(d', free, y, z)
    {
      SlotsApart(d, free, y, z);
    }
    forall f: nat
      ensures Has(d, free, f) <==> Has(d', free, f)
    {
      if y :| Owns(d, y, f) {
        assert Owns(d', y, f);
      }
      if y :| Owns(d', y, f) {
        assert Owns(d, y, f);
      }
    }
  }

  function EmptyTable(): (ptes: seq<Pte>)
    ensures |ptes| == ENTRIES && forall i :: 0 <= i < ENTRIES ==> ptes[i] == NoPte
  {
    seq(ENTRIES, _ => NoPte)
  }

  function AddTable(d: Dir, i: nat, f: nat): (d': Dir)
    requires Shape(d) && i < ENTRIES
    ensures Shape(d')
  {
    d.(pdes := d.pdes[i := Pde(f, EmptyTable())])
  }

  lemma AddTableSlot(d: Dir, i: nat, f: nat)
    requires Shape(d) && i < ENTRIES && d.pdes[i].NoPde?
    ensures OnlySlot(d, AddTable(d, i, f), Table(i)) && FrameAt(AddTable(d, i, f), Table(i)) == f
    ensures forall v: nat :: v < NPAGES ==> Lookup(AddTable(d, i, f), v) == Lookup(d, v)
    ensures NonNull(d) && f != 0 ==> NonNull(AddTable(d, i, f))
  {
  }
}
