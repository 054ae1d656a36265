/**
 All page directories together with the pool: what one operation on one of them
 means for the others.
 */
module AddressSpaces {
  import opened PageTables
  import opened Vm

  ghost predicate OwnsSome(d: Dir, f: nat)
    requires Shape(d)
  {
    exists x :: Owns(d, x, f)
  }

  ghost predicate Disjoint(d: Dir, e: Dir)
    requires Shape(d) && Shape(e)
  {
    forall f: nat {:trigger OwnsSome(d, f)} {:trigger OwnsSome(e, f)} :: !(OwnsSome(d, f) && OwnsSome(e, f))
  }

  /** No page has two owners, among all directories and the pool. */
  ghost predicate System(ds: seq<Dir>, free: seq<nat>)
  {
    && IsPool(free)
    && (forall i {:trigger ds[i]} :: 0 <= i < |ds| ==> Inv(ds[i], free))
    && (forall i, j {:trigger Disjoint(ds[i], ds[j])} ::
          0 <= i < |ds| && 0 <= j < |ds| && i != j ==> Disjoint(ds[i], ds[j]))
  }

  /** The page is in the pool or belongs to a directory. */
  ghost predicate InSystem(ds: seq<Dir>, free: seq<nat>, f: nat)
    requires System(ds, free)
  {
    f in free || exists i {:trigger ds[i]} :: 0 <= i < |ds| && OwnsSome(ds[i], f)
  }

  ghost predicate SamePages(ds: seq<Dir>, free: seq<nat>, ds': seq<Dir>, free': seq<nat>)
    requires System(ds, free) && System(ds', free')
  {
    forall f: nat {:trigger InSystem(ds, free, f)} {:trigger InSystem(ds', free', f)} ::
      InSystem(ds, free, f) <==> InSystem(ds', free', f)
  }

  /** What a directory owns is not in the pool. */
  lemma OwnedNotFree(d: Dir, free: seq<nat>, f: nat)
    requires Inv(d, free) && OwnsSome(d, f)
    ensures f !in free && f != 0
  {
    var x :| Owns(d, x, f);
    SlotsApart(d, free, x, x);
  }

  /** A directory stays as it is if the pool gets none of its pages. */
  lemma PoolChanges(d: Dir, free: seq<nat>, free': seq<nat>)
    requires Inv(d, free) && IsPool(free') && forall f: nat :: OwnsSome(d, f) ==> f !in free'
    ensures Inv(d, free')
  {
    hide FrameAt, Lookup;
    forall x, y | IsSlot(x) && IsSlot(y)
      ensures Apart(d, free', x, y)
    {
      SlotsApart(d, free, x, y);
      assert FrameAt(d, x) != 0 ==> Owns(d, x, FrameAt(d, x)) && OwnsSome(d, FrameAt(d, x));
    }
  }

  /** A directory next to one that exchanges pages with the pool. */
  lemma Neighbour(g: Dir, d: Dir, free: seq<nat>, d': Dir, free': seq<nat>)
    requires Inv(g, free) && Inv(d, free) && Disjoint(g, d) && Inv(d', free') && Conserved(d, free, d', free')
    ensures Inv(g, free') && Disjoint(g, d') && Disjoint(d', g)
  {
    hide Inv;
    forall f: nat | OwnsSome(g, f)
      ensures f !in free' && !OwnsSome(d', f)
    {
      OwnedNotFree(g, free, f);
      assert !Has(d, free, f);
      assert !Has(d', free', f);
    }
    InvPool(d', free');
    PoolChanges(g, free, free');
  }

  /** An operation on one directory, such as `allocuvm` or `deallocuvm`, that
      keeps that directory in order keeps all of them in order. */
  lemma OneChanges(ds: seq<Dir>, free: seq<nat>, i: nat, d': Dir, free': seq<nat>)
    requires System(ds, free) && i < |ds| && Inv(d', free') && Conserved(ds[i], free, d', free')
    ensures System(ds[i := d'], free') && SamePages(ds, free, ds[i := d'], free')
  {
    hide Inv, Has, Disjoint;
    var ds' := ds[i := d'];
    InvPool(d', free');
    forall j | 0 <= j < |ds| && j != i
      ensures Inv(ds[j], free') && Disjoint(ds[j], d') && Disjoint(d', ds[j])
    {
      assert Disjoint(ds[j], ds[i]);
      Neighbour(ds[j], ds[i], free, d', free');
    }
    forall j, m | 0 <= j < |ds'| && 0 <= m < |ds'| && j != m
      ensures Disjoint(ds'[j], ds'[m])
    {
      assert j != i && m != i ==> Disjoint(ds[j], ds[m]);
    }
    forall f: nat
      ensures InSystem(ds, free, f) <==> InSystem(ds', free', f)
    {
      HasParts(ds[i], free, f);
      HasParts(d', free', f);
      assert Has(ds[i], free, f) <==> Has(d', free', f);
      OthersSame(ds, i, d', f);
    }
  }

  lemma HasParts(d: Dir, free: seq<nat>, f: nat)
    requires Shape(d)
    ensures Has(d, free, f) <==> f in free || OwnsSome(d, f)
  {
  }

  lemma OthersSame(ds: seq<Dir>, i: nat, d': Dir, f: nat)
    requires i < |ds| && Shape(d') && forall j :: 0 <= j < |ds| ==> Shape(ds[j])
    ensures (exists j {:trigger ds[j]} :: 0 <= j < |ds| && OwnsSome(ds[j], f)) <==>
            OwnsSome(ds[i], f) || exists j {:trigger ds[j]} :: 0 <= j < |ds| && j != i && OwnsSome(ds[j], f)
    ensures var ds' := ds[i := d'];
            (exists j {:trigger ds'[j]} :: 0 <= j < |ds'| && OwnsSome(ds'[j], f)) <==>
            OwnsSome(d', f) || exists j {:trigger ds[j]} :: 0 <= j < |ds| && j != i && OwnsSome(ds[j], f)
  {
    hide OwnsSome;
    var ds' := ds[i := d'];
    assert ds'[i] == d';
    assert forall j :: 0 <= j < |ds| && j != i ==> ds'[j] == ds[j];
  }

  /** A new directory that is made of pages from the pool, as `setupkvm` and
      `copyuvm` make it. */
  lemma OneMore(ds: seq<Dir>, free: seq<nat>, e: Dir, pool: seq<nat>)
    requires System(ds, free) && Inv(e, pool) && MadeFrom(e, pool, free)
    ensures System(ds + [e], pool) && SamePages(ds, free, ds + [e], pool)
  {
    hide Inv, Has, Disjoint;
    var ds' := ds + [e];
    InvPool(e, pool);
    forall j | 0 <= j < |ds|
      ensures Inv(ds[j], pool) && Disjoint(ds[j], e) && Disjoint(e, ds[j])
    {
      NewNeighbour(ds[j], free, e, pool);
    }
    forall j, m | 0 <= j < |ds'| && 0 <= m < |ds'| && j != m
      ensures Disjoint(ds'[j], ds'[m])
    {
      assert j < |ds| && m < |ds| ==> Disjoint(ds[j], ds[m]);
    }
    forall f: nat
      ensures InSystem(ds, free, f) <==> InSystem(ds', pool, f)
    {
      HasParts(e, pool, f);
      assert Has(e, pool, f) <==> f in free;
      assert ds'[|ds|] == e && forall j :: 0 <= j < |ds| ==> ds'[j] == ds[j];
    }
  }

  lemma NewNeighbour(g: Dir, free: seq<nat>, e: Dir, pool: seq<nat>)
    requires Inv(g, free) && Inv(e, pool) && MadeFrom(e, pool, free)
    ensures Inv(g, pool) && Disjoint(g, e) && Disjoint(e, g)
  {
    hide Inv;
    forall f: nat | OwnsSome(g, f)
      ensures f !in pool && !OwnsSome(e, f)
    {
      OwnedNotFree(g, free, f);
      assert !Has(e, pool, f);
    }
    InvPool(e, pool);
    PoolChanges(g, free, pool);
  }

  /** A directory whose pages all go back to the pool, as in `freevm`. */
  lemma OneLess(ds: seq<Dir>, free: seq<nat>, i: nat, free': seq<nat>)
    requires System(ds, free) && i < |ds| && IsPool(free')
    requires forall f: nat :: f in free' <==> Has(ds[i], free, f)
    ensures System(ds[..i] + ds[i + 1..], free') && SamePages(ds, free, ds[..i] + ds[i + 1..], free')
  {
    hide Inv, Has, Disjoint;
    var ds' := ds[..i] + ds[i + 1..];
    forall j | 0 <= j < |ds| && j != i
      ensures Inv(ds[j], free')
    {
      assert Disjoint(ds[j], ds[i]);
      FreedNeighbour(ds[j], ds[i], free, free');
    }
    forall j | 0 <= j < |ds'|
      ensures ds'[j] == ds[Old(i, j)]
    {
    }
    forall j, m | 0 <= j < |ds'| && 0 <= m < |ds'| && j != m
      ensures Disjoint(ds'[j], ds'[m])
    {
      assert Disjoint(ds[Old(i, j)], ds[Old(i, m)]);
    }
    forall f: nat
      ensures InSystem(ds, free, f) <==> InSystem(ds', free', f)
    {
      HasParts(ds[i], free, f);
      if j :| 0 <= j < |ds| && OwnsSome(ds[j], f) {
        assert j != i ==> OwnsSome(ds'[if j < i then j else j - 1], f);
      }
      if j :| 0 <= j < |ds'| && OwnsSome(ds'[j], f) {
        assert OwnsSome(ds[Old(i, j)], f);
      }
    }
  }

  function Old(i: nat, j: nat): (o: nat)
  {
    if j < i then j else j + 1
  }

  lemma FreedNeighbour(g: Dir, d: Dir, free: seq<nat>, free': seq<nat>)
    requires Inv(g, free) && Inv(d, free) && Disjoint(g, d) && IsPool(free')
    requires forall f: nat :: f in free' <==> Has(d, free, f)
    ensures Inv(g, free')
  {
    hide Inv;
    forall f: nat | OwnsSome(g, f)
      ensures f !in free'
    {
      OwnedNotFree(g, free, f);
      assert !Has(d, free, f);
    }
    PoolChanges(g, free, free');
  }
}
