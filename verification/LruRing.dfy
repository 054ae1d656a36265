/**
 The buffer cache's recency list: a doubly linked ring through the buffers and
 a list head, relinked in place. `order` is the ring read from the head,
 most recently used buffer first.
 */
module LruRing {

  /** The nodes of the ring in order: the head at both ends. */
  function At(order: seq<nat>, head: nat, i: nat): (b: nat)
    requires i <= |order| + 1
  {
    if i == 0 || i == |order| + 1 then head else order[i - 1]
  }

  ghost predicate Distinct(order: seq<nat>)
  {
    forall i, j :: 0 <= i < j < |order| ==> order[i] != order[j]
  }

  ghost predicate Members(order: seq<nat>, head: nat)
  {
    forall i :: 0 <= i < |order| ==> order[i] < head
  }

  /** The links describe `order`, forwards and backwards. */
  ghost predicate Linked(next: seq<nat>, prev: seq<nat>, order: seq<nat>, head: nat)
  {
    && |next| == |prev| == head + 1
    && Distinct(order) && Members(order, head)
    && forall i :: 0 <= i <= |order| ==>
         next[At(order, head, i)] == At(order, head, i + 1) &&
         prev[At(order, head, i + 1)] == At(order, head, i)
  }

  function Without(order: seq<nat>, p: nat): (r: seq<nat>)
    requires p < |order|
  {
    order[..p] + order[p + 1..]
  }

  function IndexOf(order: seq<nat>, b: nat): (p: nat)
    requires b in order
    ensures p < |order| && order[p] == b
  {
    if order[0] == b then 0 else 1 + IndexOf(order[1..], b)
  }

  lemma NodesInRange(next: seq<nat>, prev: seq<nat>, order: seq<nat>, head: nat, i: nat)
    requires Linked(next, prev, order, head) && i <= |order|
    ensures At(order, head, i) <= head && At(order, head, i + 1) <= head
    ensures next[At(order, head, i)] == At(order, head, i + 1)
    ensures prev[At(order, head, i + 1)] == At(order, head, i)
  {
  }

  lemma InsertLinked(next: seq<nat>, prev: seq<nat>, order: seq<nat>, head: nat, b: nat)
    requires Linked(next, prev, order, head) && b < head && b !in order
    ensures next[head] <= head
    ensures Linked(next[b := next[head]][head := b], prev[b := head][next[head] := b], [b] + order, head)
  {
    NodesInRange(next, prev, order, head, 0);
    var first := next[head];
    var next', prev', order' := next[b := first][head := b], prev[b := head][first := b], [b] + order;
    forall i | 0 <= i <= |order'|
      ensures next'[At(order', head, i)] == At(order', head, i + 1)
      ensures prev'[At(order', head, i + 1)] == At(order', head, i)
    {
      if i >= 1 {
        assert At(order', head, i + 1) == At(order, head, i);
        NodesInRange(next, prev, order, head, i - 1);
        if i >= 2 {
          assert At(order', head, i) == At(order, head, i - 1);
        }
      }
    }
  }

  lemma UnlinkLinked(next: seq<nat>, prev: seq<nat>, order: seq<nat>, head: nat, p: nat)
    requires Linked(next, prev, order, head) && p < |order|
    ensures var b := order[p];
            b < head && next[b] <= head && prev[b] <= head &&
            Linked(next[prev[b] := next[b]], prev[next[b] := prev[b]], Without(order, p), head)
  {
    var b := order[p];
    NodesInRange(next, prev, order, head, p);
    NodesInRange(next, prev, order, head, p + 1);
    var next', prev', order' := next[prev[b] := next[b]], prev[next[b] := prev[b]], Without(order, p);
    forall i | 0 <= i <= |order'|
      ensures next'[At(order', head, i)] == At(order', head, i + 1)
      ensures prev'[At(order', head, i + 1)] == At(order', head, i)
    {
      UnlinkedAt(order, head, p, i);
      UnlinkedAt(order, head, p, i + 1);
      var k := if i < p then i else i + 1;
      NodesInRange(next, prev, order, head, k);
      if i == p {
      } else {
        AtInjective(order, head, p, k);
        AtInjective(order, head, p + 2, k + 1);
      }
    }
  }

  lemma UnlinkedAt(order: seq<nat>, head: nat, p: nat, i: nat)
    requires p < |order| && i <= |order|
    ensures At(Without(order, p), head, i) == At(order, head, if i <= p then i else i + 1)
  {
  }

  /** A node other than the head occurs once. */
  lemma AtInjective(order: seq<nat>, head: nat, i: nat, j: nat)
    requires Distinct(order) && Members(order, head) && i <= |order| + 1 && j <= |order| + 1
    ensures At(order, head, i) == At(order, head, j) ==>
      i == j || (i == 0 && j == |order| + 1) || (j == 0 && i == |order| + 1)
  {
  }

  class Ring {
    const head: nat
    const next: array<nat>
    const prev: array<nat>
    ghost var order: seq<nat>

    ghost predicate Valid()
      reads this, next, prev
    {
      next != prev && Linked(next[..], prev[..], order, head)
    }

    /** Every buffer is on the ring. */
    ghost predicate Complete()
      reads this
    {
      |order| == head
    }

    /** Links each of `n` buffers in at the front of an empty ring. */
    constructor (n: nat)
      ensures Valid() && Complete() && head == n && fresh(next) && fresh(prev)
      ensures forall i :: 0 <= i < n ==> order[i] == n - 1 - i
    {
      head := n;
      next := new nat[n + 1];
      prev := new nat[n + 1];
      order := [];
      new;
      next[n] := n;
      prev[n] := n;
      var b := 0;
      while b < n
        invariant b <= n && Valid() && |order| == b
        invariant forall i :: 0 <= i < b ==> order[i] == b - 1 - i
      {
        InsertFront(b);
        b := b + 1;
      }
    }

    method InsertFront(b: nat)
      requires Valid() && b < head && b !in order
      modifies this, next, prev
      ensures Valid() && order == [b] + old(order)
    {
      ghost var next': seq<nat>, prev': seq<nat> := next[..], prev[..];
      InsertLinked(next', prev', order, head, b);
      next[b] := next[head];
      prev[b] := head;
      prev[next[head]] := b;
      next[head] := b;
      order := [b] + order;
      assert next[..] == next'[b := next'[head]][head := b];
      assert prev[..] == prev'[b := head][next'[head] := b];
    }

    method Unlink(b: nat)
      requires Valid() && b in order
      modifies this, next, prev
      ensures Valid() && order == Without(old(order), IndexOf(old(order), b)) && b !in order
    {
      ghost var p := IndexOf(order, b);
      ghost var next': seq<nat>, prev': seq<nat> := next[..], prev[..];
      UnlinkLinked(next', prev', order, head, p);
      prev[next[b]] := prev[b];
      next[prev[b]] := next[b];
      order := Without(order, p);
      assert prev[..] == prev'[next'[b] := prev'[b]];
      assert next[..] == next'[prev'[b] := next'[b]];
    }

    /** What `brelse` does to the ring: the buffer becomes the most recent. */
    method MoveToFront(b: nat)
      requires Valid() && b in order
      modifies this, next, prev
      ensures Valid() && |order| == |old(order)|
      ensures order == [b] + Without(old(order), IndexOf(old(order), b))
    {
      Unlink(b);
      InsertFront(b);
    }
  }
}
