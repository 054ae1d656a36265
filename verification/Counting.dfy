/**
 Sizes of finite sets.
 */
module Counting {

  lemma {:induction false} BijectionSize<A(!new), B(!new)>(a: set<A>, b: set<B>, f: A -> B, g: B -> A)
    requires forall x :: x in a ==> f(x) in b && g(f(x)) == x
    requires forall y :: y in b ==> g(y) in a && f(g(y)) == y
    ensures |a| == |b|
    decreases |a|
  {
    if a == {} {
      assert b == {} by {
        if y :| y in b {
          assert g(y) in a;
        }
      }
    } else {
      var x :| x in a;
      BijectionSize(a - {x}, b - {f(x)}, f, g);
    }
  }

  lemma {:induction false} SubsetSize<A>(a: set<A>, b: set<A>)
    requires a <= b
    ensures |a| <= |b|
  {
    if a != {} {
      var x :| x in a;
      SubsetSize(a - {x}, b - {x});
    }
  }

  lemma SameSize<A>(a: set<A>, b: set<A>)
    requires a <= b && |a| == |b|
    ensures a == b
  {
    if x :| x in b && x !in a {
      SubsetSize(a, b - {x});
    }
  }

  ghost function Below(n: nat): (r: set<nat>)
    ensures |r| == n && forall k: nat :: k in r <==> k < n
  {
    if n == 0 then {} else Below(n - 1) + {n - 1}
  }

  lemma SizeOfRange(a: nat, b: nat)
    requires a <= b
    ensures |Below(b) - Below(a)| == b - a
  {
    assert Below(b) == (Below(b) - Below(a)) + Below(a);
  }
}
