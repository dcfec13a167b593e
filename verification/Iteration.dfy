/**
 * Hash maps are iterated in an arbitrary order. Functions that model such a loop take the order as
 * an argument, methods draw one here.
 */
module Iteration {
  ghost predicate Enumerates<T(!new)>(order: seq<T>, s: set<T>) {
    (forall x :: x in order <==> x in s) && forall i, j | 0 <= i < j < |order| :: order[i] != order[j]
  }

  method IterationOrder<T(==,!new)>(s: set<T>) returns (order: seq<T>)
    ensures Enumerates(order, s)
  {
    order := [];
    var left := s;
    while left != {}
      invariant left <= s && Enumerates(order, s - left)
      decreases left
    {
      var x :| x in left;
      left := left - {x};
      order := order + [x];
    }
  }

  lemma EnumerateEmpty<T(!new)>(order: seq<T>, s: set<T>)
    requires Enumerates(order, s)
    ensures s == {} <==> order == []
  {
    if order != [] {
      assert order[0] in order;
    }
  }

  function Firsts<A, B>(s: seq<(A, B)>): (r: seq<A>)
    ensures |r| == |s| && forall i | 0 <= i < |s| :: r[i] == s[i].0
  {
    seq(|s|, i requires 0 <= i < |s| => s[i].0)
  }

  function Elements<T(==)>(s: seq<T>): set<T> {
    set x | x in s
  }
}
