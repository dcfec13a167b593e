/** Ordered maps are iterated in the order of their keys, which the keys alone determine. */
module Sorting {
  /** Lexicographic order of strings. */
  predicate Leq(a: string, b: string) {
    a == "" || (b != "" && (a[0] < b[0] || (a[0] == b[0] && Leq(a[1..], b[1..]))))
  }

  lemma {:induction false} Total(a: string, b: string)
    ensures Leq(a, b) || Leq(b, a)
    ensures Leq(a, b) && Leq(b, a) ==> a == b
  {
    if a != "" && b != "" {
      Total(a[1..], b[1..]);
      assert a == [a[0]] + a[1..] && b == [b[0]] + b[1..];
    }
  }

  lemma {:induction false} Transitive(a: string, b: string, c: string)
    requires Leq(a, b) && Leq(b, c)
    ensures Leq(a, c)
  {
    if a != "" && a[0] == b[0] && b[0] == c[0] {
      Transitive(a[1..], b[1..], c[1..]);
    }
  }

  predicate Least(k: string, s: set<string>) {
    k in s && forall j | j in s :: Leq(k, j)
  }

  lemma {:induction false} SomeLeast(s: set<string>) returns (k: string)
    requires s != {}
    ensures Least(k, s)
  {
    k :| k in s;
    Total(k, k);
    if s != {k} {
      var rest := s - {k};
      assert s == rest + {k};
      var j := SomeLeast(rest);
      Total(k, j);
      forall i | i in s ensures Leq(if Leq(k, j) then k else j, i) {
        if i == k {
          Total(j, j);
        } else if Leq(k, j) {
          Transitive(k, j, i);
        }
      }
      if !Leq(k, j) {
        k := j;
      }
    }
  }

  /** The keys in ascending order. */
  ghost function Sorted(s: set<string>): (keys: seq<string>)
    ensures forall k :: k in keys <==> k in s
    decreases |s|
  {
    if s == {} then []
    else
      assert exists k :: Least(k, s) by { var k := SomeLeast(s); }
      var k :| Least(k, s);
      [k] + Sorted(s - {k})
  }

  /** How an ordered map is iterated. */
  method SortedKeys(s: set<string>) returns (keys: seq<string>)
    ensures keys == Sorted(s)
  {
    keys := [];
    var left := s;
    while left != {}
      invariant keys + Sorted(left) == Sorted(s)
      decreases |left|
    {
      assert exists k | k in left :: Least(k, left) by { var k := SomeLeast(left); }
      var k :| k in left && Least(k, left);
      LeastUnique(left, k);
      keys := keys + [k];
      left := left - {k};
    }
  }

  lemma LeastUnique(s: set<string>, k: string)
    requires Least(k, s)
    ensures Sorted(s) == [k] + Sorted(s - {k})
  {
    forall j | Least(j, s) ensures j == k {
      Total(j, k);
    }
  }
}
