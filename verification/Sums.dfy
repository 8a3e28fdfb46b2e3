/** Adding something up over a list, in whatever order the list is in. */
module Sums {

  function SumBy<T>(f: T -> nat, s: seq<T>): nat {
    if s == [] then 0 else f(s[0]) + SumBy(f, s[1..])
  }

  lemma {:induction false} SumByConcat<T>(f: T -> nat, a: seq<T>, b: seq<T>)
    ensures SumBy(f, a + b) == SumBy(f, a) + SumBy(f, b)
  {
    if a == [] {
      assert a + b == b;
    } else {
      assert (a + b)[1..] == a[1..] + b;
      SumByConcat(f, a[1..], b);
    }
  }

  lemma SumByAround<T>(f: T -> nat, a: seq<T>, x: T, b: seq<T>)
    ensures SumBy(f, a + [x] + b) == f(x) + SumBy(f, a + b)
  {
    assert [x][1..] == [];
    SumByConcat(f, a + [x], b);
    SumByConcat(f, a, [x]);
    SumByConcat(f, a, b);
  }

  lemma SumByTwo<T>(f: T -> nat, x: T, y: T)
    ensures SumBy(f, [x, y]) == f(x) + f(y)
  {
    assert [x, y][1..] == [y] && [y][1..] == [];
    assert SumBy(f, [y]) == f(y);
  }

  lemma RemoveFromBoth<T>(x: T, rest: seq<T>, a: seq<T>, b: seq<T>)
    requires multiset([x] + rest) == multiset(a + [x] + b)
    ensures multiset(rest) == multiset(a + b)
  {
    assert multiset(rest) == multiset([x] + rest) - multiset{x};
    assert multiset(a + b) == multiset(a + [x] + b) - multiset{x};
  }

  lemma {:induction false} SumByPermuted<T>(f: T -> nat, s: seq<T>, t: seq<T>)
    requires multiset(s) == multiset(t)
    ensures SumBy(f, s) == SumBy(f, t)
  {
    if s == [] {
      assert |t| == |multiset(t)| == 0;
    } else {
      var x := s[0];
      assert s == [x] + s[1..];
      assert x in multiset(t);
      var k :| 0 <= k < |t| && t[k] == x;
      var a, b := t[..k], t[k + 1..];
      assert t == a + [x] + b;
      RemoveFromBoth(x, s[1..], a, b);
      SumByPermuted(f, s[1..], a + b);
      SumByAround(f, a, x, b);
    }
  }
}
