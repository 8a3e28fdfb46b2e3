/** Results of operations that may fail: a missing value, or an error in place of one. */
module Outcomes {

  datatype Option<+T> = None | Some(value: T)

  /** `Err` stands both for a returned error and for a panic that the library's
      recover boundary turns into one. */
  datatype Result<+T> = Ok(value: T) | Err {
    predicate IsFailure() {
      Err?
    }
    function PropagateFailure<U>(): Result<U>
      requires Err?
    {
      Err
    }
    function Extract(): T
      requires Ok?
    {
      value
    }
  }

  ghost predicate NoRepeats<T(!new)>(s: seq<T>) {
    forall i, j | 0 <= i < j < |s| :: s[i] != s[j]
  }

  /** The values `f` finds in a list, in order: a parser's usable lines. */
  function Collect<A, B>(f: A -> Option<B>, s: seq<A>): seq<B> {
    if s == [] then []
    else
      var last := f(s[|s| - 1]);
      Collect(f, s[..|s| - 1]) + if last.Some? then [last.value] else []
  }

  lemma {:induction false} CollectConcat<A, B>(f: A -> Option<B>, a: seq<A>, b: seq<A>)
    ensures Collect(f, a + b) == Collect(f, a) + Collect(f, b)
  {
    if b == [] {
      assert a + b == a;
    } else {
      var n := |b| - 1;
      CollectConcat(f, a, b[..n]);
      assert (a + b)[..|a| + n] == a + b[..n] && (a + b)[|a| + n] == b[n];
    }
  }

  lemma CollectOne<A, B>(f: A -> Option<B>, x: A)
    ensures Collect(f, [x]) == if f(x).Some? then [f(x).value] else []
  {
    assert [x][..0] == [];
  }

  lemma CollectMore<A, B>(f: A -> Option<B>, s: seq<A>, n: nat)
    requires n < |s|
    ensures Collect(f, s[..n + 1]) == Collect(f, s[..n]) + if f(s[n]).Some? then [f(s[n]).value] else []
  {
    assert s[..n + 1][..n] == s[..n];
  }

  /** The positions at which `f` finds a value. */
  function Positions<A, B>(f: A -> Option<B>, s: seq<A>): seq<nat> {
    if s == [] then []
    else
      var n := |s| - 1;
      Positions(f, s[..n]) + if f(s[n]).Some? then [n] else []
  }

  lemma {:induction false} PositionsAre<A, B>(f: A -> Option<B>, s: seq<A>, i: nat)
    ensures i in Positions(f, s) <==> i < |s| && f(s[i]).Some?
  {
    if s == [] {
    } else {
      PositionsAre(f, s[..|s| - 1], i);
    }
  }

  /** `at` lists positions in `s` that the values of `out` come from, in order. */
  ghost predicate ComesFrom<A, B>(f: A -> Option<B>, s: seq<A>, out: seq<B>, at: seq<nat>) {
    && |at| == |out| && (forall k, l | 0 <= k < l < |at| :: at[k] < at[l])
    && forall k | 0 <= k < |at| :: at[k] < |s| && f(s[at[k]]) == Some(out[k])
  }

  /** What is collected is a subsequence of the list, value by value. */
  lemma {:induction false} CollectComesFrom<A, B>(f: A -> Option<B>, s: seq<A>)
    ensures ComesFrom(f, s, Collect(f, s), Positions(f, s))
  {
    if s == [] {
    } else {
      var n := |s| - 1;
      var out, at := Collect(f, s[..n]), Positions(f, s[..n]);
      CollectComesFrom(f, s[..n]);
      assert ComesFrom(f, s, out, at) by {
        forall k | 0 <= k < |at| ensures at[k] < |s| && f(s[at[k]]) == Some(out[k]) {
          assert s[..n][at[k]] == s[at[k]];
        }
      }
      assert forall k | 0 <= k < |at| :: at[k] < n;
      if f(s[n]).Some? {
        OneMoreComes(f, s, out, at, f(s[n]).value);
      }
    }
  }

  lemma OneMoreComes<A, B>(f: A -> Option<B>, s: seq<A>, out: seq<B>, at: seq<nat>, b: B)
    requires s != [] && ComesFrom(f, s, out, at) && f(s[|s| - 1]) == Some(b)
    requires forall k | 0 <= k < |at| :: at[k] < |s| - 1
    ensures ComesFrom(f, s, out + [b], at + [|s| - 1])
  {
  }
}
