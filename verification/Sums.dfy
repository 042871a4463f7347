/** Totals of weights over sequences, and their independence of order; optional results
    collected over sequences. */
module Sums {
  import opened Text

  function Total<T>(xs: seq<T>, w: T -> nat): nat {
    if xs == [] then 0 else w(xs[0]) + Total(xs[1..], w)
  }

  lemma {:induction false} TotalAppend<T>(a: seq<T>, b: seq<T>, w: T -> nat)
    ensures Total(a + b, w) == Total(a, w) + Total(b, w)
  {
    if a == [] {
      assert a + b == b;
    } else {
      assert (a + b)[1..] == a[1..] + b;
      TotalAppend(a[1..], b, w);
    }
  }

  lemma TotalOne<T>(x: T, w: T -> nat)
    ensures Total([x], w) == w(x)
  {
    assert [x][1..] == [];
  }

  // Totals are equal when the weights match up in reverse order.
  lemma {:induction false} TotalReversed<S, T>(a: seq<S>, b: seq<T>, v: S -> nat, w: T -> nat)
    requires |a| == |b| && forall i :: 0 <= i < |a| ==> v(a[i]) == w(b[|a| - 1 - i])
    ensures Total(a, v) == Total(b, w)
  {
    if a != [] {
      var n := |a| - 1;
      assert v(a[0]) == w(b[n]);
      forall i | 0 <= i < n ensures v(a[1..][i]) == w(b[..n][n - 1 - i]) {
        assert v(a[i + 1]) == w(b[|a| - 1 - (i + 1)]);
      }
      TotalReversed(a[1..], b[..n], v, w);
      assert b == b[..n] + [b[n]];
      TotalAppend(b[..n], [b[n]], w);
      TotalOne(b[n], w);
    }
  }

  lemma {:induction false} TotalSplit<T>(xs: seq<T>, u: T -> nat, v: T -> nat, w: T -> nat)
    requires forall x :: x in xs ==> w(x) == u(x) + v(x)
    ensures Total(xs, w) == Total(xs, u) + Total(xs, v)
  {
    if xs != [] {
      assert xs[0] in xs;
      TotalSplit(xs[1..], u, v, w);
    }
  }

  // ----- results of a stack, from its top down

  function FromTop<S, T>(stack: seq<S>, f: S -> seq<T>): seq<T> {
    if stack == [] then [] else f(stack[|stack| - 1]) + FromTop(stack[..|stack| - 1], f)
  }

  lemma Associate<T>(a: seq<T>, b: seq<T>, c: seq<T>)
    ensures a + (b + c) == a + b + c
  {
  }

  lemma {:induction false} FromTopAppend<S, T>(below: seq<S>, above: seq<S>, f: S -> seq<T>)
    ensures FromTop(below + above, f) == FromTop(above, f) + FromTop(below, f)
  {
    if above == [] {
      assert below + above == below;
    } else {
      var (n, all) := (|above| - 1, below + above);
      assert all[..|all| - 1] == below + above[..n] && all[|all| - 1] == above[n];
      FromTopAppend(below, above[..n], f);
      Associate(f(above[n]), FromTop(above[..n], f), FromTop(below, f));
    }
  }

  // ----- collecting optional results in order

  function Collect<S, T>(xs: seq<S>, f: S -> Option<T>): Option<seq<T>> {
    if xs == [] then Some([])
    else
      var (head, rest) := (f(xs[0]), Collect(xs[1..], f));
      if head.None? || rest.None? then None else Some([head.value] + rest.value)
  }

  lemma {:induction false} CollectMeaning<S, T>(xs: seq<S>, f: S -> Option<T>, ys: seq<T>)
    ensures Collect(xs, f) == Some(ys) <==> |xs| == |ys| && forall i :: 0 <= i < |xs| ==> f(xs[i]) == Some(ys[i])
  {
    if xs != [] && ys != [] {
      CollectMeaning(xs[1..], f, ys[1..]);
      assert ys == [ys[0]] + ys[1..];
      assert forall i :: 1 <= i < |xs| ==> xs[i] == xs[1..][i - 1];
      assert forall i :: 1 <= i < |ys| ==> ys[i] == ys[1..][i - 1];
      assert forall i :: 0 <= i < |xs| - 1 ==> xs[1..][i] == xs[i + 1];
      assert forall i :: 0 <= i < |ys| - 1 ==> ys[1..][i] == ys[i + 1];
    }
  }

  lemma {:induction false} CollectSame<S, T>(xs: seq<S>, f: S -> Option<T>, g: S -> Option<T>)
    requires forall x :: x in xs ==> f(x).Some? && g(x) == f(x)
    ensures Collect(xs, f).Some? && Collect(xs, g) == Collect(xs, f)
  {
    if xs != [] {
      assert xs[0] in xs;
      CollectSame(xs[1..], f, g);
    }
  }
}
