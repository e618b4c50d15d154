/** Element-wise mapping of a sequence, stated once for every element type so
    that the facts about it hold whatever function is mapped. */
module Seqs {
  function Map<A, B>(f: A -> B, xs: seq<A>): (r: seq<B>)
    ensures |r| == |xs|
  {
    if xs == [] then [] else Map(f, xs[..|xs| - 1]) + [f(xs[|xs| - 1])]
  }

  lemma MapSnoc<A, B>(f: A -> B, xs: seq<A>, x: A)
    ensures Map(f, xs + [x]) == Map(f, xs) + [f(x)]
  {
    assert (xs + [x])[..|xs|] == xs;
  }

  lemma {:induction false} MapAt<A, B>(f: A -> B, xs: seq<A>, i: nat)
    requires i < |xs|
    ensures Map(f, xs)[i] == f(xs[i])
    decreases |xs|
  {
    if i < |xs| - 1 {
      MapAt(f, xs[..|xs| - 1], i);
    }
  }

  /** A sequence that agrees with `f` at every position is its map. */
  lemma MapPointwise<A, B>(f: A -> B, xs: seq<A>, r: seq<B>)
    requires |r| == |xs|
    requires forall i :: 0 <= i < |xs| ==> r[i] == f(xs[i])
    ensures r == Map(f, xs)
  {
    forall i | 0 <= i < |xs| ensures r[i] == Map(f, xs)[i] {
      MapAt(f, xs, i);
    }
  }

  /** The concatenation of what `f` gives for each element, in order. */
  function FlatMap<A, B>(f: A -> seq<B>, xs: seq<A>): seq<B>
  {
    if xs == [] then [] else FlatMap(f, xs[..|xs| - 1]) + f(xs[|xs| - 1])
  }

  lemma {:induction false} FlatMapAppend<A, B>(f: A -> seq<B>, xs: seq<A>, ys: seq<A>)
    ensures FlatMap(f, xs + ys) == FlatMap(f, xs) + FlatMap(f, ys)
    decreases |ys|
  {
    if ys == [] {
      assert xs + ys == xs;
    } else {
      var init := ys[..|ys| - 1];
      FlatMapAppend(f, xs, init);
      assert (xs + ys)[..|xs + ys| - 1] == xs + init;
      assert (xs + ys)[|xs + ys| - 1] == ys[|ys| - 1];
    }
  }

  /** No element occurs twice. */
  predicate Distinct<T(==)>(xs: seq<T>)
  {
    forall i, j :: 0 <= i < j < |xs| ==> xs[i] != xs[j]
  }

  lemma DistinctSnoc<T>(xs: seq<T>, x: T)
    requires Distinct(xs) && x !in xs
    ensures Distinct(xs + [x])
  {
  }

  /** The number of elements that satisfy `p`. */
  function CountWhere<T>(p: T -> bool, xs: seq<T>): nat
  {
    if xs == [] then 0 else CountWhere(p, xs[..|xs| - 1]) + (if p(xs[|xs| - 1]) then 1 else 0)
  }

  /** The count is positive exactly when some element satisfies `p`. */
  lemma {:induction false} CountWhereExists<T>(p: T -> bool, xs: seq<T>)
    ensures CountWhere(p, xs) > 0 <==> exists k :: 0 <= k < |xs| && p(xs[k])
  {
    if xs != [] {
      var n := |xs| - 1;
      var init := xs[..n];
      CountWhereExists(p, init);
      if exists k :: 0 <= k < |init| && p(init[k]) {
        var k :| 0 <= k < |init| && p(init[k]);
        assert xs[k] == init[k];
      }
      if exists k :: 0 <= k < |xs| && p(xs[k]) {
        var k :| 0 <= k < |xs| && p(xs[k]);
        if k < n {
          assert init[k] == xs[k];
        }
      }
    }
  }
}
