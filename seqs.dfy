/** Sequence vocabulary shared by the model: an optional value, the
    order-preserving sub-sequence relation, and the two order-preserving
    filters the viewer applies (Array.prototype.filter with a predicate, and
    dropping the null results of a batch of fetches). */
module Seqs {

  datatype Option<T> = None | Some(value: T)

  /** xs is obtained from ys by deleting zero or more elements; the elements
      that remain keep their relative order. */
  ghost predicate Subsequence<T>(xs: seq<T>, ys: seq<T>)
    decreases |ys|
  {
    if xs == [] then true
    else if ys == [] then false
    else (xs[0] == ys[0] && Subsequence(xs[1..], ys[1..])) || Subsequence(xs, ys[1..])
  }

  lemma {:induction false} SubsequenceReflexive<T>(xs: seq<T>)
    ensures Subsequence(xs, xs)
  {
    if xs != [] {
      SubsequenceReflexive(xs[1..]);
    }
  }

  /** A sub-sequence is never longer than the sequence it is taken from. */
  lemma {:induction false} SubsequenceLength<T>(xs: seq<T>, ys: seq<T>)
    requires Subsequence(xs, ys)
    ensures |xs| <= |ys|
    decreases |ys|
  {
    if xs != [] {
      if xs[0] == ys[0] && Subsequence(xs[1..], ys[1..]) {
        SubsequenceLength(xs[1..], ys[1..]);
      } else {
        SubsequenceLength(xs, ys[1..]);
      }
    }
  }

  /** A sub-sequence of the same length is the sequence itself. */
  lemma {:induction false} SubsequenceShorter<T>(xs: seq<T>, ys: seq<T>)
    requires Subsequence(xs, ys) && xs != ys
    ensures |xs| < |ys|
    decreases |ys|
  {
    if xs == [] {
    } else if xs[0] == ys[0] && Subsequence(xs[1..], ys[1..]) {
      SubsequenceShorter(xs[1..], ys[1..]);
    } else {
      SubsequenceLength(xs, ys[1..]);
    }
  }

  /** The elements of s that satisfy keep, in their original order
      (Array.prototype.filter). The contract pins the result down: it is a
      sub-sequence of s and holds every kept value exactly as often as s does
      and no other value. */
  function Filter<T(==,!new)>(s: seq<T>, keep: T -> bool): (r: seq<T>)
    ensures Subsequence(r, s)
    ensures forall x :: multiset(r)[x] == if keep(x) then multiset(s)[x] else 0
  {
    if s == [] then []
    else
      var rest := Filter(s[1..], keep);
      assert s == [s[0]] + s[1..];
      if keep(s[0]) then [s[0]] + rest else rest
  }

  /** Filtering keeps everything exactly when every element is kept. */
  lemma {:induction false} FilterKeepsAll<T(!new)>(s: seq<T>, keep: T -> bool)
    requires forall i :: 0 <= i < |s| ==> keep(s[i])
    ensures Filter(s, keep) == s
  {
    if s != [] {
      FilterKeepsAll(s[1..], keep);
    }
  }

  /** Filtering drops everything exactly when nothing is kept. */
  lemma {:induction false} FilterKeepsNone<T(!new)>(s: seq<T>, keep: T -> bool)
    requires forall i :: 0 <= i < |s| ==> !keep(s[i])
    ensures Filter(s, keep) == []
  {
    if s != [] {
      FilterKeepsNone(s[1..], keep);
    }
  }

  /** Some(x) for every x of xs, in order. */
  function Lift<T>(xs: seq<T>): seq<Option<T>>
  {
    if xs == [] then [] else [Some(xs[0])] + Lift(xs[1..])
  }

  lemma {:induction false} LiftLength<T>(xs: seq<T>)
    ensures |Lift(xs)| == |xs|
  {
    if xs != [] {
      LiftLength(xs[1..]);
    }
  }

  /** The present values of a batch of optional results, in order
      (results.filter(r => r !== null)). */
  function Present<T>(s: seq<Option<T>>): (r: seq<T>)
    ensures |r| <= |s|
    ensures Subsequence(Lift(r), s)
  {
    if s == [] then []
    else
      match s[0]
      case None => Present(s[1..])
      case Some(v) => [v] + Present(s[1..])
  }

  /** Every missing result shortens the batch by one. */
  lemma {:induction false} PresentLength<T>(s: seq<Option<T>>)
    ensures |Present(s)| == |s| - multiset(s)[None]
  {
    if s != [] {
      PresentLength(s[1..]);
      assert s == [s[0]] + s[1..];
      assert multiset(s)[None] == multiset([s[0]])[None] + multiset(s[1..])[None];
    }
  }

  /** Every present value survives exactly as often as it occurs. */
  lemma {:induction false} PresentCounts<T(!new)>(s: seq<Option<T>>)
    ensures forall x :: multiset(Present(s))[x] == multiset(s)[Some(x)]
  {
    if s != [] {
      var rest := s[1..];
      PresentCounts(rest);
      assert s == [s[0]] + rest;
      assert multiset(s) == multiset([s[0]]) + multiset(rest);
      match s[0]
      case None =>
        assert Present(s) == Present(rest);
      case Some(v) =>
        assert multiset(Present(s)) == multiset([v]) + multiset(Present(rest));
    }
  }

  /** A batch in which every fetch succeeded is kept whole. */
  lemma {:induction false} PresentAllSucceeded<T(!new)>(s: seq<Option<T>>)
    requires forall i :: 0 <= i < |s| ==> s[i].Some?
    ensures Lift(Present(s)) == s
  {
    if s != [] {
      PresentAllSucceeded(s[1..]);
    }
  }
}
