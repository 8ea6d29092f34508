/**
 * Order-preserving filtering of sequences. Every listing of the blog (group page,
 * profile page, follow feed, comments under a post) and the deletion of follow rows
 * is an instance of `Filter`; the lemmas here are proved once and reused.
 */
module Seqs {

  /** The elements of `xs` satisfying `p`, in their original order. */
  function Filter<T(!new)>(xs: seq<T>, p: T -> bool): (r: seq<T>)
    ensures |r| <= |xs|
    ensures forall x :: x in r <==> x in xs && p(x)
    ensures forall i :: 0 <= i < |r| ==> p(r[i])
  {
    if |xs| == 0 then []
    else if p(xs[0]) then [xs[0]] + Filter(xs[1..], p)
    else Filter(xs[1..], p)
  }

  /** `r` can be obtained from `xs` by deleting elements (order is kept). */
  predicate IsSubsequence<T(==)>(r: seq<T>, xs: seq<T>)
    decreases |xs|
  {
    if |r| == 0 then true
    else if |xs| == 0 then false
    else (r[0] == xs[0] && IsSubsequence(r[1..], xs[1..])) || IsSubsequence(r, xs[1..])
  }

  /** No element occurs twice. */
  predicate Distinct<T(==)>(xs: seq<T>)
  {
    forall i, j :: 0 <= i < j < |xs| ==> xs[i] != xs[j]
  }

  /** Filtering keeps order: the result is a subsequence of the input. */
  lemma {:induction false} FilterIsSubsequence<T(!new)>(xs: seq<T>, p: T -> bool)
    ensures IsSubsequence(Filter(xs, p), xs)
    decreases |xs|
  {
    if |xs| > 0 {
      FilterIsSubsequence(xs[1..], p);
      var r := Filter(xs, p);
      if p(xs[0]) {
        assert r[0] == xs[0] && r[1..] == Filter(xs[1..], p);
      }
    }
  }

  /** Filtering keeps every selected occurrence and drops every other one. */
  lemma {:induction false} FilterCount<T(!new)>(xs: seq<T>, p: T -> bool)
    ensures forall x :: multiset(Filter(xs, p))[x] == if p(x) then multiset(xs)[x] else 0
    decreases |xs|
  {
    if |xs| > 0 {
      FilterCount(xs[1..], p);
      assert xs == [xs[0]] + xs[1..];
    }
  }

  /** Filtering distributes over concatenation. */
  lemma {:induction false} FilterAppend<T(!new)>(xs: seq<T>, ys: seq<T>, p: T -> bool)
    ensures Filter(xs + ys, p) == Filter(xs, p) + Filter(ys, p)
    decreases |xs|
  {
    if |xs| > 0 {
      FilterAppend(xs[1..], ys, p);
      assert (xs + ys)[1..] == xs[1..] + ys;
    } else {
      assert xs + ys == ys;
    }
  }

  /** A filter every element passes changes nothing. */
  lemma {:induction false} FilterAll<T(!new)>(xs: seq<T>, p: T -> bool)
    requires forall i :: 0 <= i < |xs| ==> p(xs[i])
    ensures Filter(xs, p) == xs
    decreases |xs|
  {
    if |xs| > 0 {
      FilterAll(xs[1..], p);
      assert xs == [xs[0]] + xs[1..];
    }
  }

  /** Filtering a sequence without duplicates yields one without duplicates. */
  lemma {:induction false} FilterDistinct<T(!new)>(xs: seq<T>, p: T -> bool)
    requires Distinct(xs)
    ensures Distinct(Filter(xs, p))
    decreases |xs|
  {
    if |xs| > 0 {
      var tail := xs[1..];
      assert Distinct(tail) by {
        forall i, j | 0 <= i < j < |tail| ensures tail[i] != tail[j] {
          assert tail[i] == xs[i + 1] && tail[j] == xs[j + 1];
        }
      }
      FilterDistinct(tail, p);
      if p(xs[0]) {
        assert xs[0] !in tail by {
          forall k | 0 <= k < |tail| ensures tail[k] != xs[0] {
            assert tail[k] == xs[k + 1];
          }
        }
        DistinctCons(xs[0], Filter(tail, p));
      }
    }
  }

  lemma DistinctCons<T>(x: T, ys: seq<T>)
    requires x !in ys && Distinct(ys)
    ensures Distinct([x] + ys)
  {
    var zs := [x] + ys;
    forall i, j | 0 <= i < j < |zs| ensures zs[i] != zs[j] {
      assert zs[j] == ys[j - 1];
      if i > 0 {
        assert zs[i] == ys[i - 1];
      }
    }
  }

  /** The test "is not `x`". */
  function Differs<T(==)>(x: T): T -> bool
  {
    y => y != x
  }

  /** `xs` with every occurrence of `x` deleted, the rest in order. */
  function Remove<T(==,!new)>(xs: seq<T>, x: T): (r: seq<T>)
    ensures forall y :: y in r <==> y in xs && y != x
    ensures IsSubsequence(r, xs)
  {
    FilterIsSubsequence(xs, Differs(x));
    Filter(xs, Differs(x))
  }

  /** Removal drops every copy of `x` and keeps every other element as often as it occurs. */
  lemma RemoveMultiset<T(!new)>(xs: seq<T>, x: T)
    ensures forall y :: multiset(Remove(xs, x))[y] == (if y == x then 0 else multiset(xs)[y])
  {
    FilterCount(xs, Differs(x));
  }

  /** Removing an element that does not occur changes nothing. */
  lemma RemoveAbsent<T(!new)>(xs: seq<T>, x: T)
    requires x !in xs
    ensures Remove(xs, x) == xs
  {
    FilterAll(xs, Differs(x));
  }

  /** Removing twice is removing once. */
  lemma RemoveIdempotent<T(!new)>(xs: seq<T>, x: T)
    ensures Remove(Remove(xs, x), x) == Remove(xs, x)
  {
    RemoveAbsent(Remove(xs, x), x);
  }

  /** Removal distributes over concatenation. */
  lemma RemoveAppend<T(!new)>(xs: seq<T>, ys: seq<T>, x: T)
    ensures Remove(xs + ys, x) == Remove(xs, x) + Remove(ys, x)
  {
    FilterAppend(xs, ys, Differs(x));
  }

  /** Removal keeps a sequence free of duplicates. */
  lemma RemoveDistinct<T(!new)>(xs: seq<T>, x: T)
    requires Distinct(xs)
    ensures Distinct(Remove(xs, x))
  {
    FilterDistinct(xs, Differs(x));
  }

  /** Every sequence is a subsequence of itself. */
  lemma {:induction false} SubsequenceRefl<T>(xs: seq<T>)
    ensures IsSubsequence(xs, xs)
    decreases |xs|
  {
    if |xs| > 0 {
      SubsequenceRefl(xs[1..]);
    }
  }

  /**
   * Removing the one occurrence of `x` from a duplicate-free sequence shortens it by
   * exactly one.
   */
  lemma {:induction false} RemoveCount<T(!new)>(xs: seq<T>, x: T)
    requires Distinct(xs) && x in xs
    ensures |Remove(xs, x)| == |xs| - 1
    decreases |xs|
  {
    var tail := xs[1..];
    assert xs == [xs[0]] + tail;
    RemoveAppend([xs[0]], tail, x);
    assert Distinct(tail) by {
      forall i, j | 0 <= i < j < |tail| ensures tail[i] != tail[j] {
        assert tail[i] == xs[i + 1] && tail[j] == xs[j + 1];
      }
    }
    if xs[0] == x {
      assert x !in tail by {
        forall k | 0 <= k < |tail| ensures tail[k] != x {
          assert tail[k] == xs[k + 1];
        }
      }
      RemoveAbsent(tail, x);
      assert Remove([xs[0]], x) == [];
    } else {
      assert x in tail;
      RemoveCount(tail, x);
      assert Remove([xs[0]], x) == [xs[0]];
    }
  }
}
