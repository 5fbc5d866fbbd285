/** Generic facts about order-preserving filters over sequences. */
module Sequences {

  /** The positions of `xs` whose element satisfies `p`. */
  ghost function IndicesWhere<T>(xs: seq<T>, p: T -> bool): set<int>
  {
    set i | 0 <= i < |xs| && p(xs[i])
  }

  /** `r` can be obtained from `xs` by deleting elements, keeping the rest in order. */
  ghost predicate IsSubsequence<T>(r: seq<T>, xs: seq<T>)
    decreases |xs|
  {
    if |r| == 0 then true
    else if |xs| == 0 then false
    else
      (r[|r| - 1] == xs[|xs| - 1] && IsSubsequence(r[..|r| - 1], xs[..|xs| - 1]))
      || IsSubsequence(r, xs[..|xs| - 1])
  }

  /**
    The elements of `xs` that satisfy `p`, in input order: the accumulate-if
    loop `out := []; for x in xs: if p(x): out.append(x)`. Its meaning is
    stated by `FilterSpec`; keeping it off the function keeps callers' proofs small.
   */
  function Filter<T>(xs: seq<T>, p: T -> bool): seq<T>
  {
    if |xs| == 0 then []
    else if p(xs[|xs| - 1]) then Filter(xs[..|xs| - 1], p) + [xs[|xs| - 1]]
    else Filter(xs[..|xs| - 1], p)
  }

  /** A filter keeps elements of `xs` in their original order. */
  lemma {:induction false} FilterIsSubsequence<T>(xs: seq<T>, p: T -> bool)
    ensures IsSubsequence(Filter(xs, p), xs)
    decreases |xs|
  {
    if |xs| > 0 {
      var init, last := xs[..|xs| - 1], xs[|xs| - 1];
      var r0 := Filter(init, p);
      FilterIsSubsequence(init, p);
      if p(last) {
        var r := r0 + [last];
        assert r[..|r| - 1] == r0;
      }
    }
  }

  /** A filter holds every occurrence of a satisfying element and no other element. */
  lemma {:induction false} FilterCounts<T(!new)>(xs: seq<T>, p: T -> bool)
    ensures forall x :: multiset(Filter(xs, p))[x] == if p(x) then multiset(xs)[x] else 0
    decreases |xs|
  {
    if |xs| > 0 {
      var init, last := xs[..|xs| - 1], xs[|xs| - 1];
      FilterCounts(init, p);
      assert xs == init + [last];
      assert multiset(xs) == multiset(init) + multiset{last};
    }
  }

  /** A filter is as long as the number of positions whose element satisfies `p`. */
  lemma {:induction false} FilterLength<T>(xs: seq<T>, p: T -> bool)
    ensures |Filter(xs, p)| == |IndicesWhere(xs, p)|
    decreases |xs|
  {
    if |xs| > 0 {
      var init, last := xs[..|xs| - 1], xs[|xs| - 1];
      FilterLength(init, p);
      assert IndicesWhere(xs, p) == IndicesWhere(init, p) + (if p(last) then {|xs| - 1} else {});
    }
  }

  /**
    A filter is the subsequence of `xs` holding every occurrence of a
    satisfying element and nothing else (such a subsequence is unique), and
    its length is the number of satisfying positions.
   */
  lemma FilterSpec<T(!new)>(xs: seq<T>, p: T -> bool)
    ensures IsSubsequence(Filter(xs, p), xs)
    ensures forall x :: multiset(Filter(xs, p))[x] == if p(x) then multiset(xs)[x] else 0
    ensures |Filter(xs, p)| == |IndicesWhere(xs, p)|
  {
    FilterIsSubsequence(xs, p);
    FilterCounts(xs, p);
    FilterLength(xs, p);
  }

  /** An element is kept exactly when it occurs in `xs` and satisfies `p`. */
  lemma FilterMembers<T(!new)>(xs: seq<T>, p: T -> bool)
    ensures forall x :: x in Filter(xs, p) <==> x in xs && p(x)
  {
    FilterSpec(xs, p);
  }

  /** Filtering one more element appends it when it passes. */
  lemma FilterSnoc<T>(xs: seq<T>, x: T, p: T -> bool)
    ensures Filter(xs + [x], p) == if p(x) then Filter(xs, p) + [x] else Filter(xs, p)
  {
    assert (xs + [x])[..|xs|] == xs;
  }

  /** Filtering with two predicates that agree everywhere gives the same sequence. */
  lemma {:induction false} FilterCongruent<T>(xs: seq<T>, p: T -> bool, q: T -> bool)
    requires forall x :: p(x) == q(x)
    ensures Filter(xs, p) == Filter(xs, q)
    decreases |xs|
  {
    if |xs| > 0 {
      FilterCongruent(xs[..|xs| - 1], p, q);
    }
  }

  /** A filter that keeps nothing of `xs` is empty. */
  lemma FilterEmpty<T(!new)>(xs: seq<T>, p: T -> bool)
    requires forall i :: 0 <= i < |xs| ==> !p(xs[i])
    ensures Filter(xs, p) == []
  {
    FilterSpec(xs, p);
    assert IndicesWhere(xs, p) == {};
  }

  /** The first element of a filter is the earliest element that satisfies the predicate. */
  lemma {:induction false} FilterHeadIsFirst<T(!new)>(xs: seq<T>, p: T -> bool, i: int)
    requires 0 <= i < |xs| && p(xs[i])
    requires forall j :: 0 <= j < i ==> !p(xs[j])
    ensures |Filter(xs, p)| > 0 && Filter(xs, p)[0] == xs[i]
    decreases |xs|
  {
    var init := xs[..|xs| - 1];
    if i < |xs| - 1 {
      FilterHeadIsFirst(init, p, i);
    } else {
      FilterEmpty(init, p);
    }
  }
}
