/** Generic sequence facts used by the grouping code on both sides of the API. */
module Sequences {
  predicate NoDuplicates<T(==)>(xs: seq<T>)
  {
    forall i, j :: 0 <= i < j < |xs| ==> xs[i] != xs[j]
  }

  /**
   * The distinct elements in order of first appearance: JavaScript's
   * `[...new Set(xs)]`, and the key order of a Python dict filled from `xs`.
   */
  function Distinct<T(==, !new)>(xs: seq<T>): (r: seq<T>)
    ensures forall x :: x in r <==> x in xs
    ensures NoDuplicates(r)
  {
    if xs == [] then []
    else
      var d := Distinct(xs[..|xs| - 1]);
      assert xs == xs[..|xs| - 1] + [xs[|xs| - 1]];
      if xs[|xs| - 1] in d then d else d + [xs[|xs| - 1]]
  }

  /** Position of the first occurrence of `x`. */
  function IndexOf<T(==)>(xs: seq<T>, x: T): (k: nat)
    requires x in xs
    ensures k < |xs| && xs[k] == x
    ensures forall j :: 0 <= j < k ==> xs[j] != x
  {
    if xs[0] == x then 0 else 1 + IndexOf(xs[1..], x)
  }

  /** In a sequence without duplicates the occurrence of `x` is unique. */
  lemma IndexOfUnique<T>(xs: seq<T>, k: nat)
    requires NoDuplicates(xs) && k < |xs|
    ensures IndexOf(xs, xs[k]) == k
  {
  }

  /** `xs` keeps its order inside `ys`: it is `ys` with some elements left out. */
  predicate IsSubsequence<T(==)>(xs: seq<T>, ys: seq<T>)
  {
    if xs == [] then true
    else if ys == [] then false
    else if xs[|xs| - 1] == ys[|ys| - 1] then IsSubsequence(xs[..|xs| - 1], ys[..|ys| - 1])
    else IsSubsequence(xs, ys[..|ys| - 1])
  }

  /** A subsequence of `ys` stays one when `ys` grows at the end. */
  lemma {:induction false} SubsequenceExtend<T>(xs: seq<T>, ys: seq<T>, y: T)
    requires IsSubsequence(xs, ys)
    ensures IsSubsequence(xs, ys + [y])
    decreases |ys|, 1
  {
    assert (ys + [y])[..|ys + [y]| - 1] == ys;
    if xs != [] && xs[|xs| - 1] == y {
      SubsequenceShortens(xs, ys);
    }
  }

  /** Growing both lists by the same element keeps a subsequence. */
  lemma SubsequenceAppendBoth<T>(xs: seq<T>, ys: seq<T>, y: T)
    requires IsSubsequence(xs, ys)
    ensures IsSubsequence(xs + [y], ys + [y])
  {
    assert (xs + [y])[..|xs|] == xs;
    assert (ys + [y])[..|ys|] == ys;
  }

  /** Dropping the last element of a subsequence leaves a subsequence. */
  lemma {:induction false} SubsequenceShortens<T>(xs: seq<T>, ys: seq<T>)
    requires xs != [] && IsSubsequence(xs, ys)
    ensures IsSubsequence(xs[..|xs| - 1], ys)
    decreases |ys|, 0
  {
    var init := ys[..|ys| - 1];
    assert init + [ys[|ys| - 1]] == ys;
    if xs[|xs| - 1] != ys[|ys| - 1] {
      SubsequenceShortens(xs, init);
    }
    SubsequenceExtend(xs[..|xs| - 1], init, ys[|ys| - 1]);
  }

  /** A subsequence as long as the list is the list. */
  lemma {:induction false} SameLengthSubsequence<T>(xs: seq<T>, ys: seq<T>)
    requires IsSubsequence(xs, ys) && |xs| == |ys|
    ensures xs == ys
  {
    if xs != [] {
      if xs[|xs| - 1] == ys[|ys| - 1] {
        SameLengthSubsequence(xs[..|xs| - 1], ys[..|ys| - 1]);
        assert xs == xs[..|xs| - 1] + [xs[|xs| - 1]];
        assert ys == ys[..|ys| - 1] + [ys[|ys| - 1]];
      } else {
        SubsequenceNotLonger(xs, ys[..|ys| - 1]);
      }
    }
  }

  /** A subsequence is never longer than the list. */
  lemma {:induction false} SubsequenceNotLonger<T>(xs: seq<T>, ys: seq<T>)
    requires IsSubsequence(xs, ys)
    ensures |xs| <= |ys|
  {
    if xs != [] {
      if xs[|xs| - 1] == ys[|ys| - 1] {
        SubsequenceNotLonger(xs[..|xs| - 1], ys[..|ys| - 1]);
      } else {
        SubsequenceNotLonger(xs, ys[..|ys| - 1]);
      }
    }
  }

  /** JavaScript's `xs.filter(p)` and Python's `[x for x in xs if p(x)]`: the elements passing `p`, in order. */
  function Filter<T>(xs: seq<T>, p: T -> bool): (r: seq<T>)
    ensures IsSubsequence(r, xs)
    ensures forall k :: 0 <= k < |r| ==> p(r[k])
    ensures forall k :: 0 <= k < |xs| && p(xs[k]) ==> xs[k] in r
  {
    if xs == [] then []
    else
      var init := xs[..|xs| - 1];
      var x := xs[|xs| - 1];
      var rest := Filter(init, p);
      assert forall k :: 0 <= k < |xs| - 1 ==> xs[k] == init[k];
      if p(x) then
        assert (rest + [x])[..|rest|] == rest;
        rest + [x]
      else
        SubsequenceExtend(rest, init, x);
        assert init + [x] == xs;
        rest
  }

  /** Nothing is filtered out of a list whose every element passes. */
  lemma {:induction false} FilterAll<T>(xs: seq<T>, p: T -> bool)
    requires forall k :: 0 <= k < |xs| ==> p(xs[k])
    ensures Filter(xs, p) == xs
  {
    if xs != [] {
      FilterAll(xs[..|xs| - 1], p);
      assert xs[..|xs| - 1] + [xs[|xs| - 1]] == xs;
    }
  }

  /** Filtering is idempotent. */
  lemma FilterTwice<T>(xs: seq<T>, p: T -> bool)
    ensures Filter(Filter(xs, p), p) == Filter(xs, p)
  {
    FilterAll(Filter(xs, p), p);
  }

  /** JavaScript's `xs.filter((_, i) => i !== index)`: the element at `index` dropped, or nothing when it is out of range. */
  function RemoveAt<T>(xs: seq<T>, index: nat): (r: seq<T>)
    ensures index < |xs| ==> |r| == |xs| - 1
    ensures index >= |xs| ==> r == xs
    ensures forall k :: 0 <= k < |r| ==> r[k] == (if k < index then xs[k] else xs[k + 1])
  {
    if index < |xs| then xs[..index] + xs[index + 1..] else xs
  }

  /** JavaScript's `xs.map((x, i) => i === index ? v : x)`: one position replaced, or nothing when it is out of range. */
  function ReplaceAt<T>(xs: seq<T>, index: nat, v: T): (r: seq<T>)
    ensures |r| == |xs|
    ensures forall k :: 0 <= k < |r| ==> r[k] == (if k == index then v else xs[k])
  {
    if index < |xs| then xs[index := v] else xs
  }

  /** Every element of a subsequence is an element of the list. */
  lemma {:induction false} SubsequenceMembers<T>(xs: seq<T>, ys: seq<T>)
    requires IsSubsequence(xs, ys)
    ensures forall k :: 0 <= k < |xs| ==> xs[k] in ys
  {
    if xs != [] {
      var init := ys[..|ys| - 1];
      assert forall x :: x in init ==> x in ys;
      if xs[|xs| - 1] == ys[|ys| - 1] {
        SubsequenceMembers(xs[..|xs| - 1], init);
        assert forall k :: 0 <= k < |xs| - 1 ==> xs[k] == xs[..|xs| - 1][k];
      } else {
        SubsequenceMembers(xs, init);
      }
    }
  }
}
