/** Order facts about sequences shared by the word filters and the pain-point scan. */
module Seqs {

  /** `a` can be obtained from `b` by deleting elements, keeping the order of the rest. */
  predicate IsSubsequence<T(==)>(a: seq<T>, b: seq<T>)
    decreases |b|
  {
    if a == [] then true
    else if b == [] then false
    else (a[0] == b[0] && IsSubsequence(a[1..], b[1..])) || IsSubsequence(a, b[1..])
  }

  /** No element occurs twice. */
  predicate Distinct<T(==)>(s: seq<T>)
  {
    forall i, j :: 0 <= i < j < |s| ==> s[i] != s[j]
  }

  /** A subsequence has no more elements than the sequence it is taken from. */
  lemma {:induction false} SubsequenceLength<T>(a: seq<T>, b: seq<T>)
    requires IsSubsequence(a, b)
    ensures |a| <= |b|
    decreases |b|
  {
    if a != [] {
      if a[0] == b[0] && IsSubsequence(a[1..], b[1..]) {
        SubsequenceLength(a[1..], b[1..]);
      } else {
        SubsequenceLength(a, b[1..]);
      }
    }
  }

  /** Growing the longer sequence keeps a subsequence a subsequence. */
  lemma {:induction false} SubsequenceOfLonger<T>(a: seq<T>, b: seq<T>, x: T)
    requires IsSubsequence(a, b)
    ensures IsSubsequence(a, b + [x])
    decreases |b|
  {
    if a != [] {
      assert (b + [x])[1..] == b[1..] + [x];
      if a[0] == b[0] && IsSubsequence(a[1..], b[1..]) {
        SubsequenceOfLonger(a[1..], b[1..], x);
      } else {
        SubsequenceOfLonger(a, b[1..], x);
      }
    }
  }

  /** A single element is a subsequence of any sequence that ends with it. */
  lemma {:induction false} LastIsSubsequence<T>(b: seq<T>, x: T)
    ensures IsSubsequence([x], b + [x])
    decreases |b|
  {
    if b != [] {
      assert (b + [x])[1..] == b[1..] + [x];
      LastIsSubsequence(b[1..], x);
    }
  }

  /** Appending the same element to both sides keeps a subsequence a subsequence. */
  lemma {:induction false} SubsequenceSnoc<T>(a: seq<T>, b: seq<T>, x: T)
    requires IsSubsequence(a, b)
    ensures IsSubsequence(a + [x], b + [x])
    decreases |b|
  {
    if a == [] {
      LastIsSubsequence(b, x);
      assert a + [x] == [x];
    } else {
      assert (b + [x])[1..] == b[1..] + [x];
      assert (a + [x])[1..] == a[1..] + [x];
      if a[0] == b[0] && IsSubsequence(a[1..], b[1..]) {
        SubsequenceSnoc(a[1..], b[1..], x);
      } else {
        SubsequenceSnoc(a, b[1..], x);
      }
    }
  }

  /**
   * One step of a filter: keeping or dropping the head `x` in front of the
   * filtered rest keeps the result a subsequence, and adds `x` to its
   * multiset exactly when it is kept.
   */
  lemma FilterStep<T>(x: T, rest: seq<T>, tail: seq<T>, keep: bool)
    requires IsSubsequence(tail, rest)
    ensures IsSubsequence((if keep then [x] else []) + tail, [x] + rest)
    ensures multiset((if keep then [x] else []) + tail) == (if keep then multiset{x} else multiset{}) + multiset(tail)
    ensures multiset([x] + rest) == multiset{x} + multiset(rest)
  {
    var r := (if keep then [x] else []) + tail;
    assert ([x] + rest)[1..] == rest;
    if keep {
      assert r[1..] == tail;
    } else {
      assert r == tail;
    }
  }

  /**
   * `[x for x in s if x not in drop]`: the elements of `s` outside `drop`,
   * each as often as in `s`, in their original order.
   */
  function FilterOut<T(!new)>(s: seq<T>, drop: set<T>): (r: seq<T>)
    ensures |r| <= |s|
    ensures forall x :: x in r <==> x in s && x !in drop
    ensures forall x :: multiset(r)[x] == (if x in drop then 0 else multiset(s)[x])
    ensures IsSubsequence(r, s)
  {
    if s == [] then []
    else
      var tail := FilterOut(s[1..], drop);
      assert s == [s[0]] + s[1..];
      FilterOutStep(s[0], s[1..], tail, drop);
      (if s[0] !in drop then [s[0]] else []) + tail
  }

  /** The step of `FilterOut` for the head `x`, given what the filtered rest satisfies. */
  lemma FilterOutStep<T>(x: T, rest: seq<T>, tail: seq<T>, drop: set<T>)
    requires |tail| <= |rest| && IsSubsequence(tail, rest)
    requires forall c :: c in tail <==> c in rest && c !in drop
    requires forall c :: multiset(tail)[c] == (if c in drop then 0 else multiset(rest)[c])
    ensures |(if x !in drop then [x] else []) + tail| <= |[x] + rest|
    ensures IsSubsequence((if x !in drop then [x] else []) + tail, [x] + rest)
    ensures forall c :: c in (if x !in drop then [x] else []) + tail <==> c in [x] + rest && c !in drop
    ensures forall c ::
      multiset((if x !in drop then [x] else []) + tail)[c] == (if c in drop then 0 else multiset([x] + rest)[c])
  {
    FilterStep(x, rest, tail, x !in drop);
  }
}
