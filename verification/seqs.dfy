/** Order-preserving filtering of lists and the subsequence relation. */
module Seqs {

  /** `a` can be obtained from `b` by deleting elements, without reordering the rest. */
  predicate IsSubsequence<T(==)>(a: seq<T>, b: seq<T>)
    decreases |b|
  {
    if a == [] then true
    else if b == [] then false
    else if a[|a| - 1] == b[|b| - 1] then IsSubsequence(a[..|a| - 1], b[..|b| - 1])
    else IsSubsequence(a, b[..|b| - 1])
  }

  /** The elements of `s` that satisfy `p`, in their original order (a Java for-each loop with `add`). */
  function Filter<T>(s: seq<T>, p: T -> bool): (r: seq<T>)
    ensures |r| <= |s|
    ensures forall i :: 0 <= i < |r| ==> p(r[i])
  {
    if s == [] then []
    else Filter(s[..|s| - 1], p) + (if p(s[|s| - 1]) then [s[|s| - 1]] else [])
  }

  lemma FilterAppend<T>(s: seq<T>, x: T, p: T -> bool)
    ensures Filter(s + [x], p) == Filter(s, p) + (if p(x) then [x] else [])
  {
    assert (s + [x])[..|s + [x]| - 1] == s;
  }

  /** Appending to the longer list keeps a subsequence a subsequence. */
  lemma {:induction false} SubsequenceAppend<T>(a: seq<T>, b: seq<T>, x: T)
    requires IsSubsequence(a, b)
    ensures IsSubsequence(a, b + [x])
    decreases |b|, 1
  {
    assert (b + [x])[..|b + [x]| - 1] == b;
    if a != [] && a[|a| - 1] == x {
      SubsequenceDropLast(a, b);
    }
  }

  /** Dropping the last element of a subsequence keeps it a subsequence. */
  lemma {:induction false} SubsequenceDropLast<T>(a: seq<T>, b: seq<T>)
    requires a != [] && IsSubsequence(a, b)
    ensures IsSubsequence(a[..|a| - 1], b)
    decreases |b|, 0
  {
    var init := b[..|b| - 1];
    assert init + [b[|b| - 1]] == b;
    if a[|a| - 1] != b[|b| - 1] {
      SubsequenceDropLast(a, init);
    }
    SubsequenceAppend(a[..|a| - 1], init, b[|b| - 1]);
  }

  /** Every list is a subsequence of itself. */
  lemma {:induction false} SubsequenceReflexive<T>(a: seq<T>)
    ensures IsSubsequence(a, a)
  {
    if a != [] {
      SubsequenceReflexive(a[..|a| - 1]);
    }
  }

  /** A subsequence is no longer than the list it is taken from. */
  lemma {:induction false} SubsequenceLength<T>(a: seq<T>, b: seq<T>)
    requires IsSubsequence(a, b)
    ensures |a| <= |b|
    decreases |b|
  {
    if a != [] {
      if a[|a| - 1] == b[|b| - 1] {
        SubsequenceLength(a[..|a| - 1], b[..|b| - 1]);
      } else {
        SubsequenceLength(a, b[..|b| - 1]);
      }
    }
  }

  /** Filtering keeps the survivors in their original relative order. */
  lemma {:induction false} FilterIsSubsequence<T>(s: seq<T>, p: T -> bool)
    ensures IsSubsequence(Filter(s, p), s)
  {
    if s != [] {
      var init, x := s[..|s| - 1], s[|s| - 1];
      assert s == init + [x];
      FilterIsSubsequence(init, p);
      if p(x) {
        var f := Filter(s, p);
        assert f == Filter(init, p) + [x];
        assert f[..|f| - 1] == Filter(init, p);
      } else {
        assert Filter(s, p) == Filter(init, p);
        SubsequenceAppend(Filter(init, p), init, x);
      }
    }
  }

  /** A stronger condition keeps a subsequence of what a weaker one keeps. */
  lemma {:induction false} FilterStrongerIsSubsequence<T>(s: seq<T>, strong: T -> bool, weak: T -> bool)
    requires forall x :: strong(x) ==> weak(x)
    ensures IsSubsequence(Filter(s, strong), Filter(s, weak))
  {
    if s != [] {
      var init, x := s[..|s| - 1], s[|s| - 1];
      FilterStrongerIsSubsequence(init, strong, weak);
      var fs, fw := Filter(s, strong), Filter(s, weak);
      if strong(x) {
        assert fs == Filter(init, strong) + [x] && fw == Filter(init, weak) + [x];
        assert fs[..|fs| - 1] == Filter(init, strong) && fw[..|fw| - 1] == Filter(init, weak);
      } else if weak(x) {
        assert fs == Filter(init, strong) && fw == Filter(init, weak) + [x];
        SubsequenceAppend(Filter(init, strong), Filter(init, weak), x);
      } else {
        assert fs == Filter(init, strong) && fw == Filter(init, weak);
      }
    }
  }

  /** Filtering twice by the same condition changes nothing. */
  lemma {:induction false} FilterIdempotent<T>(s: seq<T>, p: T -> bool)
    ensures Filter(Filter(s, p), p) == Filter(s, p)
  {
    if s != [] {
      var init, x := s[..|s| - 1], s[|s| - 1];
      FilterIdempotent(init, p);
      if p(x) {
        assert Filter(s, p) == Filter(init, p) + [x];
        FilterAppend(Filter(init, p), x, p);
      } else {
        assert Filter(s, p) == Filter(init, p);
      }
    }
  }

  /** Filtering by a condition and by its negation splits the list: nothing is lost or duplicated. */
  lemma {:induction false} FilterPartition<T>(s: seq<T>, p: T -> bool, q: T -> bool)
    requires forall x :: q(x) == !p(x)
    ensures |Filter(s, p)| + |Filter(s, q)| == |s|
    ensures multiset(Filter(s, p)) + multiset(Filter(s, q)) == multiset(s)
  {
    if s != [] {
      var init, x := s[..|s| - 1], s[|s| - 1];
      assert s == init + [x];
      FilterPartition(init, p, q);
      assert Filter(s, p) == Filter(init, p) + (if p(x) then [x] else []);
      assert Filter(s, q) == Filter(init, q) + (if q(x) then [x] else []);
    }
  }

  /** An element survives filtering exactly when it is in the list and meets the condition. */
  lemma {:induction false} FilterMembership<T>(s: seq<T>, p: T -> bool, x: T)
    ensures x in Filter(s, p) <==> x in s && p(x)
  {
    if s != [] {
      var init := s[..|s| - 1];
      FilterMembership(init, p, x);
      assert s == init + [s[|s| - 1]];
    }
  }

  /** A condition every element meets keeps the whole list. */
  lemma {:induction false} FilterKeepsAll<T>(s: seq<T>, p: T -> bool)
    requires forall i :: 0 <= i < |s| ==> p(s[i])
    ensures Filter(s, p) == s
  {
    if s != [] {
      var init := s[..|s| - 1];
      FilterKeepsAll(init, p);
      assert s == init + [s[|s| - 1]];
    }
  }

  /** The lists one after the other. */
  function Concat<T>(bs: seq<seq<T>>): seq<T> {
    if bs == [] then [] else bs[0] + Concat(bs[1..])
  }

  /** Appending one more list to the end of the concatenation. */
  lemma {:induction false} ConcatSnoc<T>(bs: seq<seq<T>>, b: seq<T>)
    ensures Concat(bs + [b]) == Concat(bs) + b
  {
    if bs == [] {
      assert [b][1..] == [];
    } else {
      assert (bs + [b])[1..] == bs[1..] + [b];
      ConcatSnoc(bs[1..], b);
    }
  }

  /** An element that occurs in none of the lists does not occur in their concatenation. */
  lemma {:induction false} ConcatAvoids<T>(bs: seq<seq<T>>, x: T)
    requires forall i :: 0 <= i < |bs| ==> x !in bs[i]
    ensures x !in Concat(bs)
  {
    if bs != [] {
      ConcatAvoids(bs[1..], x);
    }
  }
}
