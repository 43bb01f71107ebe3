/** Facts about sequences that the engine's properties are phrased in. */
module Seqs {

  /** `a` is `b` with some elements dropped and the rest kept in order. */
  ghost predicate IsSubsequence<T>(a: seq<T>, b: seq<T>)
    decreases |b|
  {
    || |a| == 0
    || (|b| > 0 && ((a[0] == b[0] && IsSubsequence(a[1..], b[1..])) || IsSubsequence(a, b[1..])))
  }

  /** A subsequence is never longer than the sequence it is drawn from. */
  lemma {:induction false} SubsequenceLength<T>(a: seq<T>, b: seq<T>)
    requires IsSubsequence(a, b)
    ensures |a| <= |b|
    decreases |b|
  {
    if |a| > 0 {
      if a[0] == b[0] && IsSubsequence(a[1..], b[1..]) {
        SubsequenceLength(a[1..], b[1..]);
      } else {
        SubsequenceLength(a, b[1..]);
      }
    }
  }

  /** A sequence is a subsequence of itself. */
  lemma {:induction false} SubsequenceReflexive<T>(a: seq<T>)
    ensures IsSubsequence(a, a)
    decreases |a|
  {
    if |a| > 0 {
      SubsequenceReflexive(a[1..]);
    }
  }

  /** No element occurs twice. */
  predicate Distinct<T(==)>(s: seq<T>) {
    forall i, j :: 0 <= i < j < |s| ==> s[i] != s[j]
  }

  /** `Array.prototype.filter`: one element at a time, keeping those that pass `p`. */
  function Filter<T>(s: seq<T>, p: T -> bool): seq<T>
    decreases |s|
  {
    if |s| == 0 then [] else (if p(s[0]) then [s[0]] else []) + Filter(s[1..], p)
  }

  /**
   * The kept elements, in their original order, are exactly the elements
   * that pass, and every copy of a passing element is kept.
   */
  lemma {:induction false} FilterSpec<T>(s: seq<T>, p: T -> bool)
    ensures IsSubsequence(Filter(s, p), s)
    ensures forall x :: x in Filter(s, p) <==> x in s && p(x)
    ensures forall x :: multiset(Filter(s, p))[x] == if p(x) then multiset(s)[x] else 0
    decreases |s|
  {
    FilterCount(s, p);
    if |s| > 0 {
      FilterSpec(s[1..], p);
      var rest := Filter(s[1..], p);
      assert forall x :: x in s <==> x == s[0] || x in s[1..];
      if p(s[0]) {
        assert ([s[0]] + rest)[1..] == rest;
      } else {
        assert Filter(s, p) == rest;
      }
    }
  }

  /** Each element occurs in the result as often as in the input if it passes, and not at all otherwise. */
  lemma {:induction false} FilterCount<T>(s: seq<T>, p: T -> bool)
    ensures forall x :: multiset(Filter(s, p))[x] == if p(x) then multiset(s)[x] else 0
    decreases |s|
  {
    if |s| > 0 {
      FilterCount(s[1..], p);
      assert s == [s[0]] + s[1..];
      var head := if p(s[0]) then [s[0]] else [];
      assert multiset(Filter(s, p)) == multiset(head) + multiset(Filter(s[1..], p));
    }
  }

  /** Filtering a concatenation filters each part. */
  lemma {:induction false} FilterAppend<T>(a: seq<T>, b: seq<T>, p: T -> bool)
    ensures Filter(a + b, p) == Filter(a, p) + Filter(b, p)
    decreases |a|
  {
    if |a| == 0 {
      assert a + b == b;
    } else {
      var ab := a + b;
      assert ab[0] == a[0];
      assert ab[1..] == a[1..] + b;
      FilterAppend(a[1..], b, p);
      var head := if p(a[0]) then [a[0]] else [];
      assert Filter(ab, p) == head + (Filter(a[1..], p) + Filter(b, p));
      assert Filter(a, p) == head + Filter(a[1..], p);
      assert head + (Filter(a[1..], p) + Filter(b, p)) == (head + Filter(a[1..], p)) + Filter(b, p);
    }
  }

  /** When every element passes, nothing is dropped. */
  lemma {:induction false} FilterKeepsAll<T>(s: seq<T>, p: T -> bool)
    requires forall k :: 0 <= k < |s| ==> p(s[k])
    ensures Filter(s, p) == s
    decreases |s|
  {
    if |s| > 0 {
      FilterKeepsAll(s[1..], p);
    }
  }

  /** Filtering again with the same predicate changes nothing. */
  lemma {:induction false} FilterIdempotent<T>(s: seq<T>, p: T -> bool)
    ensures Filter(Filter(s, p), p) == Filter(s, p)
    decreases |s|
  {
    if |s| > 0 {
      FilterIdempotent(s[1..], p);
      var rest := Filter(s[1..], p);
      if p(s[0]) {
        assert ([s[0]] + rest)[1..] == rest;
      } else {
        assert Filter(s, p) == rest;
      }
    }
  }

  /** A stronger predicate keeps a subsequence of what a weaker one keeps. */
  lemma {:induction false} FilterMonotone<T>(s: seq<T>, strong: T -> bool, weak: T -> bool)
    requires forall k :: 0 <= k < |s| && strong(s[k]) ==> weak(s[k])
    ensures IsSubsequence(Filter(s, strong), Filter(s, weak))
    ensures |Filter(s, strong)| <= |Filter(s, weak)|
    decreases |s|
  {
    if |s| > 0 {
      FilterMonotone(s[1..], strong, weak);
      var r2 := Filter(s[1..], strong);
      var r1 := Filter(s[1..], weak);
      if strong(s[0]) {
        assert ([s[0]] + r2)[1..] == r2;
        assert ([s[0]] + r1)[1..] == r1;
      } else if weak(s[0]) {
        assert ([s[0]] + r1)[1..] == r1;
        assert Filter(s, strong) == r2;
      } else {
        assert Filter(s, strong) == r2;
        assert Filter(s, weak) == r1;
      }
    }
    SubsequenceLength(Filter(s, strong), Filter(s, weak));
  }
}
