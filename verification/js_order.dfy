/**
 * The default order of `Array.prototype.sort` on strings: lexicographic
 * comparison, element by element, a proper prefix sorting first; and a
 * functional insertion sort that produces that order.
 */
module JsOrder {
  import opened Seqs

  /** `a` sorts before or equal to `b`. */
  predicate LexLe(a: string, b: string)
    decreases |a|
  {
    || |a| == 0
    || (|b| > 0 && (a[0] < b[0] || (a[0] == b[0] && LexLe(a[1..], b[1..]))))
  }

  /** `a` sorts strictly before `b`. */
  predicate LexLt(a: string, b: string) {
    LexLe(a, b) && a != b
  }

  /** Any two strings are comparable. */
  lemma {:induction false} LexLeTotal(a: string, b: string)
    ensures LexLe(a, b) || LexLe(b, a)
    decreases |a|
  {
    if |a| > 0 && |b| > 0 && a[0] == b[0] {
      LexLeTotal(a[1..], b[1..]);
    }
  }

  /** Two strings each sorting before the other are equal. */
  lemma {:induction false} LexLeAntisymmetric(a: string, b: string)
    requires LexLe(a, b) && LexLe(b, a)
    ensures a == b
    decreases |a|
  {
    if |a| > 0 {
      LexLeAntisymmetric(a[1..], b[1..]);
      assert a == [a[0]] + a[1..];
      assert b == [b[0]] + b[1..];
    }
  }

  /** The order is transitive. */
  lemma {:induction false} LexLeTransitive(a: string, b: string, c: string)
    requires LexLe(a, b) && LexLe(b, c)
    ensures LexLe(a, c)
    decreases |a|
  {
    if |a| > 0 && a[0] == b[0] && b[0] == c[0] {
      LexLeTransitive(a[1..], b[1..], c[1..]);
    }
  }

  /** The strict order is transitive. */
  lemma LexLtTransitive(a: string, b: string, c: string)
    requires LexLt(a, b) && LexLt(b, c)
    ensures LexLt(a, c)
  {
    LexLeTransitive(a, b, c);
    if a == c {
      LexLeAntisymmetric(a, b);
    }
  }

  /** Every element sorts strictly after the one before it: sorted, with no repeats. */
  predicate StrictlySorted(s: seq<string>) {
    forall i, j :: 0 <= i < j < |s| ==> LexLt(s[i], s[j])
  }

  /** Places `x`, which is not yet there, into a strictly sorted sequence. */
  function Insert(x: string, s: seq<string>): (r: seq<string>)
    requires StrictlySorted(s) && x !in s
    ensures StrictlySorted(r)
    ensures multiset(r) == multiset(s) + multiset{x}
    decreases |s|
  {
    if |s| == 0 then
      [x]
    else if LexLe(x, s[0]) then
      BelowHead(x, s);
      assert s == [s[0]] + s[1..];
      [x] + s
    else
      LexLeTotal(x, s[0]);
      var rest := Insert(x, s[1..]);
      assert s == [s[0]] + s[1..];
      AboveHead(x, s, rest);
      [s[0]] + rest
  }

  /** A string not in `s` that sorts before its first element sorts before all of them. */
  lemma BelowHead(x: string, s: seq<string>)
    requires StrictlySorted(s) && 0 < |s| && x !in s && LexLe(x, s[0])
    ensures forall j :: 0 <= j < |s| ==> LexLt(x, s[j])
  {
    forall j | 0 < j < |s|
      ensures LexLt(x, s[j])
    {
      LexLtTransitive(x, s[0], s[j]);
    }
  }

  /** The first element sorts before everything inserted behind it. */
  lemma AboveHead(x: string, s: seq<string>, rest: seq<string>)
    requires StrictlySorted(s) && 0 < |s| && LexLt(s[0], x)
    requires multiset(rest) == multiset(s[1..]) + multiset{x}
    ensures forall j :: 0 <= j < |rest| ==> LexLt(s[0], rest[j])
  {
    forall j | 0 <= j < |rest|
      ensures LexLt(s[0], rest[j])
    {
      assert rest[j] in multiset(rest);
      if rest[j] != x {
        assert rest[j] in s[1..];
      }
    }
  }

  /** Without repeats, the first element is not in the rest, which has no repeats either. */
  lemma DistinctSplit(s: seq<string>)
    requires Distinct(s) && 0 < |s|
    ensures Distinct(s[1..]) && s[0] !in s[1..]
  {
  }

  /** The first element, not among the rest, joins a rearrangement of the rest to give all of `s`. */
  lemma SortStep(s: seq<string>, rest: seq<string>)
    requires 0 < |s| && s[0] !in s[1..]
    requires multiset(rest) == multiset(s[1..])
    ensures s[0] !in rest
    ensures multiset(s) == multiset(rest) + multiset{s[0]}
  {
    assert s == [s[0]] + s[1..];
    assert s[0] !in multiset(s[1..]);
  }

  /**
   * `Array.prototype.sort()` on strings with no repeats: the same strings,
   * in ascending order. (With no repeats, the order is unique, so the sort's
   * stability plays no part.)
   */
  function Sort(s: seq<string>): (r: seq<string>)
    requires Distinct(s)
    ensures StrictlySorted(r)
    ensures multiset(r) == multiset(s)
    decreases |s|
  {
    if |s| == 0 then
      []
    else
      DistinctSplit(s);
      var rest := Sort(s[1..]);
      SortStep(s, rest);
      Insert(s[0], rest)
  }

  /** Strictly sorted sequences with the same elements start with the same element. */
  lemma SameLeast(a: seq<string>, b: seq<string>)
    requires StrictlySorted(a) && StrictlySorted(b) && 0 < |a|
    requires multiset(a) == multiset(b)
    ensures 0 < |b| && a[0] == b[0]
  {
    assert a[0] in multiset(b);
    assert b[0] in multiset(a);
    var i :| 0 <= i < |b| && b[i] == a[0];
    var j :| 0 <= j < |a| && a[j] == b[0];
    if a[0] != b[0] {
      LexLtTransitive(a[0], a[j], a[0]);
    }
  }

  /** Removing the same first element leaves the same elements. */
  lemma SameTail(a: seq<string>, b: seq<string>)
    requires 0 < |a| && 0 < |b| && a[0] == b[0]
    requires multiset(a) == multiset(b)
    ensures multiset(a[1..]) == multiset(b[1..])
  {
    assert a == [a[0]] + a[1..];
    assert b == [b[0]] + b[1..];
    assert multiset(a) == multiset{a[0]} + multiset(a[1..]);
    assert multiset(b) == multiset{a[0]} + multiset(b[1..]);
    assert multiset(a[1..]) == multiset(a) - multiset{a[0]};
    assert multiset(b[1..]) == multiset(b) - multiset{a[0]};
  }

  /** Strictly sorted sequences with the same elements are equal: a sort has one answer. */
  lemma {:induction false} SortedUnique(a: seq<string>, b: seq<string>)
    requires StrictlySorted(a) && StrictlySorted(b)
    requires multiset(a) == multiset(b)
    ensures a == b
    decreases |a|
  {
    if |a| > 0 {
      SameLeast(a, b);
      SameTail(a, b);
      SortedUnique(a[1..], b[1..]);
    } else {
      assert |b| == |multiset(b)|;
    }
  }
}
