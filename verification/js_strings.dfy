/**
 * The string primitives the search form relies on: `String.prototype.trim`,
 * `String.prototype.toLowerCase` (restricted to ASCII letters) and
 * `String.prototype.includes`.
 */
module JsStrings {

  /**
   * The code points `trim` strips: the WhiteSpace and LineTerminator
   * productions of ECMA-262 (tab, vertical tab, form feed, space, no-break
   * space, byte order mark, every Zs space separator, LF, CR, LS and PS).
   */
  predicate IsWhitespace(c: char) {
    || c == '\t' || c == '\n' || c == '\U{000B}' || c == '\U{000C}' || c == '\r'
    || c == ' ' || c == '\U{00A0}' || c == '\U{1680}'
    || ('\U{2000}' <= c <= '\U{200A}')
    || c == '\U{2028}' || c == '\U{2029}' || c == '\U{202F}' || c == '\U{205F}'
    || c == '\U{3000}' || c == '\U{FEFF}'
  }

  /** The index of the first non-blank at or after `i` (or the length of `s`). */
  function SkipBlanks(s: string, i: nat): (j: nat)
    requires i <= |s|
    ensures i <= j <= |s|
    ensures forall k :: i <= k < j ==> IsWhitespace(s[k])
    ensures j == |s| || !IsWhitespace(s[j])
    decreases |s| - i
  {
    if i < |s| && IsWhitespace(s[i]) then SkipBlanks(s, i + 1) else i
  }

  /** The index just past the last non-blank before `j` and not before `lo` (or `lo`). */
  function SkipBlanksBack(s: string, lo: nat, j: nat): (e: nat)
    requires lo <= j <= |s|
    ensures lo <= e <= j
    ensures forall k :: e <= k < j ==> IsWhitespace(s[k])
    ensures e == lo || !IsWhitespace(s[e - 1])
    decreases j - lo
  {
    if lo < j && IsWhitespace(s[j - 1]) then SkipBlanksBack(s, lo, j - 1) else j
  }

  /** `s` is `r` with blanks only around it, `r` starting at index `i`. */
  ghost predicate TrimmedAt(s: string, r: string, i: int) {
    && 0 <= i <= |s| - |r|
    && r == s[i..i + |r|]
    && (forall k :: 0 <= k < i ==> IsWhitespace(s[k]))
    && (forall k :: i + |r| <= k < |s| ==> IsWhitespace(s[k]))
  }

  /** `String.prototype.trim`: the blanks at both ends removed. */
  function Trim(s: string): (r: string)
    ensures r == [] || (!IsWhitespace(r[0]) && !IsWhitespace(r[|r| - 1]))
    ensures TrimmedAt(s, r, SkipBlanks(s, 0))
  {
    var i := SkipBlanks(s, 0);
    var e := SkipBlanksBack(s, i, |s|);
    s[i..e]
  }

  /** A string that neither starts nor ends with a blank is its own trim. */
  lemma TrimUnblanked(s: string)
    requires s == [] || (!IsWhitespace(s[0]) && !IsWhitespace(s[|s| - 1]))
    ensures Trim(s) == s
  {
    assert SkipBlanks(s, 0) == 0;
    assert SkipBlanksBack(s, 0, |s|) == |s|;
  }

  /** `trim` gives the empty string exactly when every character is a blank. */
  lemma TrimEmpty(s: string)
    ensures Trim(s) == [] <==> forall k :: 0 <= k < |s| ==> IsWhitespace(s[k])
  {
    var i := SkipBlanks(s, 0);
    if i < |s| {
      assert !IsWhitespace(s[i]);
      assert SkipBlanksBack(s, i, |s|) > i;
    }
  }

  /** Trimming twice is trimming once. */
  lemma TrimIdempotent(s: string)
    ensures Trim(Trim(s)) == Trim(s)
  {
    TrimUnblanked(Trim(s));
  }

  /** `toLowerCase` on one code point; letters outside ASCII are left as they are. */
  function LowerChar(c: char): char {
    if 'A' <= c <= 'Z' then (c as int + 32) as char else c
  }

  /** `String.prototype.toLowerCase`, letter by letter. */
  function ToLower(s: string): (r: string)
    ensures |r| == |s|
    ensures forall i :: 0 <= i < |s| ==> r[i] == LowerChar(s[i])
    ensures forall i :: 0 <= i < |r| ==> !('A' <= r[i] <= 'Z')
    decreases |s|
  {
    if |s| == 0 then [] else [LowerChar(s[0])] + ToLower(s[1..])
  }

  /** Lower-casing twice is lower-casing once. */
  lemma ToLowerIdempotent(s: string)
    ensures ToLower(ToLower(s)) == ToLower(s)
  {
  }

  /** Lower-casing a trimmed string leaves nothing for `trim` to remove. */
  lemma TrimAfterLower(s: string)
    ensures Trim(ToLower(Trim(s))) == ToLower(Trim(s))
  {
    var t := Trim(s);
    var l := ToLower(t);
    if |l| > 0 {
      assert l[0] == LowerChar(t[0]);
      assert l[|l| - 1] == LowerChar(t[|t| - 1]);
    }
    TrimUnblanked(l);
  }

  /** `n` occurs in `h` starting at index `i`. */
  ghost predicate OccursAt(h: string, n: string, i: int) {
    0 <= i <= |h| - |n| && h[i..i + |n|] == n
  }

  /** `n` occurs somewhere in `h`. */
  ghost predicate Occurs(h: string, n: string) {
    exists i :: OccursAt(h, n, i)
  }

  /** `n` occurs in `h` at index `i` or later. */
  function IncludesFrom(h: string, n: string, i: nat): (b: bool)
    ensures b <==> exists j :: i <= j && OccursAt(h, n, j)
    decreases |h| - i
  {
    if i + |n| > |h| then false
    else if h[i..i + |n|] == n then assert OccursAt(h, n, i); true
    else IncludesFrom(h, n, i + 1)
  }

  /** `String.prototype.includes`: `n` is a contiguous piece of `h` (the empty string is one of every string). */
  function Includes(h: string, n: string): (b: bool)
    ensures b <==> Occurs(h, n)
  {
    IncludesFrom(h, n, 0)
  }
}
