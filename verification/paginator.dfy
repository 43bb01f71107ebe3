/**
 * Fixed-size pages over the search result: the page count, the slice a page
 * shows, and the fact that the pages, read in order, give back the result.
 */
module Paginator {

  /** `itemsPerPage`. */
  const PageSize: nat := 50

  function Min(a: int, b: int): int {
    if a <= b then a else b
  }

  function Max(a: int, b: int): int {
    if a <= b then b else a
  }

  /** `Math.ceil(n / itemsPerPage)`: the fewest pages that hold `n` items. */
  function TotalPages(n: nat): (t: nat)
    ensures t * PageSize >= n
    ensures t == 0 || (t - 1) * PageSize < n
    ensures t == 0 <==> n == 0
  {
    (n + PageSize - 1) / PageSize
  }

  /** `Array.prototype.slice(start, end)`: a negative bound counts from the end, and bounds are clamped to the length. */
  function Slice<T>(s: seq<T>, start: int, end: int): (r: seq<T>)
    ensures 0 <= start <= end <= |s| ==> r == s[start..end]
    ensures 0 <= end <= start ==> r == []
  {
    var from := if start < 0 then Max(|s| + start, 0) else Min(start, |s|);
    var to := if end < 0 then Max(|s| + end, 0) else Min(end, |s|);
    if from < to then s[from..to] else []
  }

  /** The index of the first item on `page` (pages count from 1). */
  function PageStart(page: int): int {
    (page - 1) * PageSize
  }

  /** The items `displayResults` shows on `page`. */
  function PageItems<T>(view: seq<T>, page: int): (items: seq<T>)
    ensures 1 <= page <= TotalPages(|view|) ==>
      && 0 < |items| <= PageSize
      && items == view[PageStart(page)..Min(PageStart(page) + PageSize, |view|)]
    ensures page > TotalPages(|view|) ==> items == []
    ensures 1 <= page ==> forall i :: 0 <= i < |items| ==>
      PageStart(page) + i < |view| && items[i] == view[PageStart(page) + i]
  {
    var startIndex := PageStart(page);
    var endIndex := Min(startIndex + PageSize, |view|);
    Slice(view, startIndex, endIndex)
  }

  /** The items of pages 1 to `k`, one page after the other. */
  function PagesThrough<T>(view: seq<T>, k: nat): seq<T> {
    if k == 0 then [] else PagesThrough(view, k - 1) + PageItems(view, k)
  }

  /** Pages 1 to `k` together are exactly the first `k` pages' worth of the view. */
  lemma {:induction false} PagesThroughPrefix<T>(view: seq<T>, k: nat)
    requires k <= TotalPages(|view|)
    ensures PagesThrough(view, k) == view[..Min(k * PageSize, |view|)]
  {
    if k > 0 {
      PagesThroughPrefix(view, k - 1);
      assert (k - 1) * PageSize < |view|;
      assert view[..Min(k * PageSize, |view|)]
          == view[..(k - 1) * PageSize] + view[(k - 1) * PageSize..Min(k * PageSize, |view|)];
    }
  }

  /**
   * Reading every page from the first to the last gives back the whole view:
   * no item is skipped and none is shown twice.
   */
  lemma {:induction false} PagesPartitionView<T>(view: seq<T>)
    ensures PagesThrough(view, TotalPages(|view|)) == view
  {
    PagesThroughPrefix(view, TotalPages(|view|));
  }

  /** The page an item at index `i` appears on. */
  function PageOf(i: nat): (p: nat)
    ensures p >= 1 && PageStart(p) <= i < PageStart(p) + PageSize
  {
    i / PageSize + 1
  }

  /** Item `i` of the view appears on page `PageOf(i)`, at position `i - PageStart(PageOf(i))`. */
  lemma PageOfIndex<T>(view: seq<T>, i: nat)
    requires i < |view|
    ensures 1 <= PageOf(i) <= TotalPages(|view|)
    ensures PageItems(view, PageOf(i))[i - PageStart(PageOf(i))] == view[i]
  {
    var p := PageOf(i);
    assert (p - 1) * PageSize <= i;
  }

  /** Position `j` of page `page` holds item `i` only on page `PageOf(i)`: no item is on two pages. */
  lemma PageOfUnique(i: nat, page: int, j: int)
    requires 1 <= page && 0 <= j < PageSize
    requires PageStart(page) + j == i
    ensures page == PageOf(i)
  {
  }
}
