/** The `Pagination` component: the list of page buttons and ellipsis
    markers that `getPageNumbers` builds, whether the component shows at
    all, and the previous/next buttons. */
module Pagination {
  import View

  /** An entry of the list: a page number, or the `'...'` marker. */
  datatype PageItem = Number(n: int) | Ellipsis

  /** Up to this many pages, every page gets a button. */
  const MaxVisible: int := 5

  /** The buttons for pages `lo` to `hi`, both included. */
  function Range(lo: int, hi: int): (r: seq<PageItem>)
    ensures |r| == if hi < lo then 0 else hi - lo + 1
    ensures forall i :: 0 <= i < |r| ==> r[i] == Number(lo + i)
    decreases hi - lo
  {
    if hi < lo then [] else [Number(lo)] + Range(lo + 1, hi)
  }

  /** The list `getPageNumbers` returns, branch by branch. */
  function PageWindow(totalPages: int, currentPage: int): (r: seq<PageItem>)
    ensures |r| <= 7
    ensures totalPages >= 1 ==> |r| >= 1 && r[0] == Number(1) && r[|r| - 1] == Number(totalPages)
    ensures totalPages < 1 ==> r == []
  {
    if totalPages <= MaxVisible then
      Range(1, totalPages)
    else if currentPage <= 3 then
      Range(1, 4) + [Ellipsis, Number(totalPages)]
    else if currentPage >= totalPages - 2 then
      [Number(1), Ellipsis] + Range(totalPages - 3, totalPages)
    else
      [Number(1), Ellipsis] + Range(currentPage - 1, currentPage + 1) + [Ellipsis, Number(totalPages)]
  }

  /** Appends the buttons for pages `lo` to `hi` one at a time. */
  method PushRange(pages: seq<PageItem>, lo: int, hi: int) returns (r: seq<PageItem>)
    ensures r == pages + Range(lo, hi)
  {
    r := pages;
    var i := lo;
    while i <= hi
      invariant hi < lo ==> i == lo
      invariant hi >= lo ==> lo <= i <= hi + 1
      invariant |r| == |pages| + (i - lo)
      invariant r[..|pages|] == pages
      invariant forall k :: |pages| <= k < |r| ==> r[k] == Number(lo + (k - |pages|))
      decreases hi - i
    {
      r := r + [Number(i)];
      i := i + 1;
    }
    assert r[..|pages|] == pages;
    assert r[|pages|..] == Range(lo, hi);
    assert r == r[..|pages|] + r[|pages|..];
  }

  /** `getPageNumbers`. */
  method GetPageNumbers(totalPages: int, currentPage: int) returns (pages: seq<PageItem>)
    ensures pages == PageWindow(totalPages, currentPage)
  {
    pages := [];
    if totalPages <= MaxVisible {
      pages := PushRange(pages, 1, totalPages);
    } else {
      if currentPage <= 3 {
        pages := PushRange(pages, 1, 4);
        pages := pages + [Ellipsis];
        pages := pages + [Number(totalPages)];
      } else if currentPage >= totalPages - 2 {
        pages := pages + [Number(1)];
        pages := pages + [Ellipsis];
        pages := PushRange(pages, totalPages - 3, totalPages);
      } else {
        pages := pages + [Number(1)];
        pages := pages + [Ellipsis];
        pages := PushRange(pages, currentPage - 1, currentPage + 1);
        pages := pages + [Ellipsis];
        pages := pages + [Number(totalPages)];
      }
    }
  }

  // ---------------------------------------------------------------------
  // Properties of the window
  // ---------------------------------------------------------------------

  /** With few pages there is a button for each, and no ellipsis; no pages
      gives an empty list. */
  lemma SmallWindow(totalPages: int, currentPage: int)
    requires totalPages <= MaxVisible
    ensures var w := PageWindow(totalPages, currentPage);
      && |w| == (if totalPages < 1 then 0 else totalPages)
      && forall i :: 0 <= i < |w| ==> w[i] == Number(i + 1)
  {
  }

  function EllipsisCount(w: seq<PageItem>): nat {
    if w == [] then 0 else (if w[0].Ellipsis? then 1 else 0) + EllipsisCount(w[1..])
  }

  lemma {:induction false} EllipsisCountAppend(a: seq<PageItem>, b: seq<PageItem>)
    ensures EllipsisCount(a + b) == EllipsisCount(a) + EllipsisCount(b)
  {
    if a == [] {
      assert a + b == b;
    } else {
      assert (a + b)[0] == a[0];
      assert (a + b)[1..] == a[1..] + b;
      EllipsisCountAppend(a[1..], b);
    }
  }

  lemma MarkerPairs(totalPages: int)
    ensures EllipsisCount([Ellipsis, Number(totalPages)]) == 1
    ensures EllipsisCount([Number(1), Ellipsis]) == 1
  {
    var last: seq<PageItem> := [Number(totalPages)];
    assert last[1..] == [];
    assert EllipsisCount(last) == 0;
    assert [Ellipsis, Number(totalPages)][1..] == last;
    assert [Number(1), Ellipsis][1..] == [Ellipsis];
    assert [Ellipsis][1..] == [];
  }

  lemma {:induction false} RangeHasNoEllipsis(lo: int, hi: int)
    ensures EllipsisCount(Range(lo, hi)) == 0
    decreases hi - lo
  {
    if lo <= hi {
      assert Range(lo, hi)[1..] == Range(lo + 1, hi);
      RangeHasNoEllipsis(lo + 1, hi);
    }
  }

  /** With many pages the list starts at page 1 and ends at the last page;
      the two edge branches have six entries and one ellipsis, the middle
      branch seven entries and two. */
  lemma LargeWindow(totalPages: int, currentPage: int)
    requires totalPages > MaxVisible
    ensures var w := PageWindow(totalPages, currentPage);
      && w[0] == Number(1) && w[|w| - 1] == Number(totalPages)
      && (currentPage <= 3 || currentPage >= totalPages - 2 ==> |w| == 6 && EllipsisCount(w) == 1)
      && (3 < currentPage < totalPages - 2 ==> |w| == 7 && EllipsisCount(w) == 2)
  {
    var w := PageWindow(totalPages, currentPage);
    if currentPage <= 3 {
      RangeHasNoEllipsis(1, 4);
      EllipsisCountAppend(Range(1, 4), [Ellipsis, Number(totalPages)]);
      MarkerPairs(totalPages);
    } else if currentPage >= totalPages - 2 {
      RangeHasNoEllipsis(totalPages - 3, totalPages);
      EllipsisCountAppend([Number(1), Ellipsis], Range(totalPages - 3, totalPages));
      MarkerPairs(totalPages);
    } else {
      var mid := Range(currentPage - 1, currentPage + 1);
      RangeHasNoEllipsis(currentPage - 1, currentPage + 1);
      EllipsisCountAppend([Number(1), Ellipsis], mid);
      EllipsisCountAppend([Number(1), Ellipsis] + mid, [Ellipsis, Number(totalPages)]);
      MarkerPairs(totalPages);
    }
  }

  /** The numbered entries, read left to right, strictly increase. */
  predicate NumbersIncrease(w: seq<PageItem>) {
    forall i, j :: 0 <= i < j < |w| && w[i].Number? && w[j].Number? ==> w[i].n < w[j].n
  }

  /** Every numbered entry is a page that exists. */
  predicate NumbersWithin(w: seq<PageItem>, totalPages: int) {
    forall i :: 0 <= i < |w| && w[i].Number? ==> 1 <= w[i].n <= totalPages
  }

  /** For any current page, even one outside `[1, totalPages]`, the numbers
      strictly increase and name existing pages. */
  lemma WindowOrdered(totalPages: int, currentPage: int)
    ensures NumbersIncrease(PageWindow(totalPages, currentPage))
    ensures NumbersWithin(PageWindow(totalPages, currentPage), totalPages)
  {
  }

  /** A current page that exists has its own button. */
  lemma WindowHasCurrent(totalPages: int, currentPage: int)
    requires 1 <= currentPage <= totalPages
    ensures Number(currentPage) in PageWindow(totalPages, currentPage)
  {
    var w := PageWindow(totalPages, currentPage);
    if totalPages <= MaxVisible {
      assert w[currentPage - 1] == Number(currentPage);
    } else if currentPage <= 3 {
      assert w[currentPage - 1] == Number(currentPage);
    } else if currentPage >= totalPages - 2 {
      assert w[2 + currentPage - (totalPages - 3)] == Number(currentPage);
    } else {
      assert w[3] == Number(currentPage);
    }
  }

  /** An ellipsis never opens or closes the list and never follows another. */
  lemma EllipsisPlacement(totalPages: int, currentPage: int)
    ensures var w := PageWindow(totalPages, currentPage);
      && (w != [] ==> w[0].Number? && w[|w| - 1].Number?)
      && forall i :: 0 <= i < |w| - 1 && w[i].Ellipsis? ==> w[i + 1].Number?
  {
  }

  // ---------------------------------------------------------------------
  // Visibility and navigation
  // ---------------------------------------------------------------------

  /** The component renders nothing for at most one page of at most ten
      items. */
  predicate IsHidden(totalPages: int, totalItems: int) {
    totalPages <= 1 && totalItems <= 10
  }

  /** Fed by the store, the component hides exactly when the filtered list
      fits on one page and has at most ten items. */
  lemma HiddenForShortLists(n: nat, pageSize: int)
    requires pageSize > 0
    ensures IsHidden(View.TotalPages(n, pageSize), n) <==> n <= pageSize && n <= 10
  {
    var p := View.TotalPages(n, pageSize);
    if p <= 1 && n > pageSize {
      View.MulMonotone(p, 1, pageSize);
    }
    if n <= pageSize && p > 1 {
      View.MulMonotone(1, p - 1, pageSize);
    }
  }

  predicate PrevDisabled(currentPage: int) {
    currentPage == 1
  }

  function PrevTarget(currentPage: int): int {
    currentPage - 1
  }

  predicate NextDisabled(currentPage: int, totalPages: int) {
    currentPage == totalPages
  }

  function NextTarget(currentPage: int): int {
    currentPage + 1
  }

  /** From an existing page, an enabled previous or next button leads to an
      existing page, one step away. */
  lemma NavigationInRange(currentPage: int, totalPages: int)
    requires 1 <= currentPage <= totalPages
    ensures !PrevDisabled(currentPage) <==> currentPage > 1
    ensures !PrevDisabled(currentPage) ==> 1 <= PrevTarget(currentPage) <= totalPages
    ensures !NextDisabled(currentPage, totalPages) <==> currentPage < totalPages
    ensures !NextDisabled(currentPage, totalPages) ==> 1 <= NextTarget(currentPage) <= totalPages
  {
  }

  /** The next button compares with `===`: from a page past the last one
      (left there by a delete) it stays enabled and leads
      further out. */
  lemma NextFromStalePage(currentPage: int, totalPages: int)
    requires currentPage > totalPages
    ensures !NextDisabled(currentPage, totalPages) && NextTarget(currentPage) > totalPages
  {
  }
}
