/**
 * The paginated grid: the page count, the slice of items a page shows, the
 * window of at most five page-number buttons, the Previous/Next guards and the
 * "Showing a-b of n" line.
 */
module PaginatedGrid {
  import opened Arith
  import opened Lists

  /** `Math.ceil(count / itemsPerPage)`. */
  function TotalPages(count: nat, itemsPerPage: nat): (total: nat)
    requires itemsPerPage > 0
    ensures count <= total * itemsPerPage
    ensures total > 0 ==> (total - 1) * itemsPerPage < count
    ensures total == 0 <==> count == 0
  {
    (count + itemsPerPage - 1) / itemsPerPage
  }

  /** Where `slice` puts a bound: negative bounds count from the end, all are clamped to the list. */
  function SliceBound(x: int, length: nat): (b: nat)
    ensures b <= length
    ensures 0 <= x <= length ==> b == x
    ensures x > length ==> b == length
  {
    if x < 0 then (if length + x < 0 then 0 else length + x)
    else if x > length then length
    else x
  }

  /** `items.slice(start, end)`. */
  function Slice<T>(items: seq<T>, start: int, end: int): (r: seq<T>)
  {
    var s := SliceBound(start, |items|);
    var e := SliceBound(end, |items|);
    if e <= s then [] else items[s..e]
  }

  /** The items page `page` shows: `items.slice(startIndex, endIndex)`. */
  function Page<T>(items: seq<T>, page: int, itemsPerPage: nat): seq<T>
  {
    var startIndex := (page - 1) * itemsPerPage;
    Slice(items, startIndex, startIndex + itemsPerPage)
  }

  /** Page p >= 1 shows the n items from (p-1)*n on, cut at the end of the list, so at most n items. */
  lemma PageContents<T>(items: seq<T>, page: nat, itemsPerPage: nat)
    requires page >= 1
    ensures var lo := (page - 1) * itemsPerPage;
      Page(items, page, itemsPerPage) == Window(items, lo, lo + itemsPerPage)
    ensures |Page(items, page, itemsPerPage)| <= itemsPerPage
  {
    MulNat(page - 1, itemsPerPage);
    SliceIsWindow(items, (page - 1) * itemsPerPage, itemsPerPage);
  }

  /** A slice of n items from a non-negative start is the window there, at most n long. */
  lemma SliceIsWindow<T>(items: seq<T>, lo: nat, n: nat)
    ensures Slice(items, lo, lo + n) == Window(items, lo, lo + n)
    ensures |Slice(items, lo, lo + n)| <= n
  {
  }

  /** The items of pages 1 .. k, in page order. */
  function PagesUpTo<T>(items: seq<T>, itemsPerPage: nat, k: nat): seq<T>
    decreases k
  {
    if k == 0 then [] else PagesUpTo(items, itemsPerPage, k - 1) + Page(items, k, itemsPerPage)
  }

  /** Pages 1 .. k together are the first k * n items. */
  lemma {:induction false} PagesUpToPrefix<T>(items: seq<T>, itemsPerPage: nat, k: nat)
    ensures PagesUpTo(items, itemsPerPage, k) == Take(items, k * itemsPerPage)
    decreases k
  {
    if k > 0 {
      MulNat(k - 1, itemsPerPage);
      var lo: nat := (k - 1) * itemsPerPage;
      PagesUpToPrefix(items, itemsPerPage, k - 1);
      PagesStep(items, itemsPerPage, k, lo);
      MulPred(k, itemsPerPage);
    }
  }

  /** Page k continues where pages 1 .. k-1 stop. */
  lemma PagesStep<T>(items: seq<T>, n: nat, k: nat, lo: nat)
    requires k > 0 && lo == (k - 1) * n
    requires PagesUpTo(items, n, k - 1) == Take(items, lo)
    ensures PagesUpTo(items, n, k) == Take(items, lo + n)
  {
    calc {
      PagesUpTo(items, n, k);
      PagesUpTo(items, n, k - 1) + Page(items, k, n);
    == { PageContents(items, k, n); }
      Take(items, lo) + Window(items, lo, lo + n);
    == { PrefixThenWindow(items, lo, lo + n); }
      Take(items, lo + n);
    }
  }

  /** Every item is on exactly one page: pages 1 .. totalPages, concatenated, are the list. */
  lemma PagesCoverItems<T>(items: seq<T>, itemsPerPage: nat)
    requires itemsPerPage > 0
    ensures PagesUpTo(items, itemsPerPage, TotalPages(|items|, itemsPerPage)) == items
  {
    PagesUpToPrefix(items, itemsPerPage, TotalPages(|items|, itemsPerPage));
  }

  // ---------------------------------------------------------------------------
  // Page-number buttons
  // ---------------------------------------------------------------------------

  function Min(a: int, b: int): int {
    if a < b then a else b
  }

  /** The number on the i-th page button. */
  function PageNumberAt(i: nat, currentPage: int, totalPages: nat): int {
    if totalPages <= 5 then i + 1
    else if currentPage <= 3 then i + 1
    else if currentPage > totalPages - 3 then totalPages - 4 + i
    else currentPage - 2 + i
  }

  /**
   * The page-number buttons: `min(5, totalPages)` consecutive pages, all
   * existing, whatever the current page.
   */
  function PageWindow(currentPage: int, totalPages: nat): (w: seq<int>)
    ensures |w| == Min(5, totalPages)
    ensures forall i :: 0 <= i < |w| ==> 1 <= w[i] <= totalPages
    ensures forall i :: 0 < i < |w| ==> w[i] == w[i - 1] + 1
  {
    seq(Min(5, totalPages), i requires 0 <= i => PageNumberAt(i, currentPage, totalPages))
  }

  /** The current page, when it exists, has a button. */
  lemma WindowHasCurrent(currentPage: int, totalPages: nat) returns (i: nat)
    requires 1 <= currentPage <= totalPages
    ensures i < |PageWindow(currentPage, totalPages)| && PageWindow(currentPage, totalPages)[i] == currentPage
  {
    var w := PageWindow(currentPage, totalPages);
    i := currentPage - w[0];
  }

  // ---------------------------------------------------------------------------
  // Navigation
  // ---------------------------------------------------------------------------

  /** The buttons under the grid. */
  datatype Click = Previous | Next | PageButton(index: nat)

  /** `disabled={currentPage === 1}`. */
  predicate PreviousDisabled(currentPage: int) {
    currentPage == 1
  }

  /** `disabled={currentPage === totalPages}`, as written. */
  predicate NextDisabledAsWritten(currentPage: int, totalPages: nat) {
    currentPage == totalPages
  }

  /** The guard the Next button needs: no page after the last one. */
  predicate NextDisabled(currentPage: int, totalPages: nat) {
    currentPage >= totalPages
  }

  /** The page after a click with the Next guard as written. */
  function AfterClickAsWritten(currentPage: int, totalPages: nat, click: Click): int {
    if totalPages <= 1 then currentPage
    else match click
    case Previous => if PreviousDisabled(currentPage) then currentPage else currentPage - 1
    case Next => if NextDisabledAsWritten(currentPage, totalPages) then currentPage else currentPage + 1
    case PageButton(i) =>
      if i < Min(5, totalPages) then PageWindow(currentPage, totalPages)[i] else currentPage
  }

  /**
   * With the guard as written, a page kept from a longer list (past the new
   * last page) leaves Next enabled, and Next moves further away.
   */
  lemma NextGuardCounterexample()
    ensures !NextDisabledAsWritten(3, 2) && AfterClickAsWritten(3, 2, Next) == 4
  {
  }

  /**
   * The page after a click. The buttons are only shown when there are at least
   * two pages; a disabled button or a missing page button does nothing.
   */
  function AfterClick(currentPage: int, totalPages: nat, click: Click): (page: int)
    ensures 1 <= currentPage <= totalPages ==> 1 <= page <= totalPages
    ensures click == Next ==> page <= if currentPage > totalPages then currentPage else totalPages
    ensures totalPages <= 1 ==> page == currentPage
  {
    if totalPages <= 1 then currentPage
    else match click
    case Previous => if PreviousDisabled(currentPage) then currentPage else currentPage - 1
    case Next => if NextDisabled(currentPage, totalPages) then currentPage else currentPage + 1
    case PageButton(i) =>
      if i < Min(5, totalPages) then PageWindow(currentPage, totalPages)[i] else currentPage
  }

  /** Both guards agree whenever the current page exists. */
  lemma GuardsAgreeInRange(currentPage: int, totalPages: nat, click: Click)
    requires 1 <= currentPage <= totalPages
    ensures AfterClick(currentPage, totalPages, click) == AfterClickAsWritten(currentPage, totalPages, click)
  {
  }

  /** The "Showing a-b of n" line: a is startIndex + 1, b is `Math.min(endIndex, count)`. */
  function ShownRange(count: nat, currentPage: int, itemsPerPage: nat): (range: (int, int))
    ensures range.1 <= count
  {
    var startIndex := (currentPage - 1) * itemsPerPage;
    var endIndex := startIndex + itemsPerPage;
    (startIndex + 1, Min(endIndex, count))
  }

  /** An existing page starts inside the list. */
  lemma PageStartsInside(count: nat, page: nat, itemsPerPage: nat)
    requires itemsPerPage > 0 && 1 <= page <= TotalPages(count, itemsPerPage)
    ensures (page - 1) * itemsPerPage < count
  {
    MulMonotone(page - 1, TotalPages(count, itemsPerPage) - 1, itemsPerPage);
  }

  /** A window that starts inside the list holds min(hi, length) - lo items. */
  lemma WindowLength<T>(items: seq<T>, lo: nat, hi: nat)
    requires lo < |items| && lo <= hi
    ensures |Window(items, lo, hi)| == Min(hi, |items|) - lo
  {
  }

  /** On an existing page the line counts exactly the items shown. */
  lemma ShownRangeCountsPage<T>(items: seq<T>, currentPage: nat, itemsPerPage: nat)
    requires itemsPerPage > 0 && 1 <= currentPage <= TotalPages(|items|, itemsPerPage)
    ensures var (a, b) := ShownRange(|items|, currentPage, itemsPerPage);
      1 <= a <= b && b - a + 1 == |Page(items, currentPage, itemsPerPage)|
  {
    MulNat(currentPage - 1, itemsPerPage);
    var lo: nat := (currentPage - 1) * itemsPerPage;
    PageStartsInside(|items|, currentPage, itemsPerPage);
    PageContents(items, currentPage, itemsPerPage);
    WindowLength(items, lo, lo + itemsPerPage);
    assert ShownRange(|items|, currentPage, itemsPerPage) == (lo + 1, Min(lo + itemsPerPage, |items|));
  }

  /** The component's state: the current page. */
  class Pager {
    var currentPage: int

    constructor()
      ensures currentPage == 1
    {
      currentPage := 1;
    }

    /** `goToPage` (the scroll to the top is not modelled). */
    method GoToPage(page: int)
      modifies this
      ensures currentPage == page
    {
      currentPage := page;
    }

    /** A click on one of the buttons; disabled buttons do not fire. */
    method Click(click: Click, totalPages: nat)
      modifies this
      ensures currentPage == AfterClick(old(currentPage), totalPages, click)
    {
      if totalPages <= 1 {
        return;
      }
      match click
      case Previous =>
        if !PreviousDisabled(currentPage) {
          GoToPage(currentPage - 1);
        }
      case Next =>
        if !NextDisabled(currentPage, totalPages) {
          GoToPage(currentPage + 1);
        }
      case PageButton(i) =>
        if i < Min(5, totalPages) {
          GoToPage(PageWindow(currentPage, totalPages)[i]);
        }
    }
  }
}
