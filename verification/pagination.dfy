/** The pagination of components/PaginatedActivitySection.tsx: a group of
    activities is shown `itemsPerPage` at a time, with a window of three
    page buttons that follows the current page, and a trailing button for
    the last page, after an ellipsis when pages are skipped.

    The component's state is the pair (current page, window start); the
    handlers are functions from state to state. Scrolling and rendering are
    left out. */
module Pagination {
  import opened Basics

  /** The number of page buttons in the window. */
  const WindowSize: int := 3

  datatype PageState = PageState(currentPage: int, windowStart: int)

  const Initial: PageState := PageState(1, 1)

  /** `Math.ceil(n / itemsPerPage)`. */
  function TotalPages(n: nat, perPage: nat): (t: nat)
    requires perPage > 0
    ensures (t - 1) * perPage < n <= t * perPage || (n == 0 && t == 0)
  {
    (n + perPage - 1) / perPage
  }

  /** `Array.prototype.slice(start, end)` for a non-negative start. */
  function Slice<T>(s: seq<T>, start: nat, end: int): (r: seq<T>)
    ensures start <= end && start <= |s| ==> r == s[start..if end <= |s| then end else |s|]
    ensures end <= start || |s| <= start ==> r == []
  {
    var hi := if end <= |s| then end else |s|;
    if start < hi then s[start..hi] else []
  }

  /** The activities shown on page `page` (1-based). */
  function PageItems<T>(items: seq<T>, page: int, perPage: nat): (r: seq<T>)
    requires page >= 1 && perPage > 0
    ensures |r| <= perPage
  {
    Slice(items, (page - 1) * perPage, (page - 1) * perPage + perPage)
  }

  /** The pages `1..k` together, in order. */
  function PagesUpTo<T>(items: seq<T>, k: nat, perPage: nat): seq<T>
    requires perPage > 0
  {
    if k == 0 then [] else PagesUpTo(items, k - 1, perPage) + PageItems(items, k, perPage)
  }

  function Min(a: int, b: int): int { if a <= b then a else b }

  lemma {:induction false} PagesUpToPrefix<T>(items: seq<T>, k: nat, perPage: nat)
    requires perPage > 0
    ensures PagesUpTo(items, k, perPage) == items[..Min(k * perPage, |items|)]
  {
    if k > 0 {
      PagesUpToPrefix(items, k - 1, perPage);
      var lo := (k - 1) * perPage;
      assert k * perPage == lo + perPage;
      if lo < |items| {
        assert items[..Min(lo, |items|)] + items[lo..Min(lo + perPage, |items|)]
            == items[..Min(lo + perPage, |items|)];
      }
    }
  }

  /** The pages partition the activities: read one after another, pages
      `1..totalPages` give back the whole list, each activity once. */
  lemma PagesPartition<T>(items: seq<T>, perPage: nat)
    requires perPage > 0
    ensures PagesUpTo(items, TotalPages(|items|, perPage), perPage) == items
  {
    var t := TotalPages(|items|, perPage);
    PagesUpToPrefix(items, t, perPage);
    assert items[..|items|] == items;
  }

  /* ---------------- the handlers ---------------- */

  /** The window starts at a real page, and holds the current page, which
      is a real page. */
  predicate Inv(s: PageState, totalPages: int) {
    1 <= s.windowStart <= s.currentPage <= s.windowStart + WindowSize - 1 && s.currentPage <= totalPages
  }

  /** `goToNext`. */
  function GoToNext(s: PageState, totalPages: int): (r: PageState)
    ensures r.currentPage <= totalPages
    ensures Inv(s, totalPages) ==> Inv(r, totalPages)
    ensures s.currentPage < totalPages ==> r.currentPage == s.currentPage + 1
  {
    var next := Min(totalPages, s.currentPage + 1);
    PageState(next, if next > s.windowStart + WindowSize - 1 then s.windowStart + 1 else s.windowStart)
  }

  /** `goToPrevious`. */
  function GoToPrevious(s: PageState): (r: PageState)
    ensures r.currentPage >= 1
    ensures forall t :: Inv(s, t) ==> Inv(r, t)
    ensures s.currentPage > 1 ==> r.currentPage == s.currentPage - 1
  {
    var next := if 1 >= s.currentPage - 1 then 1 else s.currentPage - 1;
    PageState(next, if next < s.windowStart then s.windowStart - 1 else s.windowStart)
  }

  /** `goToPage`. */
  function GoToPage(s: PageState, page: int): (r: PageState)
    ensures r.currentPage == page
    ensures s.windowStart <= page <= s.windowStart + WindowSize - 1 ==> r.windowStart == s.windowStart
    ensures forall t :: Inv(s, t) && 1 <= page <= t ==> Inv(r, t)
  {
    var ws :=
      if page < s.windowStart then page
      else if page > s.windowStart + WindowSize - 1 then page - WindowSize + 1
      else s.windowStart;
    PageState(page, ws)
  }

  /* ---------------- the buttons ---------------- */

  /** Page `p` has a button in the window starting at `ws`. */
  predicate InWindow(p: int, ws: int, totalPages: int) {
    ws <= p <= Min(ws + WindowSize - 1, totalPages)
  }

  /** `getPageNumbers`. */
  method PageNumbers(windowStart: int, totalPages: int) returns (pages: seq<int>)
    ensures |pages| <= WindowSize
    ensures forall k :: 0 <= k < |pages| ==> pages[k] == windowStart + k
    ensures forall p :: p in pages <==> InWindow(p, windowStart, totalPages)
  {
    pages := [];
    var end := Min(windowStart + WindowSize - 1, totalPages);
    var i := windowStart;
    while i <= end
      invariant windowStart <= i && (i <= end + 1 || pages == [])
      invariant |pages| == i - windowStart
      invariant forall k :: 0 <= k < |pages| ==> pages[k] == windowStart + k
      invariant forall p :: p in pages <==> windowStart <= p < i
      decreases end - i
    {
      pages := pages + [i];
      i := i + 1;
    }
  }

  /** What follows the window's buttons. */
  datatype Trailing = Nothing | LastPage | EllipsisThenLast

  function TrailingOf(windowStart: int, totalPages: int): Trailing {
    var windowEnd := windowStart + WindowSize - 1;
    if windowEnd >= totalPages then Nothing
    else if windowEnd == totalPages - 1 then LastPage
    else EllipsisThenLast
  }

  /** The current page has a button in the window. The last page gets
      exactly one button: in the window, or trailing it;
      the ellipsis shows exactly when pages lie between the window and the
      last page. */
  lemma TrailingRule(s: PageState, totalPages: int)
    requires Inv(s, totalPages)
    ensures InWindow(s.currentPage, s.windowStart, totalPages)
    ensures TrailingOf(s.windowStart, totalPages).Nothing? <==> InWindow(totalPages, s.windowStart, totalPages)
    ensures TrailingOf(s.windowStart, totalPages).EllipsisThenLast? <==>
      exists p :: s.windowStart < p < totalPages && !InWindow(p, s.windowStart, totalPages)
  {
    if TrailingOf(s.windowStart, totalPages).EllipsisThenLast? {
      var p := totalPages - 1;
      assert s.windowStart < p < totalPages && !InWindow(p, s.windowStart, totalPages);
    }
  }

  /* ---------------- sessions ---------------- */

  datatype Click = Next | Previous | Page(page: int)

  /** A page button the user can click: one in the window, or the
      trailing last-page button. */
  predicate Offered(s: PageState, totalPages: int, c: Click) {
    c.Page? ==> InWindow(c.page, s.windowStart, totalPages)
                || (c.page == totalPages && !TrailingOf(s.windowStart, totalPages).Nothing?)
  }

  function Step(s: PageState, totalPages: int, c: Click): PageState {
    match c
    case Next => GoToNext(s, totalPages)
    case Previous => GoToPrevious(s)
    case Page(p) => GoToPage(s, p)
  }

  /** The state after a sequence of clicks, each on a button offered at
      that point; None if some click was not offered. */
  function Session(s: PageState, totalPages: int, clicks: seq<Click>): Option<PageState>
    decreases |clicks|
  {
    if clicks == [] then Some(s)
    else if !Offered(s, totalPages, clicks[0]) then None
    else Session(Step(s, totalPages, clicks[0]), totalPages, clicks[1..])
  }

  /** From the first page, any sequence of offered clicks keeps the window
      on real pages and around the current page. */
  lemma {:induction false} SessionKeepsInv(s: PageState, totalPages: int, clicks: seq<Click>)
    requires Inv(s, totalPages)
    ensures Session(s, totalPages, clicks).Some? ==> Inv(Session(s, totalPages, clicks).value, totalPages)
    decreases |clicks|
  {
    if clicks != [] && Offered(s, totalPages, clicks[0]) {
      SessionKeepsInv(Step(s, totalPages, clicks[0]), totalPages, clicks[1..]);
    }
  }

  /** The component starts on page 1 with the window at page 1. */
  lemma SessionFromStart(totalPages: int, clicks: seq<Click>)
    requires totalPages >= 1
    ensures Session(Initial, totalPages, clicks).Some? ==> Inv(Session(Initial, totalPages, clicks).value, totalPages)
  {
    SessionKeepsInv(Initial, totalPages, clicks);
  }
}
