/** The page window of the Pagination component: which page buttons and
    "more pages" separators are rendered for a given `total` and current
    `page`, when a page change reaches `onChange`, and when the previous and
    next controls are disabled. */
module Pagination {
  import opened Wrappers

  /** One rendered entry: a page button or the `'...'` separator. */
  datatype Item = Page(n: int) | Ellipsis

  const MaxVisible: int := 7
  const HalfVisible: int := MaxVisible / 2

  function Max(a: int, b: int): int { if a >= b then a else b }
  function Min(a: int, b: int): int { if a <= b then a else b }

  /** Page buttons `a`, `a + 1`, ..., `b` (none when `a > b`). */
  function PageRange(a: int, b: int): (r: seq<Item>)
    ensures |r| == if a <= b then b - a + 1 else 0
    ensures forall i :: 0 <= i < |r| ==> r[i] == Page(a + i)
    decreases b - a
  {
    if a > b then [] else [Page(a)] + PageRange(a + 1, b)
  }

  /** First page of the middle window once both edge corrections have run. */
  function WindowStart(total: int, page: int): int {
    if page + HalfVisible >= total then total - (MaxVisible - 2)
    else Max(2, page - HalfVisible)
  }

  /** Last page of the middle window once both edge corrections have run. */
  function WindowEnd(total: int, page: int): int {
    if page - HalfVisible <= 1 then MaxVisible - 1
    else Min(total - 1, page + HalfVisible)
  }

  /** Page 1, an optional separator, pages `s..e`, an optional separator, page `total`. */
  function Layout(total: int, s: int, e: int): seq<Item> {
    [Page(1)]
    + (if s > 2 then [Ellipsis] else [])
    + PageRange(s, e)
    + (if e < total - 1 then [Ellipsis] else [])
    + [Page(total)]
  }

  /** `getPages`: every page when there are at most seven, otherwise the first
      and last page around a window near the current page. A non-positive
      `total` gives no pages, as `Array.from` does for such a length. */
  function GetPages(total: int, page: int): (r: seq<Item>)
    ensures total < 1 ==> r == []
    ensures total >= 1 ==> |r| >= 1 && r[0] == Page(1) && r[|r| - 1] == Page(total)
    ensures |r| <= MaxVisible + 4
  {
    if total <= MaxVisible then PageRange(1, total)
    else Layout(total, WindowStart(total, page), WindowEnd(total, page))
  }

  /** The source's counting loop `for (let i = a; i <= b; i++) pages.push(i)`. */
  method PushRange(prefix: seq<Item>, a: int, b: int) returns (pages: seq<Item>)
    ensures pages == prefix + PageRange(a, b)
  {
    pages := prefix;
    var i := a;
    while i <= b
      invariant a <= i <= Max(a, b + 1)
      invariant pages == prefix + PageRange(a, i - 1)
    {
      PageRangeSnoc(a, i - 1);
      pages := pages + [Page(i)];
      i := i + 1;
    }
  }

  /** `getPages` as the source writes it: pushes onto a list, with the window
      corrected at either edge before it is filled. */
  method BuildPages(total: int, page: int) returns (pages: seq<Item>)
    ensures pages == GetPages(total, page)
  {
    if total <= MaxVisible {
      pages := PushRange([], 1, total);
      return;
    }
    pages := [Page(1)];
    var startPage := Max(2, page - HalfVisible);
    var endPage := Min(total - 1, page + HalfVisible);
    if page - HalfVisible <= 1 {
      endPage := MaxVisible - 1;
    }
    if page + HalfVisible >= total {
      startPage := total - (MaxVisible - 2);
    }
    assert startPage == WindowStart(total, page);
    assert endPage == WindowEnd(total, page);
    ghost var head := [Page(1)] + (if startPage > 2 then [Ellipsis] else []);
    if startPage > 2 {
      pages := pages + [Ellipsis];
    }
    assert pages == head;
    pages := PushRange(pages, startPage, endPage);
    ghost var body := head + PageRange(startPage, endPage);
    assert pages == body;
    if endPage < total - 1 {
      pages := pages + [Ellipsis];
    }
    assert pages == body + (if endPage < total - 1 then [Ellipsis] else []);
    pages := pages + [Page(total)];
    assert pages == Layout(total, startPage, endPage);
  }

  /** Appending the next page to a range extends the range. */
  lemma PageRangeSnoc(a: int, b: int)
    requires a <= b + 1
    ensures PageRange(a, b + 1) == PageRange(a, b) + [Page(b + 1)]
  {
    var l, r := PageRange(a, b + 1), PageRange(a, b) + [Page(b + 1)];
    assert |l| == |r|;
    forall i | 0 <= i < |l| ensures l[i] == r[i] {
    }
  }

  // ---------------------------------------------------------------------------
  // Shape predicates
  // ---------------------------------------------------------------------------

  /** Two neighbouring page buttons are consecutive page numbers. */
  ghost predicate ConsecutiveNeighbours(r: seq<Item>) {
    forall i :: 0 <= i < |r| - 1 && r[i].Page? && r[i + 1].Page? ==> r[i + 1].n == r[i].n + 1
  }

  /** A separator is never first or last, sits between two page buttons, and
      hides at least one page. */
  ghost predicate EllipsesFlanked(r: seq<Item>) {
    forall i :: 0 <= i < |r| && r[i].Ellipsis? ==>
      && 0 < i < |r| - 1
      && r[i - 1].Page? && r[i + 1].Page?
      && r[i + 1].n >= r[i - 1].n + 2
  }

  ghost predicate StrictlyIncreasing(r: seq<Item>) {
    forall i, j :: 0 <= i < j < |r| && r[i].Page? && r[j].Page? ==> r[i].n < r[j].n
  }

  ghost predicate PagesWithin(r: seq<Item>, total: int) {
    forall i :: 0 <= i < |r| && r[i].Page? ==> 1 <= r[i].n <= total
  }

  /** Page `p` has a button. */
  ghost predicate Shows(r: seq<Item>, p: int) {
    exists i :: 0 <= i < |r| && r[i] == Page(p)
  }

  /** Page `p` lies strictly between the two neighbours of a separator. */
  ghost predicate Hides(r: seq<Item>, p: int) {
    exists i :: 0 < i < |r| - 1 && r[i].Ellipsis? && r[i - 1].Page? && r[i + 1].Page?
      && r[i - 1].n < p < r[i + 1].n
  }

  function EllipsisCount(r: seq<Item>): nat {
    if |r| == 0 then 0 else (if r[0].Ellipsis? then 1 else 0) + EllipsisCount(r[1..])
  }

  // ---------------------------------------------------------------------------
  // Generic consequences of the local shape
  // ---------------------------------------------------------------------------

  lemma {:induction false} EllipsisCountAppend(a: seq<Item>, b: seq<Item>)
    ensures EllipsisCount(a + b) == EllipsisCount(a) + EllipsisCount(b)
  {
    if |a| > 0 {
      assert (a + b)[1..] == a[1..] + b;
      EllipsisCountAppend(a[1..], b);
    } else {
      assert a + b == b;
    }
  }

  lemma {:induction false} EllipsisCountRange(a: int, b: int)
    ensures EllipsisCount(PageRange(a, b)) == 0
    decreases b - a
  {
    if a <= b {
      EllipsisCountRange(a + 1, b);
      assert PageRange(a, b)[1..] == PageRange(a + 1, b);
    }
  }

  lemma {:induction false} StepUp(r: seq<Item>, i: int, j: int)
    requires ConsecutiveNeighbours(r) && EllipsesFlanked(r)
    requires 0 <= i < j < |r| && r[i].Page? && r[j].Page?
    ensures r[i].n < r[j].n
    decreases j - i
  {
    if r[j - 1].Page? {
      if i < j - 1 {
        StepUp(r, i, j - 1);
      }
    } else {
      assert r[j - 2].Page? && r[j].n >= r[j - 2].n + 2;
      if i < j - 2 {
        StepUp(r, i, j - 2);
      }
    }
  }

  /** Local steps of +1 and flanked separators make the page numbers strictly increase. */
  lemma IncreasingFromSteps(r: seq<Item>)
    requires ConsecutiveNeighbours(r) && EllipsesFlanked(r)
    ensures StrictlyIncreasing(r)
  {
    forall i, j | 0 <= i < j < |r| && r[i].Page? && r[j].Page?
      ensures r[i].n < r[j].n
    {
      StepUp(r, i, j);
    }
  }

  lemma {:induction false} CoverUpTo(r: seq<Item>, k: int, p: int)
    requires ConsecutiveNeighbours(r) && EllipsesFlanked(r)
    requires 0 <= k < |r| && r[0].Page? && r[k].Page?
    requires r[0].n <= p <= r[k].n
    ensures Shows(r, p) || Hides(r, p)
    decreases k
  {
    if p == r[k].n {
      assert r[k] == Page(p);
    } else if r[k - 1].Page? {
      CoverUpTo(r, k - 1, p);
    } else if p > r[k - 2].n {
      assert r[k - 1].Ellipsis? && r[k - 2].n < p < r[k].n;
    } else {
      CoverUpTo(r, k - 2, p);
    }
  }

  // ---------------------------------------------------------------------------
  // The layout used when there are more than seven pages
  // ---------------------------------------------------------------------------

  function Indicator(b: bool): int { if b then 1 else 0 }

  /** The entry at index `i` of `Layout(total, s, e)`, read off its five parts. */
  function LayoutItem(total: int, s: int, e: int, i: int): Item {
    var a := Indicator(s > 2);
    var w := e - s + 1;
    if i == 0 then Page(1)
    else if i < 1 + a then Ellipsis
    else if i < 1 + a + w then Page(s + i - 1 - a)
    else if i < 1 + a + w + Indicator(e < total - 1) then Ellipsis
    else Page(total)
  }

  lemma LayoutLength(total: int, s: int, e: int)
    requires 2 <= s <= e <= total - 1
    ensures |Layout(total, s, e)| == 2 + Indicator(s > 2) + Indicator(e < total - 1) + (e - s + 1)
  {
  }

  lemma LayoutAt(total: int, s: int, e: int, i: int)
    requires 2 <= s <= e <= total - 1
    requires 0 <= i < |Layout(total, s, e)|
    ensures Layout(total, s, e)[i] == LayoutItem(total, s, e, i)
  {
    var a := Indicator(s > 2);
    var w := e - s + 1;
    var pre := [Page(1)] + (if s > 2 then [Ellipsis] else []);
    var mid := PageRange(s, e);
    var post := (if e < total - 1 then [Ellipsis] else []) + [Page(total)];
    assert Layout(total, s, e) == pre + mid + post;
    assert |pre| == 1 + a;
    if i < 1 + a {
    } else if i < 1 + a + w {
      assert (pre + mid + post)[i] == mid[i - 1 - a];
    } else {
      assert (pre + mid + post)[i] == post[i - 1 - a - w];
    }
  }

  lemma LayoutConsecutive(total: int, s: int, e: int)
    requires 2 <= s <= e <= total - 1
    ensures ConsecutiveNeighbours(Layout(total, s, e))
  {
    var r := Layout(total, s, e);
    LayoutLength(total, s, e);
    forall i | 0 <= i < |r| - 1 && r[i].Page? && r[i + 1].Page?
      ensures r[i + 1].n == r[i].n + 1
    {
      LayoutAt(total, s, e, i);
      LayoutAt(total, s, e, i + 1);
    }
  }

  lemma LayoutFlanked(total: int, s: int, e: int)
    requires 2 <= s <= e <= total - 1
    ensures EllipsesFlanked(Layout(total, s, e))
  {
    var r := Layout(total, s, e);
    LayoutLength(total, s, e);
    forall i | 0 <= i < |r| && r[i].Ellipsis?
      ensures 0 < i < |r| - 1 && r[i - 1].Page? && r[i + 1].Page? && r[i + 1].n >= r[i - 1].n + 2
    {
      LayoutAt(total, s, e, i);
      assert 0 < i < |r| - 1;
      LayoutAt(total, s, e, i - 1);
      LayoutAt(total, s, e, i + 1);
    }
  }

  lemma LayoutEllipsisCount(total: int, s: int, e: int)
    requires 2 <= s <= e <= total - 1
    ensures EllipsisCount(Layout(total, s, e)) == Indicator(s > 2) + Indicator(e < total - 1)
  {
    var p1 := [Page(1)];
    var e1: seq<Item> := if s > 2 then [Ellipsis] else [];
    var mid := PageRange(s, e);
    var e2: seq<Item> := if e < total - 1 then [Ellipsis] else [];
    var pn := [Page(total)];
    assert Layout(total, s, e) == (((p1 + e1) + mid) + e2) + pn;
    EllipsisCountAppend(((p1 + e1) + mid) + e2, pn);
    EllipsisCountAppend((p1 + e1) + mid, e2);
    EllipsisCountAppend(p1 + e1, mid);
    EllipsisCountAppend(p1, e1);
    EllipsisCountRange(s, e);
  }

  /** Exactly page 1, page `total` and the window `s..e` have buttons. */
  lemma LayoutShows(total: int, s: int, e: int, p: int)
    requires 2 <= s <= e <= total - 1
    ensures Shows(Layout(total, s, e), p) <==> p == 1 || p == total || s <= p <= e
  {
    var r := Layout(total, s, e);
    var a := Indicator(s > 2);
    LayoutLength(total, s, e);
    if p == 1 || p == total || s <= p <= e {
      var i := if p == 1 then 0 else if p == total then |r| - 1 else 1 + a + (p - s);
      LayoutAt(total, s, e, i);
      assert r[i] == Page(p);
    }
    if Shows(r, p) {
      var i :| 0 <= i < |r| && r[i] == Page(p);
      LayoutAt(total, s, e, i);
    }
  }

  /** The window bounds when there are more than seven pages. */
  lemma WindowBounds(total: int, page: int)
    requires 1 <= page <= total && total > MaxVisible
    ensures var s := WindowStart(total, page);
      var e := WindowEnd(total, page);
      && 2 <= s <= e <= total - 1
      && s <= Max(2, page - 2)
      && e >= Min(total - 1, page + 2)
      && e - s + 1 <= MaxVisible
      && (s > 2 <==> page > 5 || page >= total - 3)
      && (e < total - 1 <==> page <= 4 || page < total - 4)
  {
  }

  // ---------------------------------------------------------------------------
  // Properties of getPages
  // ---------------------------------------------------------------------------

  /** At most seven pages: exactly the pages `1..total`, no separator,
      wherever the current page is. */
  lemma SmallTotalListsEveryPage(total: int, page: int)
    requires 0 <= total <= MaxVisible
    ensures |GetPages(total, page)| == total
    ensures forall i :: 0 <= i < total ==> GetPages(total, page)[i] == Page(i + 1)
    ensures EllipsisCount(GetPages(total, page)) == 0
  {
    EllipsisCountRange(1, total);
  }

  /** More than seven pages: page 1 comes first and page `total` last, with
      between eight and eleven entries. */
  lemma {:induction false} FirstAndLastPage(total: int, page: int)
    requires 1 <= page <= total && total > MaxVisible
    ensures var r := GetPages(total, page);
      && 8 <= |r| <= 11
      && r[0] == Page(1)
      && r[|r| - 1] == Page(total)
  {
    var s, e := WindowStart(total, page), WindowEnd(total, page);
    WindowBounds(total, page);
    LayoutLength(total, s, e);
    LayoutAt(total, s, e, 0);
    LayoutAt(total, s, e, |Layout(total, s, e)| - 1);
  }

  /** The separator rules and the +1 step between neighbouring buttons. */
  lemma {:induction false} EllipsisRules(total: int, page: int)
    requires 1 <= page <= total
    ensures var r := GetPages(total, page);
      && ConsecutiveNeighbours(r)
      && EllipsesFlanked(r)
      && EllipsisCount(r) <= 2
  {
    if total > MaxVisible {
      var s, e := WindowStart(total, page), WindowEnd(total, page);
      WindowBounds(total, page);
      LayoutConsecutive(total, s, e);
      LayoutFlanked(total, s, e);
      LayoutEllipsisCount(total, s, e);
    } else {
      EllipsisCountRange(1, total);
    }
  }

  /** How many separators there are: one before the window unless it touches
      page 2, one after it unless it touches page `total - 1`. */
  lemma {:induction false} EllipsisCountExact(total: int, page: int)
    requires 1 <= page <= total
    ensures total <= MaxVisible ==> EllipsisCount(GetPages(total, page)) == 0
    ensures total > MaxVisible ==>
      EllipsisCount(GetPages(total, page)) == Indicator(page > 5 || page >= total - 3) + Indicator(page <= 4 || page < total - 4)
  {
    if total > MaxVisible {
      WindowBounds(total, page);
      LayoutEllipsisCount(total, WindowStart(total, page), WindowEnd(total, page));
    } else {
      EllipsisCountRange(1, total);
    }
  }

  /** Twenty pages with page ten current: a separator on each side. */
  lemma TwoEllipsesInTheMiddle()
    ensures EllipsisCount(GetPages(20, 10)) == 2
  {
    EllipsisCountExact(20, 10);
  }

  /** Page numbers strictly increase and stay within `1..total`. */
  lemma {:induction false} PagesOrderedAndInRange(total: int, page: int)
    requires 1 <= page <= total
    ensures StrictlyIncreasing(GetPages(total, page))
    ensures PagesWithin(GetPages(total, page), total)
  {
    var r := GetPages(total, page);
    EllipsisRules(total, page);
    IncreasingFromSteps(r);
    if total > MaxVisible {
      FirstAndLastPage(total, page);
      forall i | 0 <= i < |r| && r[i].Page?
        ensures 1 <= r[i].n <= total
      {
        if i > 0 { assert r[0].n < r[i].n; }
        if i < |r| - 1 { assert r[i].n < r[|r| - 1].n; }
      }
    }
  }

  /** The current page and its two neighbours on each side always have a button. */
  lemma {:induction false} NeighboursShown(total: int, page: int, p: int)
    requires 1 <= page <= total
    requires 1 <= p <= total && page - 2 <= p <= page + 2
    ensures Shows(GetPages(total, page), p)
  {
    var r := GetPages(total, page);
    if total > MaxVisible {
      WindowBounds(total, page);
      LayoutShows(total, WindowStart(total, page), WindowEnd(total, page), p);
    } else {
      assert r[p - 1] == Page(p);
    }
  }

  /** No page is lost: every page in `1..total` has a button or lies under a separator. */
  lemma {:induction false} NoPageLost(total: int, page: int, p: int)
    requires 1 <= page <= total
    requires 1 <= p <= total
    ensures Shows(GetPages(total, page), p) || Hides(GetPages(total, page), p)
  {
    var r := GetPages(total, page);
    EllipsisRules(total, page);
    if total > MaxVisible {
      FirstAndLastPage(total, page);
      CoverUpTo(r, |r| - 1, p);
    } else {
      assert r[p - 1] == Page(p);
    }
  }

  // ---------------------------------------------------------------------------
  // The current-page marker, page changes and the controls
  // ---------------------------------------------------------------------------

  /** A button gets the `cta` variant and `aria-current="page"` iff it is the current page. */
  predicate IsCurrent(item: Item, page: int) {
    item.Page? && item.n == page
  }

  /** The current page has exactly one button, and it is the only one marked current. */
  lemma {:induction false} CurrentPageShownOnce(total: int, page: int)
    requires 1 <= page <= total
    ensures var r := GetPages(total, page);
      && (exists i :: 0 <= i < |r| && IsCurrent(r[i], page))
      && (forall i, j :: 0 <= i < |r| && 0 <= j < |r| && IsCurrent(r[i], page) && IsCurrent(r[j], page) ==> i == j)
  {
    var r := GetPages(total, page);
    NeighboursShown(total, page, page);
    PagesOrderedAndInRange(total, page);
    var k :| 0 <= k < |r| && r[k] == Page(page);
    assert IsCurrent(r[k], page);
  }

  /** `handlePageChange`: the page passed to `onChange`, if it is called at all. */
  function HandlePageChange(total: int, newPage: int, hasOnChange: bool): (emitted: Option<int>)
    ensures emitted.Some? <==> hasOnChange && 1 <= newPage <= total
    ensures emitted.Some? ==> emitted.value == newPage
  {
    if newPage >= 1 && newPage <= total && hasOnChange then Some(newPage) else None
  }

  predicate PreviousDisabled(page: int) { page == 1 }
  predicate NextDisabled(total: int, page: int) { page == total }

  /** The previous control is disabled exactly when its press would be dropped,
      and likewise the next control; an enabled control moves by one page. */
  lemma ControlsAgreeWithHandler(total: int, page: int)
    requires 1 <= page <= total
    ensures PreviousDisabled(page) <==> HandlePageChange(total, page - 1, true).None?
    ensures NextDisabled(total, page) <==> HandlePageChange(total, page + 1, true).None?
    ensures !PreviousDisabled(page) ==> HandlePageChange(total, page - 1, true) == Some(page - 1)
    ensures !NextDisabled(total, page) ==> HandlePageChange(total, page + 1, true) == Some(page + 1)
  {
  }

  /** Pressing any rendered page button reaches `onChange` with that page. */
  lemma {:induction false} PageButtonsAlwaysEmit(total: int, page: int, i: int)
    requires 1 <= page <= total
    requires 0 <= i < |GetPages(total, page)| && GetPages(total, page)[i].Page?
    ensures HandlePageChange(total, GetPages(total, page)[i].n, true) == Some(GetPages(total, page)[i].n)
  {
    PagesOrderedAndInRange(total, page);
  }
}
