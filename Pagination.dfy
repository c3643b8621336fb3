/** The page-navigation strip of the client: the list of page buttons and `...` markers
    (the first page, a sliding window around the current page, the last page), the
    "showing X to Y" item range, and when the previous and next buttons are disabled. */
module Pagination {

  /** A page button or an ellipsis marker. */
  datatype Entry = Num(n: int) | Ellipsis

  const MaxPagesToShow := 5

  function Max(a: int, b: int): int {
    if a >= b then a else b
  }

  function Min(a: int, b: int): int {
    if a <= b then a else b
  }

  /** The buttons `lo` to `hi`, in order; none when `lo > hi`. */
  function Range(lo: int, hi: int): (r: seq<Entry>)
    ensures |r| == Max(hi - lo + 1, 0)
    ensures forall i :: 0 <= i < |r| ==> r[i] == Num(lo + i)
    decreases hi - lo
  {
    if lo > hi then [] else Range(lo, hi - 1) + [Num(hi)]
  }

  /** The first page of the sliding window, once moved for a current page near the end. */
  function WindowStart(currentPage: int, totalPages: int): int {
    if currentPage >= totalPages - 2 then Max(2, totalPages - (MaxPagesToShow - 2))
    else Max(2, currentPage - 1)
  }

  /** The last page of the sliding window, once moved for a current page near the start. */
  function WindowEnd(currentPage: int, totalPages: int): int {
    if currentPage <= 3 then Min(totalPages - 1, MaxPagesToShow - 1)
    else Min(totalPages - 1, currentPage + 1)
  }

  /** The entries of the strip: every page when there are at most five, otherwise the
      first page, an ellipsis if the window starts after page 2, the window, an ellipsis
      if it ends before the last page but one, and the last page. */
  function PageEntries(currentPage: int, totalPages: int): seq<Entry> {
    if totalPages <= MaxPagesToShow then Range(1, totalPages)
    else
      var start := WindowStart(currentPage, totalPages);
      var end := WindowEnd(currentPage, totalPages);
      [Num(1)]
      + (if start > 2 then [Ellipsis] else [])
      + Range(start, end)
      + (if end < totalPages - 1 then [Ellipsis] else [])
      + [Num(totalPages)]
  }

  /** The window as the component computes it: centred on the current page, then widened
      to four pages when the current page is near either end. */
  method VisibleRange(currentPage: int, totalPages: int) returns (startPage: int, endPage: int)
    ensures startPage == WindowStart(currentPage, totalPages)
    ensures endPage == WindowEnd(currentPage, totalPages)
  {
    startPage := Max(2, currentPage - 1);
    endPage := Min(totalPages - 1, currentPage + 1);
    if currentPage <= 3 {
      endPage := Min(totalPages - 1, MaxPagesToShow - 1);
    }
    if currentPage >= totalPages - 2 {
      startPage := Max(2, totalPages - (MaxPagesToShow - 2));
    }
  }

  /** One of the component's two loops: push the buttons `lo` to `hi` onto `pageNumbers`. */
  method PushPages(pageNumbers: seq<Entry>, lo: int, hi: int) returns (r: seq<Entry>)
    ensures r == pageNumbers + Range(lo, hi)
  {
    r := pageNumbers;
    var i := lo;
    while i <= hi
      invariant lo <= i <= Max(hi + 1, lo)
      invariant r == pageNumbers + Range(lo, i - 1)
    {
      r := r + [Num(i)];
      i := i + 1;
    }
  }

  /** The strip as the component builds it, pushing onto `pageNumbers`. */
  method PageNumbers(currentPage: int, totalPages: int) returns (pageNumbers: seq<Entry>)
    ensures pageNumbers == PageEntries(currentPage, totalPages)
  {
    pageNumbers := [];
    if totalPages <= MaxPagesToShow {
      pageNumbers := PushPages(pageNumbers, 1, totalPages);
    } else {
      pageNumbers := pageNumbers + [Num(1)];
      var startPage, endPage := VisibleRange(currentPage, totalPages);
      if startPage > 2 {
        pageNumbers := pageNumbers + [Ellipsis];
      }
      pageNumbers := PushPages(pageNumbers, startPage, endPage);
      if endPage < totalPages - 1 {
        pageNumbers := pageNumbers + [Ellipsis];
      }
      pageNumbers := pageNumbers + [Num(totalPages)];
    }
  }

  // ----- Properties of the page strip -----

  /** The number of page buttons among `e`. */
  function NumCount(e: seq<Entry>): nat {
    if e == [] then 0 else NumCount(e[..|e| - 1]) + (if e[|e| - 1].Num? then 1 else 0)
  }

  lemma {:induction false} NumCountConcat(a: seq<Entry>, b: seq<Entry>)
    ensures NumCount(a + b) == NumCount(a) + NumCount(b)
    decreases |b|
  {
    if b != [] {
      NumCountConcat(a, b[..|b| - 1]);
      assert (a + b)[..|a + b| - 1] == a + b[..|b| - 1];
    } else {
      assert a + b == a;
    }
  }

  lemma {:induction false} NumCountRange(lo: int, hi: int)
    ensures NumCount(Range(lo, hi)) == Max(hi - lo + 1, 0)
    decreases hi - lo
  {
    if lo <= hi {
      NumCountRange(lo, hi - 1);
      var r := Range(lo, hi);
      assert r[..|r| - 1] == Range(lo, hi - 1);
    }
  }

  /** With at most five pages, the strip is exactly pages 1 to `totalPages`, no ellipsis. */
  lemma FewPagesAllShown(currentPage: int, totalPages: int)
    requires totalPages <= MaxPagesToShow
    ensures var e := PageEntries(currentPage, totalPages);
      && |e| == Max(totalPages, 0)
      && forall i :: 0 <= i < |e| ==> e[i] == Num(i + 1)
  {
  }

  /** The window never leaves pages 2 to `totalPages - 1` and is never empty. */
  lemma WindowBounds(currentPage: int, totalPages: int)
    requires totalPages > MaxPagesToShow
    ensures 2 <= WindowStart(currentPage, totalPages) <= WindowEnd(currentPage, totalPages) <= totalPages - 1
    ensures WindowEnd(currentPage, totalPages) - WindowStart(currentPage, totalPages) <= 2
  {
  }

  /** With more than five pages, the strip opens with page 1 and closes with the last page;
      an ellipsis follows page 1 exactly when the window starts after page 2, and one
      precedes the last page exactly when the window ends before the page before it. */
  lemma ManyPagesShape(currentPage: int, totalPages: int)
    requires totalPages > MaxPagesToShow
    ensures var e := PageEntries(currentPage, totalPages);
      && |e| >= 4
      && e[0] == Num(1) && e[|e| - 1] == Num(totalPages)
      && (e[1] == Ellipsis <==> WindowStart(currentPage, totalPages) > 2)
      && (e[|e| - 2] == Ellipsis <==> WindowEnd(currentPage, totalPages) < totalPages - 1)
  {
    WindowBounds(currentPage, totalPages);
  }

  /** The page buttons rise strictly from left to right and stay within 1 to `totalPages`. */
  lemma PagesIncreasing(currentPage: int, totalPages: int)
    ensures var e := PageEntries(currentPage, totalPages);
      && (forall i :: 0 <= i < |e| && e[i].Num? ==> 1 <= e[i].n <= totalPages)
      && (forall i, j :: 0 <= i < j < |e| && e[i].Num? && e[j].Num? ==> e[i].n < e[j].n)
  {
    var e := PageEntries(currentPage, totalPages);
    if totalPages > MaxPagesToShow {
      var start := WindowStart(currentPage, totalPages);
      var end := WindowEnd(currentPage, totalPages);
      WindowBounds(currentPage, totalPages);
      var pre := [Num(1)] + (if start > 2 then [Ellipsis] else []);
      var mid := Range(start, end);
      var post := (if end < totalPages - 1 then [Ellipsis] else []) + [Num(totalPages)];
      assert e == pre + mid + post;
      forall i | 0 <= i < |e| && e[i].Num?
        ensures (i < |pre| ==> e[i].n == 1)
        ensures (|pre| <= i < |pre| + |mid| ==> e[i].n == start + i - |pre|)
        ensures (|pre| + |mid| <= i ==> e[i].n == totalPages)
      {
        if i < |pre| {
          assert e[i] == pre[i];
        } else if i < |pre| + |mid| {
          assert e[i] == mid[i - |pre|];
        } else {
          assert e[i] == post[i - |pre| - |mid|];
        }
      }
    }
  }

  /** At most five page buttons are shown, whatever the current page. */
  lemma AtMostFiveButtons(currentPage: int, totalPages: int)
    ensures NumCount(PageEntries(currentPage, totalPages)) <= MaxPagesToShow
  {
    if totalPages <= MaxPagesToShow {
      NumCountRange(1, totalPages);
    } else {
      var start := WindowStart(currentPage, totalPages);
      var end := WindowEnd(currentPage, totalPages);
      WindowBounds(currentPage, totalPages);
      var e1: seq<Entry> := if start > 2 then [Ellipsis] else [];
      var e2: seq<Entry> := if end < totalPages - 1 then [Ellipsis] else [];
      NumCountRange(start, end);
      NumCountParts(e1, Range(start, end), e2, totalPages);
    }
  }

  /** Counting the buttons of the strip part by part: the ellipsis parts hold none. */
  lemma NumCountParts(e1: seq<Entry>, mid: seq<Entry>, e2: seq<Entry>, last: int)
    requires e1 == [] || e1 == [Ellipsis]
    requires e2 == [] || e2 == [Ellipsis]
    ensures NumCount([Num(1)] + e1 + mid + e2 + [Num(last)]) == NumCount(mid) + 2
  {
    assert NumCount(e1) == 0 && NumCount(e2) == 0 && NumCount([Num(1)]) == 1 && NumCount([Num(last)]) == 1;
    NumCountConcat([Num(1)], e1);
    NumCountConcat([Num(1)] + e1, mid);
    NumCountConcat([Num(1)] + e1 + mid, e2);
    NumCountConcat([Num(1)] + e1 + mid + e2, [Num(last)]);
  }

  /** A valid current page always has its own button. */
  lemma CurrentPageShown(currentPage: int, totalPages: int)
    requires 1 <= currentPage <= totalPages
    ensures Num(currentPage) in PageEntries(currentPage, totalPages)
  {
    var e := PageEntries(currentPage, totalPages);
    if totalPages <= MaxPagesToShow {
      assert e[currentPage - 1] == Num(currentPage);
    } else {
      var start := WindowStart(currentPage, totalPages);
      var end := WindowEnd(currentPage, totalPages);
      WindowBounds(currentPage, totalPages);
      ManyPagesShape(currentPage, totalPages);
      if 1 < currentPage < totalPages {
        var pre := [Num(1)] + (if start > 2 then [Ellipsis] else []);
        var mid := Range(start, end);
        assert start <= currentPage <= end;
        assert e == pre + mid + ((if end < totalPages - 1 then [Ellipsis] else []) + [Num(totalPages)]);
        assert e[|pre| + currentPage - start] == mid[currentPage - start];
      }
    }
  }

  /** "Previous" is disabled on the first page. */
  predicate PreviousDisabled(currentPage: int) {
    currentPage == 1
  }

  /** "Next" is disabled on the last page. */
  predicate NextDisabled(currentPage: int, totalPages: int) {
    currentPage == totalPages
  }

  /** For a valid current page, "previous" is disabled exactly when the current page is the
      strip's first button, and "next" exactly when it is the strip's last button. */
  lemma DisabledAtEnds(currentPage: int, totalPages: int)
    requires 1 <= currentPage <= totalPages
    ensures var e := PageEntries(currentPage, totalPages);
      && (PreviousDisabled(currentPage) <==> e[0] == Num(currentPage))
      && (NextDisabled(currentPage, totalPages) <==> e[|e| - 1] == Num(currentPage))
  {
    if totalPages > MaxPagesToShow {
      ManyPagesShape(currentPage, totalPages);
    }
  }

  /** The number of the first item on the page: `(currentPage - 1) * itemsPerPage + 1`. */
  function StartItem(currentPage: int, itemsPerPage: int): int {
    (currentPage - 1) * itemsPerPage + 1
  }

  /** The number of the last item on the page, never past the last item. */
  function EndItem(currentPage: int, itemsPerPage: int, totalItems: int): (r: int)
    ensures r <= totalItems
    ensures r <= currentPage * itemsPerPage
    ensures r == totalItems || r == currentPage * itemsPerPage
  {
    Min(currentPage * itemsPerPage, totalItems)
  }
}
