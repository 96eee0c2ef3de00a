/** The pagination control of `Pagination.tsx`: the page-number strip `generatePageNumbers`
    (all pages up to seven, otherwise seven slots with ellipses), the previous/next guards, and
    the "showing X-Y" item range. */
module Pagination {
  import opened Base

  /** An entry of the page strip: a page button or the '...' marker. */
  datatype PageItem = Page(n: int) | Ellipsis

  /** `Array.from({ length: total }, (_, i) => i + 1)`: a negative length counts as zero. */
  function AllPages(total: int): (r: seq<PageItem>)
    ensures |r| == if total > 0 then total else 0
    ensures forall i :: 0 <= i < |r| ==> r[i] == Page(i + 1)
  {
    if total <= 0 then [] else AllPages(total - 1) + [Page(total)]
  }

  /** `generatePageNumbers(current, total)`. */
  function PageNumbers(current: int, total: int): (r: seq<PageItem>)
    ensures |r| == if total > 7 then 7 else if total > 0 then total else 0
  {
    if total <= 7 then AllPages(total)
    else if current <= 4 then [Page(1), Page(2), Page(3), Page(4), Page(5), Ellipsis, Page(total)]
    else if current >= total - 3 then
      [Page(1), Ellipsis, Page(total - 4), Page(total - 3), Page(total - 2), Page(total - 1), Page(total)]
    else [Page(1), Ellipsis, Page(current - 1), Page(current), Page(current + 1), Ellipsis, Page(total)]
  }

  /** Up to seven pages every page is shown, in order; no pages means an empty strip. */
  lemma SmallTotals(current: int, total: int)
    requires total <= 7
    ensures |PageNumbers(current, total)| == if total > 0 then total else 0
    ensures forall i :: 0 <= i < |PageNumbers(current, total)| ==> PageNumbers(current, total)[i] == Page(i + 1)
    ensures total <= 0 ==> PageNumbers(current, total) == []
  {
  }

  /** Beyond seven pages the strip has seven slots, from page 1 to the last page. */
  lemma LargeTotals(current: int, total: int)
    requires total > 7
    ensures |PageNumbers(current, total)| == 7
    ensures PageNumbers(current, total)[0] == Page(1) && PageNumbers(current, total)[6] == Page(total)
  {
  }

  /** The three windows: near the start, near the end, and around the current page. */
  lemma Windows(current: int, total: int)
    requires total > 7
    ensures current <= 4 ==>
      PageNumbers(current, total)[..5] == [Page(1), Page(2), Page(3), Page(4), Page(5)]
      && PageNumbers(current, total)[5] == Ellipsis
    ensures 4 < current && current >= total - 3 ==>
      PageNumbers(current, total)[1] == Ellipsis
      && forall i :: 2 <= i < 7 ==> PageNumbers(current, total)[i] == Page(total - 6 + i)
    ensures 4 < current < total - 3 ==>
      PageNumbers(current, total)[1] == Ellipsis && PageNumbers(current, total)[5] == Ellipsis
      && forall i :: 2 <= i < 5 ==> PageNumbers(current, total)[i] == Page(current - 3 + i)
  {
  }

  /** The page numbers shown rise strictly and lie between 1 and the total. */
  predicate Increasing(r: seq<PageItem>, total: int)
  {
    (forall i :: 0 <= i < |r| && r[i].Page? ==> 1 <= r[i].n <= total)
    && forall i, j :: 0 <= i < j < |r| && r[i].Page? && r[j].Page? ==> r[i].n < r[j].n
  }

  /** Pages next to each other are consecutive, and an ellipsis sits between two pages and
      stands for at least one page left out. */
  predicate GapsMarked(r: seq<PageItem>)
  {
    (|r| > 0 ==> r[0].Page? && r[|r| - 1].Page?)
    && (forall i :: 0 <= i < |r| - 1 && r[i].Page? && r[i + 1].Page? ==> r[i + 1].n == r[i].n + 1)
    && forall i :: 0 < i < |r| - 1 && r[i].Ellipsis? ==>
      r[i - 1].Page? && r[i + 1].Page? && r[i + 1].n > r[i - 1].n + 1
  }

  lemma {:induction false} AllPagesShape(total: int)
    ensures Increasing(AllPages(total), total) && GapsMarked(AllPages(total))
  {
  }

  /** Every strip is increasing, marks its gaps, and shows the current page when it exists. */
  lemma {:induction false} StripShape(current: int, total: int)
    ensures Increasing(PageNumbers(current, total), total)
    ensures GapsMarked(PageNumbers(current, total))
    ensures 1 <= current <= total ==> Page(current) in PageNumbers(current, total)
  {
    var r := PageNumbers(current, total);
    if total <= 7 {
      AllPagesShape(total);
      if 1 <= current <= total {
        assert r[current - 1] == Page(current);
      }
    } else if current <= 4 {
      StartShape(total);
      if 1 <= current {
        assert r[current - 1] == Page(current);
      }
    } else if current >= total - 3 {
      EndShape(total);
      if current <= total {
        assert r[current - total + 6] == Page(current);
      }
    } else {
      MiddleShape(current, total);
      assert r[3] == Page(current);
    }
  }

  lemma StartShape(total: int)
    requires total > 7
    ensures var r := [Page(1), Page(2), Page(3), Page(4), Page(5), Ellipsis, Page(total)];
      Increasing(r, total) && GapsMarked(r)
  {
  }

  lemma EndShape(total: int)
    requires total > 7
    ensures var r := [Page(1), Ellipsis, Page(total - 4), Page(total - 3), Page(total - 2), Page(total - 1), Page(total)];
      Increasing(r, total) && GapsMarked(r)
  {
  }

  lemma MiddleShape(current: int, total: int)
    requires 4 < current < total - 3
    ensures var r := [Page(1), Ellipsis, Page(current - 1), Page(current), Page(current + 1), Ellipsis, Page(total)];
      Increasing(r, total) && GapsMarked(r)
  {
  }

  /** Every page from 1 to the total is either shown or hidden behind an ellipsis. */
  lemma {:induction false} EveryPageAccountedFor(current: int, total: int, p: int)
    requires 1 <= p <= total
    ensures var r := PageNumbers(current, total);
      Page(p) in r || exists i :: 0 < i < |r| - 1 && r[i].Ellipsis? && r[i - 1].n < p < r[i + 1].n
  {
    var r := PageNumbers(current, total);
    if total <= 7 {
      assert r[p - 1] == Page(p);
    } else if current <= 4 {
      if p <= 5 {
        assert r[p - 1] == Page(p);
      } else if p == total {
        assert r[6] == Page(p);
      } else {
        assert r[5].Ellipsis? && r[4].n < p < r[6].n;
      }
    } else if current >= total - 3 {
      if p >= total - 4 {
        assert r[p - total + 6] == Page(p);
      } else if p == 1 {
        assert r[0] == Page(p);
      } else {
        assert r[1].Ellipsis? && r[0].n < p < r[2].n;
      }
    } else {
      if p == 1 {
        assert r[0] == Page(p);
      } else if p < current - 1 {
        assert r[1].Ellipsis? && r[0].n < p < r[2].n;
      } else if p <= current + 1 {
        assert r[p - current + 3] == Page(p);
      } else if p < total {
        assert r[5].Ellipsis? && r[4].n < p < r[6].n;
      } else {
        assert r[6] == Page(p);
      }
    }
  }

  // ---- Navigation and the item range ----

  /** `canGoPrevious = page > 1`. */
  predicate CanGoPrevious(page: int) { page > 1 }

  /** `canGoNext = page < totalPages`. */
  predicate CanGoNext(page: int, totalPages: int) { page < totalPages }

  /** On a valid page, the previous and next buttons are enabled exactly when the page they
      lead to exists. */
  lemma NavigationStaysInRange(page: int, totalPages: int)
    requires 1 <= page <= totalPages
    ensures CanGoPrevious(page) <==> 1 <= page - 1 <= totalPages
    ensures CanGoNext(page, totalPages) <==> 1 <= page + 1 <= totalPages
  {
  }

  /** The first item number shown: `Math.min((page - 1) * limit + 1, totalItems)`. */
  function RangeStart(page: int, limit: int, totalItems: int): (r: int)
    ensures r <= totalItems
  {
    Min((page - 1) * limit + 1, totalItems)
  }

  /** The last item number shown: `Math.min(page * limit, totalItems)`. */
  function RangeEnd(page: int, limit: int, totalItems: int): (r: int)
    ensures r <= totalItems
  {
    Min(page * limit, totalItems)
  }

  lemma PageOffset(page: nat, limit: nat)
    ensures (page - 1) * limit + limit == page * limit
  {
  }

  lemma OffsetMonotone(a: nat, b: nat, limit: nat)
    requires a <= b
    ensures a * limit <= b * limit
  {
  }

  /** On a page that has items, the range is the page's items: it starts after the earlier
      pages' items and holds at most `limit` of them, at least one. */
  lemma {:induction false} RangeIsThePage(page: nat, limit: nat, totalItems: nat)
    requires page >= 1 && limit >= 1 && (page - 1) * limit < totalItems
    ensures RangeStart(page, limit, totalItems) == (page - 1) * limit + 1
    ensures 1 <= RangeEnd(page, limit, totalItems) - RangeStart(page, limit, totalItems) + 1 <= limit
    ensures RangeEnd(page, limit, totalItems) <= totalItems
  {
    PageOffset(page, limit);
  }

  /** Consecutive pages show adjacent ranges: the next page starts right after this one ends. */
  lemma {:induction false} RangesTile(page: nat, limit: nat, totalItems: nat)
    requires page >= 1 && page * limit < totalItems
    ensures RangeStart(page + 1, limit, totalItems) == RangeEnd(page, limit, totalItems) + 1
  {
    PageOffset(page + 1, limit);
  }

  /** With no items both ends read 0. */
  lemma EmptyRange(page: int, limit: int)
    requires page >= 1 && limit >= 1
    ensures RangeStart(page, limit, 0) == 0 && RangeEnd(page, limit, 0) == 0
  {
    OffsetMonotone(0, page - 1, limit);
    OffsetMonotone(0, page, limit);
  }
}
