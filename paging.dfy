/** Offset pagination as Kaminari's `page(n).per(m)` provides it to the two
    summary services: a page is a slice of an ordered collection and the
    metadata describes the whole collection. */
module Paging {
  import opened Presence

  /** `current_page`, `limit_value`, `next_page`, `prev_page`, `total_count`,
      `total_pages` of a paginated relation. */
  datatype PageInfo = PageInfo(
    currentPage: int,
    perPage: int,
    nextPage: Option<int>,
    prevPage: Option<int>,
    totalCount: nat,
    totalPages: nat)

  /** `total_pages`: the number of pages of `per` items needed for `count`
      items, i.e. the ceiling of count / per. */
  function TotalPages(count: nat, per: int): (r: nat)
    requires per >= 1
    ensures count <= r * per
    ensures r == 0 || (r - 1) * per < count
  {
    DivCeil(count, per);
    (count + per - 1) / per
  }

  lemma DivCeil(count: nat, per: int)
    requires per >= 1
    ensures var r := (count + per - 1) / per;
      r >= 0 && count <= r * per && (r == 0 || (r - 1) * per < count)
  {
    var r := (count + per - 1) / per;
    assert per * r <= count + per - 1 < per * r + per;
  }

  /** The items of page `page`: those at positions [(page-1)*per, page*per). */
  function Page<T>(s: seq<T>, page: int, per: int): (r: seq<T>)
    requires page >= 1 && per >= 1
    ensures (page - 1) * per >= |s| ==> r == []
    ensures (page - 1) * per < |s| ==>
      |r| == (if |s| < page * per then |s| - (page - 1) * per else per)
    ensures forall i :: 0 <= i < |r| ==> r[i] == s[(page - 1) * per + i]
  {
    PageBounds(page, per);
    Window(s, (page - 1) * per, per)
  }

  /** The up to `per` items starting at position `off`. */
  function Window<T>(s: seq<T>, off: nat, per: int): (r: seq<T>)
    requires per >= 1
    ensures off >= |s| ==> r == []
    ensures off < |s| ==> |r| == (if |s| < off + per then |s| - off else per)
    ensures forall i :: 0 <= i < |r| ==> r[i] == s[off + i]
  {
    if off >= |s| then [] else s[off .. if off + per < |s| then off + per else |s|]
  }

  lemma PageBounds(page: int, per: int)
    requires page >= 1 && per >= 1
    ensures 0 <= (page - 1) * per && (page - 1) * per + per == page * per
  {
  }

  /** The page metadata of a collection of `count` items. */
  function Paginate(count: nat, page: int, per: int): (p: PageInfo)
    requires page >= 1 && per >= 1
    ensures p.currentPage == page && p.perPage == per
    ensures p.totalCount == count && p.totalPages == TotalPages(count, per)
    ensures p.nextPage.Some? <==> page * per < count
    ensures p.nextPage.Some? ==> p.nextPage.value == page + 1
    ensures p.prevPage.Some? <==> page > 1 && (page - 1) * per < count
    ensures p.prevPage.Some? ==> p.prevPage.value == page - 1
  {
    var total := TotalPages(count, per);
    NextPageExists(count, page, per);
    assert page > 1 ==> (page <= total <==> (page - 1) * per < count) by {
      if page > 1 { NextPageExists(count, page - 1, per); }
    }
    PageInfo(page, per,
             if page < total then Some(page + 1) else None,
             if page > 1 && page <= total then Some(page - 1) else None,
             count, total)
  }

  /** `page(n)` with n as the request gives it: absent, zero or negative
      means the first page. */
  function PageNumber(requested: Option<int>): (n: int)
    ensures n >= 1
    ensures requested.Some? && requested.value >= 1 ==> n == requested.value
    ensures requested.None? || requested.value < 1 ==> n == 1
  {
    match requested
    case None => 1
    case Some(k) => if k < 1 then 1 else k
  }

  /** There is a page after `page` exactly when some item lies past it. */
  lemma {:induction false} NextPageExists(count: nat, page: int, per: int)
    requires page >= 1 && per >= 1
    ensures page < TotalPages(count, per) <==> page * per < count
  {
    var total := TotalPages(count, per);
    if page < total {
      MulMonotone(page, total - 1, per);
    } else {
      MulMonotone(total, page, per);
    }
  }

  lemma MulMonotone(a: int, b: int, c: int)
    requires a <= b && c >= 0
    ensures a * c <= b * c
  {
  }

  /** A page before the last one is full. */
  lemma {:induction false} PageIsFull<T>(s: seq<T>, page: int, per: int)
    requires page >= 1 && per >= 1 && page < TotalPages(|s|, per)
    ensures |Page(s, page, per)| == per
  {
    NextPageExists(|s|, page, per);
    assert (page - 1) * per < page * per;
  }

  /** Every item lies on exactly one page: item k is item k % per of page
      k / per + 1. */
  lemma {:induction false} ItemOnItsPage<T>(s: seq<T>, k: nat, per: int)
    requires k < |s| && per >= 1
    ensures var page := k / per + 1;
      k % per < |Page(s, page, per)| && Page(s, page, per)[k % per] == s[k]
  {
    var q, j := k / per, k % per;
    DivMod(k, per);
    AtOffset(s, q + 1, j, per);
  }

  lemma DivMod(k: nat, per: int)
    requires per >= 1
    ensures k == (k / per) * per + k % per && 0 <= k % per < per && k / per >= 0
  {
  }

  /** Item j of page n is the item at offset (n-1)*per + j. */
  lemma {:induction false} AtOffset<T>(s: seq<T>, page: int, j: int, per: int)
    requires page >= 1 && per >= 1 && 0 <= j < per && (page - 1) * per + j < |s|
    ensures j < |Page(s, page, per)| && Page(s, page, per)[j] == s[(page - 1) * per + j]
  {
    var off := (page - 1) * per;
    assert off + per == page * per;
  }

  /** Some page shows any given item. */
  lemma {:induction false} ItemOnSomePage<T>(s: seq<T>, e: T, per: int) returns (n: int)
    requires per >= 1 && e in s
    ensures n >= 1 && e in Page(s, n, per)
  {
    var k :| 0 <= k < |s| && s[k] == e;
    var q, j := k / per, k % per;
    DivMod(k, per);
    n := q + 1;
    AtOffset(s, n, j, per);
    assert (n - 1) * per + j == k;
  }

  /** 30 items, page 2 of 10: ten items, three pages, a previous and a next
      page; page 5, past the end, has neither. */
  lemma {:induction false} ThirtyItemsSecondPage<T>(s: seq<T>)
    requires |s| == 30
    ensures |Page(s, 2, 10)| == 10 && Page(s, 2, 10) == s[10..20]
    ensures Paginate(30, 2, 10) == PageInfo(2, 10, Some(3), Some(1), 30, 3)
    ensures Paginate(30, 5, 10) == PageInfo(5, 10, None, None, 30, 3)
  {
    assert TotalPages(30, 10) == 3;
  }
}
