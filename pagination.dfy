/** The pagination that Flask-SQLAlchemy's `paginate(page, per_page,
    error_out=False)` applies to an ordered query: LIMIT/OFFSET over the
    matches, a page count rounded up, and next/previous flags. With
    `error_out=False` a page below 1 becomes page 1 and a page size below 1
    becomes the library default of 20. */
module Pagination {
  import opened Sorting

  /** Page size used when the requested one is below 1. */
  const DEFAULT_PER_PAGE: nat := 20

  /** One page of an ordered result, with the library's bookkeeping. */
  datatype Page<T> = Page(
    items: seq<T>,
    page: nat,
    perPage: nat,
    total: nat,
    pages: nat,
    hasNext: bool,
    hasPrev: bool)

  function Min(a: nat, b: nat): nat
  {
    if a <= b then a else b
  }

  /** Number of pages needed for `total` rows, `perPage` to a page: the
      smallest `n` with `n * perPage >= total`. */
  function PageCount(total: nat, perPage: nat): (n: nat)
    requires perPage > 0
    ensures n * perPage >= total
    ensures n > 0 ==> (n - 1) * perPage < total
  {
    var n := (total + perPage - 1) / perPage;
    assert n * perPage + (total + perPage - 1) % perPage == total + perPage - 1;
    n
  }

  /** The page actually served for a requested page number. */
  function EffectivePage(page: int): nat
  {
    if page < 1 then 1 else page
  }

  /** The page size actually used for a requested page size. */
  function EffectivePerPage(perPage: int): nat
  {
    if perPage < 1 then DEFAULT_PER_PAGE else perPage
  }

  /** Number of rows before page `page`: the query's OFFSET. */
  function Offset(page: nat, perPage: nat): nat
    requires page >= 1
  {
    (page - 1) * perPage
  }

  /** Page `page` of `all`, `perPage` rows to a page. */
  function Paginate<T>(all: seq<T>, page: int, perPage: int): (p: Page<T>)
    ensures p.page == EffectivePage(page) && p.perPage == EffectivePerPage(perPage)
    ensures p.total == |all|
    ensures |p.items| <= p.perPage
    ensures |p.items| == if Offset(p.page, p.perPage) >= |all| then 0
                         else Min(p.perPage, |all| - Offset(p.page, p.perPage))
    ensures forall k :: 0 <= k < |p.items| ==> p.items[k] == all[Offset(p.page, p.perPage) + k]
    ensures p.hasPrev <==> p.page > 1
  {
    var pg := EffectivePage(page);
    var pp := EffectivePerPage(perPage);
    var offset := Offset(pg, pp);
    var lo := Min(offset, |all|);
    var hi := Min(offset + pp, |all|);
    var n := PageCount(|all|, pp);
    Page(all[lo..hi], pg, pp, |all|, n, pg < n, pg > 1)
  }

  /** A page holds rows of the sequence it was cut from. */
  lemma PageRowsFromSource<T>(all: seq<T>, page: int, perPage: int)
    ensures forall x :: x in Paginate(all, page, perPage).items ==> x in all
  {
    var p := Paginate(all, page, perPage);
    var off := Offset(p.page, p.perPage);
    forall x | x in p.items ensures x in all {
      var k :| 0 <= k < |p.items| && p.items[k] == x;
      assert all[off + k] == x;
    }
  }

  /** A page of a sorted sequence is sorted. */
  lemma PageOfSorted<T>(all: seq<T>, page: int, perPage: int, key: T -> int)
    requires SortedBy(all, key)
    ensures SortedBy(Paginate(all, page, perPage).items, key)
  {
    var p := Paginate(all, page, perPage);
    var off := Offset(p.page, p.perPage);
    var lo := Min(off, |all|);
    var hi := Min(off + p.perPage, |all|);
    assert p.items == all[lo..hi];
    SliceOfSorted(all, lo, hi, key);
  }

  lemma SliceOfSorted<T>(s: seq<T>, lo: nat, hi: nat, key: T -> int)
    requires lo <= hi <= |s| && SortedBy(s, key)
    ensures SortedBy(s[lo..hi], key)
  {
    forall i, j | 0 <= i < j < hi - lo ensures key(s[lo..hi][i]) <= key(s[lo..hi][j]) {
      assert s[lo..hi][i] == s[lo + i] && s[lo..hi][j] == s[lo + j];
    }
  }

  lemma MulMonotone(a: nat, b: nat, c: nat)
    requires a <= b
    ensures a * c <= b * c
  {
    assert b * c == a * c + (b - a) * c;
  }

  /** There is a next page exactly when the rows before the end of this page
      do not exhaust the matches. */
  lemma HasNextIff<T>(all: seq<T>, page: int, perPage: int)
    ensures var p := Paginate(all, page, perPage);
      p.hasNext <==> p.page * p.perPage < p.total
  {
    var p := Paginate(all, page, perPage);
    var pg, pp, n := p.page, p.perPage, p.pages;
    assert n == PageCount(|all|, pp);
    if pg < n {
      MulMonotone(pg, n - 1, pp);
      assert pg * pp <= (n - 1) * pp < |all|;
    } else {
      MulMonotone(n, pg, pp);
      assert pg * pp >= n * pp >= |all|;
    }
  }

  /** A page holds rows exactly when its number is within the page count;
      a page past the end is empty rather than an error. */
  lemma NonEmptyIff<T>(all: seq<T>, page: int, perPage: int)
    ensures var p := Paginate(all, page, perPage);
      p.items != [] <==> p.page <= p.pages
  {
    var p := Paginate(all, page, perPage);
    if p.page <= p.pages {
      MulMonotone(p.page - 1, p.pages - 1, p.perPage);
    } else {
      MulMonotone(p.pages, p.page - 1, p.perPage);
    }
  }

  /** Pages 1 to k, one after the other. */
  function FirstPages<T>(all: seq<T>, perPage: nat, k: nat): seq<T>
    requires perPage > 0
  {
    if k == 0 then [] else FirstPages(all, perPage, k - 1) + Paginate(all, k, perPage).items
  }

  lemma SliceConcat<T>(s: seq<T>, lo: nat, hi: nat)
    requires lo <= hi <= |s|
    ensures s[..lo] + s[lo..hi] == s[..hi]
  {
  }

  lemma MulPred(k: nat, perPage: nat)
    requires k >= 1
    ensures (k - 1) * perPage + perPage == k * perPage
  {
  }

  /** Page k is the slice between the first (k - 1) * perPage rows and the
      first k * perPage rows. */
  lemma PageIsSlice<T>(all: seq<T>, perPage: nat, k: nat)
    requires perPage > 0 && k >= 1
    ensures Min((k - 1) * perPage, |all|) <= Min(k * perPage, |all|)
    ensures Paginate(all, k, perPage).items == all[Min((k - 1) * perPage, |all|)..Min(k * perPage, |all|)]
  {
    MulPred(k, perPage);
    assert Offset(k, perPage) == (k - 1) * perPage;
  }

  /** Reading pages 1 to k in turn yields the first k * perPage rows. */
  lemma {:induction false} FirstPagesPrefix<T>(all: seq<T>, perPage: nat, k: nat)
    requires perPage > 0
    ensures FirstPages(all, perPage, k) == all[..Min(k * perPage, |all|)]
  {
    if k > 0 {
      FirstPagesPrefix(all, perPage, k - 1);
      PageIsSlice(all, perPage, k);
      var lo := Min((k - 1) * perPage, |all|);
      var hi := Min(k * perPage, |all|);
      assert FirstPages(all, perPage, k) == all[..lo] + all[lo..hi];
      SliceConcat(all, lo, hi);
    }
  }

  /** A row among pages 1 to k is on one of those pages. */
  lemma {:induction false} InFirstPages<T>(all: seq<T>, perPage: nat, k: nat, x: T)
    requires perPage > 0
    requires x in FirstPages(all, perPage, k)
    ensures exists j :: 1 <= j <= k && x in Paginate(all, j, perPage).items
  {
    if x !in Paginate(all, k, perPage).items {
      InFirstPages(all, perPage, k - 1, x);
    }
  }

  /** Paginating with the adjusted page size gives the same page as
      paginating with the requested one. */
  lemma PaginateEffective<T>(all: seq<T>, page: int, perPage: int)
    ensures Paginate(all, page, EffectivePerPage(perPage)) == Paginate(all, page, perPage)
  {
  }

  /** Every row is served on exactly one page: pages 1 to `pages`, read in
      order, are the whole ordered result. */
  lemma PagesCoverAll<T>(all: seq<T>, perPage: int)
    ensures FirstPages(all, EffectivePerPage(perPage), Paginate(all, 1, perPage).pages) == all
  {
    var n := Paginate(all, 1, perPage).pages;
    FirstPagesPrefix(all, EffectivePerPage(perPage), n);
  }

  /** Each row of the ordered result is on some page within the page count. */
  lemma ServedOnSomePage<T>(all: seq<T>, perPage: int, x: T)
    requires x in all
    ensures exists j :: 1 <= j <= Paginate(all, 1, perPage).pages && x in Paginate(all, j, perPage).items
  {
    var pp := EffectivePerPage(perPage);
    PagesCoverAll(all, perPage);
    InFirstPages(all, pp, Paginate(all, 1, perPage).pages, x);
    var j :| 1 <= j <= Paginate(all, 1, perPage).pages && x in Paginate(all, j, pp).items;
    PaginateEffective(all, j, perPage);
  }

  /** 25 rows, 10 to a page. */
  lemma TwentyFiveRowsTenPerPage<T>(all: seq<T>)
    requires |all| == 25
    ensures var p := Paginate(all, 1, 10);
      |p.items| == 10 && p.total == 25 && p.pages == 3 && p.hasNext && !p.hasPrev
    ensures var p := Paginate(all, 3, 10);
      |p.items| == 5 && p.total == 25 && p.pages == 3 && !p.hasNext && p.hasPrev
    ensures Paginate(all, 4, 10).items == []
  {
  }
}
