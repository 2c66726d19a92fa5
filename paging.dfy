/**
 * The pagination arithmetic the list endpoints share: `skip = (page - 1) * limit`,
 * `take: limit`, and `pages = Math.ceil(total / limit)` in the response.
 */
module Paging {
  import Enrichment

  /** The rows a query skips before the requested page. */
  function Skip(page: nat, limit: nat): (skip: nat)
    requires page >= 1
    ensures skip == (page - 1) * limit
  {
    (page - 1) * limit
  }

  /** `Math.ceil(total / limit)`: the number of pages needed to show `total` rows. */
  function PageCount(total: nat, limit: nat): (pages: nat)
    requires limit >= 1
    ensures pages * limit >= total
    ensures pages > 0 ==> (pages - 1) * limit < total
  {
    Enrichment.CeilDiv(total, limit)
  }

  /** `findMany({ skip, take: limit })` over the ordered result `rows`. */
  function Window<T>(rows: seq<T>, page: nat, limit: nat): (w: seq<T>)
    requires page >= 1
  {
    var skip := Skip(page, limit);
    if skip >= |rows| then []
    else if skip + limit >= |rows| then rows[skip..]
    else rows[skip..skip + limit]
  }

  /** The `pagination` object of a list response. */
  datatype Pagination = Pagination(page: nat, limit: nat, total: nat, pages: nat)

  function Paginate(page: nat, limit: nat, total: nat): (p: Pagination)
    requires limit >= 1
    ensures p.page == page && p.limit == limit && p.total == total
    ensures p.pages * limit >= total && (p.pages > 0 ==> (p.pages - 1) * limit < total)
  {
    Pagination(page, limit, total, PageCount(total, limit))
  }

  /** A page holds at most `limit` rows, taken in order from position `skip` on. */
  lemma WindowSpec<T>(rows: seq<T>, page: nat, limit: nat)
    requires page >= 1
    ensures |Window(rows, page, limit)| <= limit
    ensures forall j :: 0 <= j < |Window(rows, page, limit)| ==>
      Skip(page, limit) + j < |rows| && Window(rows, page, limit)[j] == rows[Skip(page, limit) + j]
  {
  }

  /** Row `i` is shown on page `i / limit + 1`, at position `i % limit`. */
  lemma WindowLocates<T>(rows: seq<T>, limit: nat, i: nat)
    requires limit >= 1 && i < |rows|
    ensures i % limit < |Window(rows, i / limit + 1, limit)|
    ensures Window(rows, i / limit + 1, limit)[i % limit] == rows[i]
  {
    var page := i / limit + 1;
    assert i == (i / limit) * limit + i % limit;
    assert Skip(page, limit) == (i / limit) * limit;
  }

  /** The pages numbered 1 to `pages` exactly are the non-empty ones. */
  lemma NonEmptyPages<T>(rows: seq<T>, page: nat, limit: nat)
    requires page >= 1 && limit >= 1
    ensures Window(rows, page, limit) != [] <==> page <= PageCount(|rows|, limit)
  {
    var pages := PageCount(|rows|, limit);
    var skip := Skip(page, limit);
    if page <= pages {
      MulMonotone(page - 1, pages - 1, limit);
    } else {
      MulMonotone(pages, page - 1, limit);
    }
  }

  lemma MulMonotone(a: nat, b: nat, c: nat)
    requires a <= b
    ensures a * c <= b * c
  {
  }

  /** The first `n` pages one after another. */
  function FirstPages<T>(rows: seq<T>, limit: nat, n: nat): seq<T> {
    if n == 0 then [] else FirstPages(rows, limit, n - 1) + Window(rows, n, limit)
  }

  function Min(a: nat, b: nat): nat {
    if a < b then a else b
  }

  /** Page `page` is the slice between the clamped positions `skip` and `skip + limit`. */
  lemma WindowIsSlice<T>(rows: seq<T>, page: nat, limit: nat)
    requires page >= 1
    ensures Min(Skip(page, limit), |rows|) <= Min(Skip(page, limit) + limit, |rows|)
    ensures Window(rows, page, limit) == rows[Min(Skip(page, limit), |rows|)..Min(Skip(page, limit) + limit, |rows|)]
  {
  }

  lemma SliceSplit<T>(rows: seq<T>, i: nat, j: nat)
    requires i <= j <= |rows|
    ensures rows[..j] == rows[..i] + rows[i..j]
  {
  }

  lemma NextSkip(n: nat, limit: nat)
    requires n >= 1
    ensures n * limit == Skip(n, limit) + limit
  {
  }

  /** The first `n` pages show the first `n * limit` rows, each once and in order. */
  lemma {:induction false} FirstPagesArePrefix<T>(rows: seq<T>, limit: nat, n: nat)
    ensures FirstPages(rows, limit, n) == rows[..Min(n * limit, |rows|)]
  {
    if n > 0 {
      FirstPagesArePrefix(rows, limit, n - 1);
      NextSkip(n, limit);
      WindowIsSlice(rows, n, limit);
      var skip := Skip(n, limit);
      SliceSplit(rows, Min(skip, |rows|), Min(skip + limit, |rows|));
    }
  }

  /** Walking through every page of the response shows every row exactly once, in order. */
  lemma AllPagesShowEverything<T>(rows: seq<T>, limit: nat)
    requires limit >= 1
    ensures FirstPages(rows, limit, PageCount(|rows|, limit)) == rows
  {
    FirstPagesArePrefix(rows, limit, PageCount(|rows|, limit));
  }
}
