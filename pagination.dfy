/**
 * The pager of the proofreading tab: 20 sentences per page, pages numbered
 * from 1, and the slice of the query's rows each page shows.
 */
module Pagination {

  const ItemsPerPage := 20

  /** `total_rows // 20`, plus one for a partly filled last page: the fewest pages that hold `n` rows. */
  function TotalPages(n: nat): (p: nat)
    ensures n <= p * ItemsPerPage
    ensures p == 0 || (p - 1) * ItemsPerPage < n
  {
    n / ItemsPerPage + (if n % ItemsPerPage > 0 then 1 else 0)
  }

  /** The bounds `[start_idx, end_idx)` of page `page`, which the page input keeps between 1 and the page count. */
  function PageRange(page: nat, n: nat): (r: (nat, nat))
    requires 1 <= page <= TotalPages(n)
    ensures r.0 == (page - 1) * ItemsPerPage
    ensures r.0 < r.1 <= n && r.1 - r.0 <= ItemsPerPage
    ensures page < TotalPages(n) ==> r.1 == r.0 + ItemsPerPage
    ensures page == TotalPages(n) ==> r.1 == n
  {
    var start := (page - 1) * ItemsPerPage;
    (start, if start + ItemsPerPage <= n then start + ItemsPerPage else n)
  }

  /** `df.iloc[start_idx:end_idx]`. */
  function PageRows<T>(xs: seq<T>, page: nat): (r: seq<T>)
    requires 1 <= page <= TotalPages(|xs|)
    ensures |r| == PageRange(page, |xs|).1 - PageRange(page, |xs|).0
  {
    xs[PageRange(page, |xs|).0..PageRange(page, |xs|).1]
  }

  /** Row `k` lies on page `k / 20 + 1` and on no other. */
  lemma PageOfRow(k: nat, n: nat, page: nat)
    requires k < n && 1 <= page <= TotalPages(n)
    ensures 1 <= k / ItemsPerPage + 1 <= TotalPages(n)
    ensures PageRange(page, n).0 <= k < PageRange(page, n).1 <==> page == k / ItemsPerPage + 1
  {
    var (s, e) := PageRange(page, n);
    assert k / ItemsPerPage * ItemsPerPage <= k < (k / ItemsPerPage + 1) * ItemsPerPage;
    if s <= k < e {
      assert (page - 1) * ItemsPerPage <= k < page * ItemsPerPage;
      assert page - 1 == k / ItemsPerPage;
    }
  }

  /** Every row of the query is shown: row `k` is entry `k % 20` of its page. */
  lemma RowOnItsPage<T>(xs: seq<T>, k: nat)
    requires k < |xs|
    ensures 1 <= k / ItemsPerPage + 1 <= TotalPages(|xs|)
    ensures k % ItemsPerPage < |PageRows(xs, k / ItemsPerPage + 1)|
    ensures PageRows(xs, k / ItemsPerPage + 1)[k % ItemsPerPage] == xs[k]
  {
    PageOfRow(k, |xs|, k / ItemsPerPage + 1);
  }
}
