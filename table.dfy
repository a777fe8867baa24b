/** The table view model the three viewers share: the sort toggle, paging, the five-button page
    window, the case-insensitive search over the visible columns, and the per-viewer control state
    (current page, page size, search term, sort). */
module Table {
  import opened Base
  import opened JsStrings
  import opened JsValues
  import opened Ordering

  function Min(a: int, b: int): int { if a < b then a else b }
  function Max(a: int, b: int): int { if a < b then b else a }

  /** `sortConfig`: the sorted column (`null` for none) and the direction. */
  datatype SortConfig = SortConfig(key: Option<string>, dir: Direction)

  /** `if (sortConfig.key)`: a sort is applied only for a truthy key, so neither `null` nor a
      column named `""` (a trailing comma in the CSV header) sorts. */
  predicate HasSortKey(cfg: SortConfig) {
    cfg.key.Some? && cfg.key.value != ""
  }

  /** `requestSort(key)`: the column becomes `key`; the direction is `desc` exactly when `key`
      was already sorted ascending, and `asc` from every other state. */
  function RequestSort(cfg: SortConfig, key: string): (r: SortConfig)
    ensures r.key == Some(key)
    ensures r.dir == Desc <==> cfg == SortConfig(Some(key), Asc)
  {
    if cfg.key == Some(key) && cfg.dir == Asc then SortConfig(Some(key), Desc)
    else SortConfig(Some(key), Asc)
  }

  /** Clicking the same header keeps alternating: the third click gives what the first gave. */
  lemma RequestSortAlternates(cfg: SortConfig, key: string)
    ensures RequestSort(cfg, key).dir != RequestSort(RequestSort(cfg, key), key).dir
    ensures RequestSort(RequestSort(RequestSort(cfg, key), key), key) == RequestSort(cfg, key)
  {
  }

  /** `Math.ceil(n / perPage)`. */
  function TotalPages(n: nat, perPage: nat): (r: nat)
    requires perPage > 0
    ensures n <= r * perPage
    ensures r > 0 ==> (r - 1) * perPage < n
    ensures r == 0 <==> n == 0
  {
    var q := (n + perPage - 1) / perPage;
    var m := (n + perPage - 1) % perPage;
    assert n + perPage - 1 == q * perPage + m;
    assert q * perPage - perPage == (q - 1) * perPage;
    q
  }

  /** The index `Array.prototype.slice` uses for a bound `i` on a sequence of length `n`:
      negative bounds count from the end, and both ends are clamped. */
  function SliceIndex(i: int, n: nat): (r: nat)
    ensures r <= n
    ensures 0 <= i <= n ==> r == i
  {
    if i < 0 then (if n + i < 0 then 0 else n + i) else if i > n then n else i
  }

  /** `s.slice(start, end)`. */
  function Slice<T>(s: seq<T>, start: int, end: int): seq<T> {
    var a := SliceIndex(start, |s|);
    var b := SliceIndex(end, |s|);
    if a < b then s[a..b] else []
  }

  /** A slice is never longer than the distance between its bounds. */
  lemma SliceLength<T>(s: seq<T>, start: int, k: nat)
    ensures |Slice(s, start, start + k)| <= k
  {
  }

  lemma MulMonotone(a: int, b: int, c: nat)
    requires a <= b
    ensures a * c <= b * c
  {
  }

  lemma MulCancel(a: int, b: int, c: nat)
    requires a * c < b * c
    ensures a < b
  {
    if a >= b {
      MulMonotone(b, a, c);
    }
  }

  /** `processedData.slice((page - 1) * perPage, (page - 1) * perPage + perPage)`: at most
      `perPage` rows, and for a page from 1 on the rows from `(page - 1) * perPage` on. */
  function Page<T>(s: seq<T>, page: int, perPage: nat): (r: seq<T>)
    ensures |r| <= perPage
    ensures page >= 1 ==> var start := (page - 1) * perPage;
      start >= 0 && r == s[Min(start, |s|)..Min(start + perPage, |s|)]
  {
    var start := (page - 1) * perPage;
    SliceLength(s, start, perPage);
    if page >= 1 then MulMonotone(0, page - 1, perPage); Slice(s, start, start + perPage)
    else Slice(s, start, start + perPage)
  }

  /** Position `m` of a slice from `start` is row `start + m`. */
  lemma SliceFrom<T>(s: seq<T>, start: int, k: nat, m: nat)
    requires 0 <= start && m < k && start + m < |s|
    ensures var p := Slice(s, start, start + k); m < |p| && p[m] == s[start + m]
  {
  }

  /** Position `m` of page `q + 1` is row `q * perPage + m`. */
  lemma PageAt<T>(s: seq<T>, q: nat, perPage: nat, m: nat)
    requires m < perPage && q * perPage + m < |s|
    ensures var p := Page(s, q + 1, perPage); m < |p| && p[m] == s[q * perPage + m]
  {
    var start := q * perPage;
    MulMonotone(0, q, perPage);
    SliceFrom(s, start, perPage, m);
    assert (q + 1 - 1) * perPage == start;
    assert Page(s, q + 1, perPage) == Slice(s, start, start + perPage);
  }

  /** Euclidean division of a natural number. */
  lemma DivMod(i: nat, n: nat)
    requires n > 0
    ensures i == (i / n) * n + i % n && 0 <= i % n < n
  {
  }

  /** Every row is on exactly the page its index says, at the position its index says, and that
      page is one of the `TotalPages` pages. */
  lemma PageIndex<T>(s: seq<T>, i: nat, perPage: nat)
    requires perPage > 0 && i < |s|
    ensures 1 <= i / perPage + 1 <= TotalPages(|s|, perPage)
    ensures var p := Page(s, i / perPage + 1, perPage); i % perPage < |p| && p[i % perPage] == s[i]
  {
    var q := i / perPage;
    var m := i % perPage;
    DivMod(i, perPage);
    MulCancel(q, TotalPages(|s|, perPage), perPage);
    PageAt(s, q, perPage, m);
  }

  /** Pages past the last are empty. */
  lemma PageBeyondLast<T>(s: seq<T>, page: int, perPage: nat)
    requires perPage > 0 && page > TotalPages(|s|, perPage)
    ensures Page(s, page, perPage) == []
  {
    MulMonotone(TotalPages(|s|, perPage), page - 1, perPage);
  }

  /** Every page before the last is full. */
  lemma PageBeforeLast<T>(s: seq<T>, page: int, perPage: nat)
    requires perPage > 0 && 1 <= page < TotalPages(|s|, perPage)
    ensures |Page(s, page, perPage)| == perPage
  {
    var t := TotalPages(|s|, perPage);
    MulMonotone(page, t - 1, perPage);
    assert (page - 1) * perPage + perPage == page * perPage;
  }

  /** "Previous": disabled on page 1, otherwise `Math.max(page - 1, 1)`. */
  function PrevPage(page: int): int {
    if page == 1 then page else Max(page - 1, 1)
  }

  /** "Next" as written: disabled only when `page === totalPages`, otherwise
      `Math.min(page + 1, totalPages)`. */
  function NextPage(page: int, total: nat): int {
    if page == total then page else Min(page + 1, total)
  }

  /** On a table with at least one page, both buttons keep the page in `[1, totalPages]`. */
  lemma PrevNextInRange(page: int, total: nat)
    requires 1 <= page <= total
    ensures 1 <= PrevPage(page) <= total && PrevPage(page) <= page
    ensures 1 <= NextPage(page, total) <= total && NextPage(page, total) >= page
    ensures page < total ==> NextPage(page, total) == page + 1
  {
  }

  /** On an empty table "Next" is enabled (page 1 is not `totalPages` 0) and moves to page 0. */
  lemma NextOnEmptyTable()
    ensures NextPage(1, 0) == 0
  {
  }

  /** "Next" disabled from the last page on, and on an empty table. */
  function NextPageFixed(page: int, total: nat): (r: int)
    ensures 1 <= page <= Max(1, total) ==> 1 <= r <= Max(1, total)
    ensures 1 <= page < total ==> r == page + 1
    ensures page >= total ==> r == page
  {
    if page >= total then page else page + 1
  }

  /** The two agree whenever the page is in range on a non-empty table. */
  lemma NextPageFixedAgrees(page: int, total: nat)
    requires 1 <= page <= total
    ensures NextPageFixed(page, total) == NextPage(page, total)
  {
  }

  /** The `i`-th page button, as written: `i + 1`, or once past page 3 of more than five pages
      `currentPage - 3 + i`, replaced by `totalPages - (4 - i)` when that runs past the end. */
  function PageButton(current: int, total: nat, i: nat): int {
    if total > 5 && current > 3 then
      (if current - 3 + i > total then total - (4 - i) else current - 3 + i)
    else i + 1
  }

  /** The page window: `min(5, totalPages)` buttons, each a page in `[1, totalPages]`; it contains
      the current page whenever that is in range. */
  function PageWindow(current: int, total: nat): (r: seq<int>)
    ensures |r| == Min(5, total)
    ensures forall i :: 0 <= i < |r| ==> 1 <= r[i] <= total
    ensures 1 <= current <= total ==> current in r
  {
    var r := seq(Min(5, total), (i: int) requires 0 <= i => PageButton(current, total, i));
    if 1 <= current <= total then
      if total > 5 && current > 3 then
        assert r[3] == current;
        r
      else
        assert r[current - 1] == current;
        r
    else r
  }

  /** On the last of more than five pages the window shows the last page twice. */
  lemma PageWindowRepeatsLast(total: nat)
    requires total > 5
    ensures PageWindow(total, total)[3] == PageWindow(total, total)[4] == total
  {
  }

  lemma PageWindowSixOfSix()
    ensures PageWindow(6, 6) == [3, 4, 5, 6, 6]
  {
    PageWindowRepeatsLast(6);
  }

  /** The first page of the window: the current page is the fourth button, but the window never
      reaches past the last page. */
  function WindowStart(current: int, total: nat): int {
    if total > 5 && current > 3 then Min(current - 3, total - 4) else 1
  }

  /** The window with the last-page case handled: consecutive (hence distinct) pages in
      `[1, totalPages]`, containing the current page whenever that is in range. */
  function PageWindowFixed(current: int, total: nat): (r: seq<int>)
    ensures |r| == Min(5, total)
    ensures forall i :: 0 <= i < |r| ==> 1 <= r[i] <= total
    ensures forall i :: 0 < i < |r| ==> r[i] == r[i - 1] + 1
    ensures forall i, j :: 0 <= i < j < |r| ==> r[i] < r[j]
    ensures 1 <= current <= total ==> current in r
  {
    var start := WindowStart(current, total);
    var r := seq(Min(5, total), (i: int) requires 0 <= i => start + i);
    if 1 <= current <= total then
      assert r[current - start] == current;
      r
    else r
  }

  /** The written window is the fixed one everywhere except on the last page. */
  lemma PageWindowFixedAgrees(current: int, total: nat)
    requires 1 <= current < total
    ensures PageWindow(current, total) == PageWindowFixed(current, total)
  {
  }

  /** One visible cell, stringified and lowercased, contains the lowercased term. */
  predicate CellHit(row: Row, header: string, lowerTerm: string) {
    Contains(ToLower(StringOf(Get(row, header))), lowerTerm)
  }

  /** `headers.some(h => String(row[h]).toLowerCase().includes(lowerTerm))`. */
  predicate RowHit(row: Row, headers: seq<string>, lowerTerm: string) {
    exists i :: 0 <= i < |headers| && CellHit(row, headers[i], lowerTerm)
  }

  function HitFilter(headers: seq<string>, lowerTerm: string): Row -> bool {
    (row: Row) => RowHit(row, headers, lowerTerm)
  }

  /** The search step of the comparison and dataset viewers: with a term, keep the rows some
      visible column of which contains it, ignoring case; without one, keep every row. */
  function SearchRows(rows: seq<Row>, headers: seq<string>, term: string): (r: seq<Row>)
    ensures |r| <= |rows|
    ensures term == "" ==> r == rows
    ensures forall row :: row in r <==> row in rows && (term == "" || RowHit(row, headers, ToLower(term)))
  {
    if term == "" then rows else Filter(rows, HitFilter(headers, ToLower(term)))
  }

  /** Each kept row is kept as often as it occurs. */
  lemma SearchRowsCount(rows: seq<Row>, headers: seq<string>, term: string, row: Row)
    ensures multiset(SearchRows(rows, headers, term))[row]
      == if term == "" || RowHit(row, headers, ToLower(term)) then multiset(rows)[row] else 0
  {
    if term != "" {
      FilterCount(rows, HitFilter(headers, ToLower(term)), row);
    }
  }

  /** Searching a concatenation searches each part: the kept rows stay in their order. */
  lemma SearchRowsAppend(a: seq<Row>, b: seq<Row>, headers: seq<string>, term: string)
    ensures SearchRows(a + b, headers, term) == SearchRows(a, headers, term) + SearchRows(b, headers, term)
  {
    if term != "" {
      FilterAppend(a, b, HitFilter(headers, ToLower(term)));
    }
  }

  /** The paging, search and sort state of one viewer (`currentPage`, `itemsPerPage`,
      `searchTerm`, `sortConfig`). */
  class Controls {
    var page: int
    var perPage: nat
    var searchTerm: string
    var sort: SortConfig

    /** The page size is positive, as every option of the page-size menu is. */
    predicate Valid()
      reads this
    {
      perPage > 0
    }

    constructor(perPage: nat, sort: SortConfig)
      requires perPage > 0
      ensures Valid()
      ensures this.page == 1 && this.perPage == perPage && this.searchTerm == "" && this.sort == sort
    {
      this.page := 1;
      this.perPage := perPage;
      this.searchTerm := "";
      this.sort := sort;
    }

    /** The rows the current page shows. */
    function CurrentRows<T>(rows: seq<T>): seq<T>
      reads this
    {
      Page(rows, page, perPage)
    }

    /** Typing in the search box sets the term and goes back to page 1. */
    method SetSearch(term: string)
      requires Valid()
      modifies this
      ensures Valid()
      ensures searchTerm == term && page == 1
      ensures perPage == old(perPage) && sort == old(sort)
    {
      searchTerm := term;
      page := 1;
    }

    /** Choosing a page size (10, 25 or 50 in the menu) goes back to page 1. */
    method SetPerPage(n: nat)
      requires n == 10 || n == 25 || n == 50
      requires Valid()
      modifies this
      ensures Valid()
      ensures perPage == n && page == 1
      ensures searchTerm == old(searchTerm) && sort == old(sort)
    {
      perPage := n;
      page := 1;
    }

    /** Clicking a column header; the page is left as it was. */
    method ClickHeader(key: string)
      requires Valid()
      modifies this
      ensures Valid()
      ensures sort == RequestSort(old(sort), key)
      ensures page == old(page) && perPage == old(perPage) && searchTerm == old(searchTerm)
    {
      sort := RequestSort(sort, key);
    }

    method Previous()
      requires Valid()
      modifies this
      ensures Valid()
      ensures page == PrevPage(old(page))
      ensures perPage == old(perPage) && searchTerm == old(searchTerm) && sort == old(sort)
    {
      if page != 1 {
        page := Max(page - 1, 1);
      }
    }

    /** "Next", disabled from the last page on (and so on an empty table): a page in range stays
        in range. It agrees with the written button on every page of a non-empty table. */
    method Next(totalPages: nat)
      requires Valid()
      modifies this
      ensures Valid()
      ensures page == NextPageFixed(old(page), totalPages)
      ensures 1 <= old(page) <= Max(1, totalPages) ==> 1 <= page <= Max(1, totalPages)
      ensures perPage == old(perPage) && searchTerm == old(searchTerm) && sort == old(sort)
    {
      if page < totalPages {
        page := page + 1;
      }
    }

    /** Clicking a button of the page window. */
    method GoTo(p: int)
      requires Valid()
      modifies this
      ensures Valid()
      ensures page == p
      ensures perPage == old(perPage) && searchTerm == old(searchTerm) && sort == old(sort)
    {
      page := p;
    }
  }
}
