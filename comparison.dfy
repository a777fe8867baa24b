/** The KP comparison view: every governor of the latest scan is kept, given its KP increase over
    the initial scan (0 as the initial value when it has no initial row), ranked by that increase,
    then searched, sorted and paged. Its matcher differs from the DKP tracker's on purpose: `||`
    chains decide the aliases, ids compare as strings with nothing trimmed, and names compare
    without trimming. */
module Comparison {
  import opened Base
  import opened JsStrings
  import opened JsValues
  import opened Numbers
  import opened Ordering
  import opened Table

  const IdChain: seq<string> := ["governor_id", "id", "ID"]
  const NameChain: seq<string> := ["govExact_name", "name", "Name", "governor_name"]

  /** The KP aliases of this view: those of the tracker without `Total Kill Points`. */
  const KpKeys: seq<string> := ["total_kp", "Total KP", "KP", "kp", "Kill Points"]

  const IncreaseKey := "_kp_increase"
  const RankKey := "dkp_rank"

  /** `gov['governor_id'] || gov['id'] || gov['ID']`. */
  function IdOf(row: Row): Val { OrChain(row, IdChain) }

  /** `gov['govExact_name'] || gov['name'] || gov['Name'] || gov['governor_name']`. */
  function NameOf(row: Row): Val { OrChain(row, NameChain) }

  /** When an initial row counts as the same governor as `gov`: by `String` equality of the id
      chains when `gov`'s is truthy (and then only by id), otherwise by case-insensitive equality of
      the name chains when `gov`'s is truthy, otherwise never. */
  function MatchesFn(gov: Row): Row -> bool {
    var id := IdOf(gov);
    var name := NameOf(gov);
    if Truthy(id) then (row: Row) => StringOf(IdOf(row)) == StringOf(id)
    else if Truthy(name) then (row: Row) => ToLower(StringOf(NameOf(row))) == ToLower(StringOf(name))
    else (row: Row) => false
  }

  predicate Matches(gov: Row, row: Row) {
    MatchesFn(gov)(row)
  }

  /** `findInit(gov)`: the first initial row that matches `gov`, if any. */
  function FindInit(gov: Row, init: seq<Row>): (r: Option<Row>)
    ensures r.None? <==> forall j :: 0 <= j < |init| ==> !Matches(gov, init[j])
    ensures r.Some? ==> exists k :: (0 <= k < |init| && init[k] == r.value && Matches(gov, init[k])
      && forall j :: 0 <= j < k ==> !Matches(gov, init[j]))
  {
    Find(init, MatchesFn(gov))
  }

  /** A truthy id that no initial row carries gives no match, whatever the names say. */
  lemma FindInitNoNameFallback(gov: Row, init: seq<Row>)
    requires Truthy(IdOf(gov))
    requires forall j :: 0 <= j < |init| ==> StringOf(IdOf(init[j])) != StringOf(IdOf(gov))
    ensures FindInit(gov, init) == None
  {
  }

  /** A row whose id and name chains are both falsy matches nothing. */
  lemma FindInitAnonymous(gov: Row, init: seq<Row>)
    requires !Truthy(IdOf(gov)) && !Truthy(NameOf(gov))
    ensures FindInit(gov, init) == None
  {
  }

  /** `getKp(row)` with the `parse` normaliser; a missing row reads as 0. */
  function GetKp(row: Option<Row>): (r: int)
    ensures row.None? ==> r == 0
    ensures row.Some? ==> r == GetValue(row.value, KpKeys)
  {
    GetLoose(row, KpKeys)
  }

  /** The KP increase a row carries (always a number once `WithDiff` has set it). */
  function Increase(row: Row): int {
    match Get(row, IncreaseKey)
    case Num(n) => n
    case _ => 0
  }

  /** `{ ...gov, _kp_increase: curKp - initKp }`: the latest row with its increase added, the
      initial KP being 0 when there is no initial row. */
  function WithDiff(gov: Row, init: seq<Row>): (r: Row)
    ensures Get(r, IncreaseKey) == Num(GetKp(Some(gov)) - GetKp(FindInit(gov, init)))
    ensures forall k :: k != IncreaseKey ==> Get(r, k) == Get(gov, k)
  {
    gov[IncreaseKey := Num(GetKp(Some(gov)) - GetKp(FindInit(gov, init)))]
  }

  /** `latestData.map(...)`: one row per latest row, in order. */
  function WithDiffs(latest: seq<Row>, init: seq<Row>): (r: seq<Row>)
    ensures |r| == |latest|
    ensures forall i :: 0 <= i < |latest| ==> r[i] == WithDiff(latest[i], init)
  {
    seq(|latest|, (i: int) requires 0 <= i < |latest| => WithDiff(latest[i], init))
  }

  /** `(a, b) => b._kp_increase - a._kp_increase`: larger increases first. */
  function IncreaseDesc(): (Row, Row) -> int {
    (a: Row, b: Row) => Increase(b) - Increase(a)
  }

  lemma IncreaseDescStrict(s: seq<Row>)
    ensures StrictOn(IncreaseDesc(), s)
  {
  }

  /** Rows with equal increases keep their order in the latest scan, so among tied rows the earlier
      one gets the smaller `dkp_rank`. */
  lemma IncreaseSortStable(rows: seq<Row>, n: int)
    ensures Filter(SortWith(rows, IncreaseDesc()), KeyIs(Increase, n)) == Filter(rows, KeyIs(Increase, n))
  {
    IncreaseDescStrict(rows);
    SortStable(rows, IncreaseDesc(), Increase, n);
  }

  /** `withDiffs.map((gov, index) => ({ ...gov, dkp_rank: index + 1 }))`. */
  function AssignRanks(sorted: seq<Row>): (r: seq<Row>)
    ensures |r| == |sorted|
    ensures forall k :: 0 <= k < |r| ==> Get(r[k], RankKey) == Num(k + 1)
    ensures forall k, key :: 0 <= k < |r| && key != RankKey ==> Get(r[k], key) == Get(sorted[k], key)
  {
    seq(|sorted|, (k: int) requires 0 <= k < |sorted| => sorted[k][RankKey := Num(k + 1)])
  }

  /** Numbering rows sorted by increase keeps the increases non-increasing as the rank grows. */
  lemma AssignRanksMonotone(sorted: seq<Row>)
    requires SortedBy(sorted, IncreaseDesc())
    ensures forall i, j :: 0 <= i < j < |sorted| ==> Increase(AssignRanks(sorted)[i]) >= Increase(AssignRanks(sorted)[j])
  {
    var r := AssignRanks(sorted);
    forall i, j | 0 <= i < j < |sorted|
      ensures Increase(r[i]) >= Increase(r[j])
    {
      assert IncreaseDesc()(sorted[j], sorted[i]) >= 0;
      assert Get(r[i], IncreaseKey) == Get(sorted[i], IncreaseKey);
      assert Get(r[j], IncreaseKey) == Get(sorted[j], IncreaseKey);
    }
  }

  /** The `data` memo: sort the rows with their increases, largest first, then number them
      `dkp_rank = index + 1`. Every latest row yields exactly one output row: the rows numbered
      are a permutation of the rows with increases. */
  method ComparisonData(latest: seq<Row>, init: seq<Row>) returns (data: seq<Row>)
    ensures |data| == |latest|
    ensures forall k :: 0 <= k < |data| ==> Get(data[k], RankKey) == Num(k + 1)
    ensures forall i, j :: 0 <= i < j < |data| ==> Increase(data[i]) >= Increase(data[j])
    ensures multiset(SortWith(WithDiffs(latest, init), IncreaseDesc())) == multiset(WithDiffs(latest, init))
    ensures data == AssignRanks(SortWith(WithDiffs(latest, init), IncreaseDesc()))
  {
    var withDiffs := WithDiffs(latest, init);
    IncreaseDescStrict(withDiffs);
    SortSorted(withDiffs, IncreaseDesc());
    withDiffs := SortWith(withDiffs, IncreaseDesc());
    AssignRanksMonotone(withDiffs);
    data := AssignRanks(withDiffs);
  }

  /** ``['dkp_rank', ...column_headers.filter(...)]``: the rank column, then the scan's columns in
      their order, without those whose lower-case form is `id` or `governor_name`. */
  predicate Shown(h: string) {
    ToLower(h) != "id" && ToLower(h) != "governor_name"
  }

  function ShownFilter(): string -> bool { (h: string) => Shown(h) }

  function VisibleHeaders(columns: seq<string>): (r: seq<string>)
    ensures |r| >= 1 && r[0] == RankKey
    ensures forall h :: h in r[1..] <==> h in columns && Shown(h)
  {
    var r := [RankKey] + Filter(columns, ShownFilter());
    assert r[1..] == Filter(columns, ShownFilter());
    r
  }

  /** The shown columns keep their order and multiplicity: the headers of two column lists are the
      headers of each. */
  lemma VisibleHeadersAppend(a: seq<string>, b: seq<string>)
    ensures VisibleHeaders(a + b) == VisibleHeaders(a) + VisibleHeaders(b)[1..]
  {
    FilterAppend(a, b, ShownFilter());
    assert VisibleHeaders(b)[1..] == Filter(b, ShownFilter());
  }

  /** `parseVal`: a string that reads as a number (commas dropped) becomes that number, any other
      string its lower-case form; other values are left alone. */
  function ParseVal(v: Val): (r: Val)
    ensures !v.Str? ==> r == v
    ensures v.Str? ==> (r.Num? <==> ParseFloat(RemoveCommas(v.s)).Some?)
    ensures v.Str? && !r.Num? ==> r == Str(ToLower(v.s))
  {
    match v
    case Str(s) =>
      (match ParseFloat(RemoveCommas(s))
       case Some(n) => Num(n)
       case None => Str(ToLower(s)))
    case _ => v
  }

  /** Strings that read as numbers are ordered as those numbers, in either direction. */
  lemma NumericStringsCompareNumerically(a: string, b: string, dir: Direction)
    requires ParseFloat(RemoveCommas(a)).Some? && ParseFloat(RemoveCommas(b)).Some?
    ensures var x, y := ParseFloat(RemoveCommas(a)).value, ParseFloat(RemoveCommas(b)).value;
      Compare(ParseVal(Str(a)), ParseVal(Str(b)), dir) < 0 <==> if dir == Asc then x < y else y < x
  {
  }

  /** Strings that do not read as numbers are ordered by their lower-case forms. */
  lemma TextCompareIgnoresCase(a: string, b: string, dir: Direction)
    requires ParseFloat(RemoveCommas(a)).None? && ParseFloat(RemoveCommas(b)).None?
    ensures Compare(ParseVal(Str(a)), ParseVal(Str(b)), dir) < 0
      <==> if dir == Asc then StrLess(ToLower(a), ToLower(b)) else StrLess(ToLower(b), ToLower(a))
  {
  }

  /** A number and text that is not one are incomparable: neither goes before the other. */
  lemma NumberAndTextTie(a: string, b: string, dir: Direction)
    requires ParseFloat(RemoveCommas(a)).Some? && ParseFloat(RemoveCommas(b)).None?
    ensures Compare(ParseVal(Str(a)), ParseVal(Str(b)), dir) == 0
  {
  }

  /** The sort key of a row for a column. */
  function SortKey(key: string): Row -> Val {
    (row: Row) => ParseVal(Get(row, key))
  }

  /** The `processedData` memo: search the data over the visible headers, then sort a copy by the
      chosen column's parsed values when the sort key is truthy. */
  method ProcessComparison(data: seq<Row>, headers: seq<string>, term: string, cfg: SortConfig)
    returns (result: seq<Row>)
    ensures multiset(result) == multiset(SearchRows(data, headers, term))
    ensures !HasSortKey(cfg) ==> result == SearchRows(data, headers, term)
    ensures HasSortKey(cfg) ==> forall i, j :: (0 <= i < j < |result| ==>
      var a, b := ParseVal(Get(result[i], cfg.key.value)), ParseVal(Get(result[j], cfg.key.value));
      if cfg.dir == Asc then !JsLess(b, a) else !JsLess(a, b))
  {
    result := data;
    if term != "" {
      result := Filter(result, HitFilter(headers, ToLower(term)));
    }
    if HasSortKey(cfg) {
      SortByKey(result, SortKey(cfg.key.value), cfg.dir);
      result := SortWith(result, KeyCmp(SortKey(cfg.key.value), cfg.dir));
    }
  }

  /** The view's table state: ten rows a page and no sort at first. */
  method NewControls() returns (c: Controls)
    ensures fresh(c)
    ensures c.Valid()
    ensures c.page == 1 && c.perPage == 10 && c.searchTerm == "" && c.sort == SortConfig(None, Asc)
  {
    c := new Controls(10, SortConfig(None, Asc));
  }
}
