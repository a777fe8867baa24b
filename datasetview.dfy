/** The single-scan view: the visible columns, search, the numeric-or-text column sort, paging and
    the power, KP and dead totals over the whole scan. */
module DatasetView {
  import opened Base
  import opened JsStrings
  import opened JsValues
  import opened Numbers
  import opened Ordering
  import opened Table

  /** Columns hidden from the table, in lower case. */
  const Excluded: seq<string> := ["id", "governor_name", "rss assistance", "rss gathered",
    "alliance helps", "rss_assistance", "rss_gathered", "alliance_helps"]

  predicate Shown(h: string) { ToLower(h) !in Excluded }

  function ShownFilter(): string -> bool { (h: string) => Shown(h) }

  /** `column_headers.filter(...)`: the scan's columns in their order, without the excluded ones
      (compared in lower case). */
  function VisibleHeaders(columns: seq<string>): (r: seq<string>)
    ensures |r| <= |columns|
    ensures forall h :: h in r <==> h in columns && ToLower(h) !in Excluded
  {
    Filter(columns, ShownFilter())
  }

  /** The visible columns keep their order: the headers of two column lists are the headers of
      each, one after the other. */
  lemma VisibleHeadersAppend(a: seq<string>, b: seq<string>)
    ensures VisibleHeaders(a + b) == VisibleHeaders(a) + VisibleHeaders(b)
  {
    FilterAppend(a, b, ShownFilter());
  }

  /** `!isNaN(parseFloat(String(v).replace(/,/g, '')))`. */
  predicate IsNumeric(v: Val) {
    ParseFloat(RemoveCommas(StringOf(v))).Some?
  }

  /** Every number is numeric and reads as itself. */
  lemma NumbersAreNumeric(n: int)
    ensures IsNumeric(Num(n)) && ParseFloat(RemoveCommas(StringOf(Num(n)))) == Some(n)
  {
    var s := IntToString(n);
    assert forall i :: 0 <= i < |s| ==> NotComma(s[i]) by {
      if n < 0 {
        assert forall i :: 1 <= i < |s| ==> s[i] == NatToString(-n)[i - 1];
      }
    }
    FilterAll(s, NotComma);
    ParseFloatIntToString(n);
  }

  /** A stand-in for `localeCompare`: a three-way comparison by character code. */
  function LocaleCompare(a: string, b: string): (r: int)
    ensures -1 <= r <= 1
    ensures r < 0 <==> StrLess(a, b)
    ensures r == 0 <==> a == b
    ensures r > 0 <==> StrLess(b, a)
  {
    StrLessIrreflexive(a);
    StrLessTotal(a, b);
    if StrLess(a, b) then
      (if StrLess(b, a) then StrLessTransitive(a, b, a); -1 else -1)
    else if a == b then 0
    else 1
  }

  /** The column comparator: two numeric cells by their numbers (`nA - nB`, or `nB - nA` for
      `desc`), anything else by `String(v)` through `localeCompare`, operands swapped for `desc`. */
  function CompareCells(a: Val, b: Val, dir: Direction): (r: int)
    ensures IsNumeric(a) && IsNumeric(b) ==>
      (r < 0 <==> if dir == Asc then ParseNumber(a) < ParseNumber(b) else ParseNumber(b) < ParseNumber(a))
    ensures !(IsNumeric(a) && IsNumeric(b)) ==>
      (r < 0 <==> if dir == Asc then StrLess(StringOf(a), StringOf(b)) else StrLess(StringOf(b), StringOf(a)))
    ensures r == 0 <==> if IsNumeric(a) && IsNumeric(b) then ParseNumber(a) == ParseNumber(b) else StringOf(a) == StringOf(b)
  {
    if IsNumeric(a) && IsNumeric(b) then
      var nA := ParseNumber(a);
      var nB := ParseNumber(b);
      if dir == Asc then nA - nB else nB - nA
    else if dir == Asc then LocaleCompare(StringOf(a), StringOf(b))
    else LocaleCompare(StringOf(b), StringOf(a))
  }

  /** `desc` is `asc` with the sign reversed. */
  lemma CompareCellsDesc(a: Val, b: Val)
    ensures CompareCells(a, b, Desc) == -CompareCells(a, b, Asc)
  {
    if !(IsNumeric(a) && IsNumeric(b)) {
      StrLessTotal(StringOf(a), StringOf(b));
    }
  }

  function RowCompare(key: string, dir: Direction): (Row, Row) -> int {
    (a: Row, b: Row) => CompareCells(Get(a, key), Get(b, key), dir)
  }

  /** On numeric cells the comparator is a strict order. */
  lemma NumericCellsStrict(x: Val, y: Val, z: Val, dir: Direction)
    requires IsNumeric(x) && IsNumeric(y) && IsNumeric(z)
    ensures CompareCells(x, x, dir) >= 0
    ensures CompareCells(x, y, dir) < 0 && CompareCells(y, z, dir) < 0 ==> CompareCells(x, z, dir) < 0
  {
  }

  /** On a column whose every cell is numeric the comparator is a strict order. */
  lemma RowCompareStrict(key: string, dir: Direction, rows: seq<Row>)
    requires forall row :: row in rows ==> IsNumeric(Get(row, key))
    ensures StrictOn(RowCompare(key, dir), rows)
  {
    forall a, b, c | a in rows && b in rows && c in rows
      ensures RowCompare(key, dir)(a, a) >= 0
      ensures RowCompare(key, dir)(a, b) < 0 && RowCompare(key, dir)(b, c) < 0 ==> RowCompare(key, dir)(a, c) < 0
    {
      NumericCellsStrict(Get(a, key), Get(b, key), Get(c, key), dir);
    }
  }

  /** A numeric cell that the comparator does not put before another is on the right side of it. */
  lemma NumericCellOrder(x: Val, y: Val, dir: Direction)
    requires IsNumeric(x) && IsNumeric(y) && CompareCells(x, y, dir) >= 0
    ensures dir == Asc ==> ParseNumber(y) <= ParseNumber(x)
    ensures dir == Desc ==> ParseNumber(y) >= ParseNumber(x)
  {
  }

  /** Cells of the column are in number order, ascending for `asc` and descending for `desc`. */
  predicate NumericallySorted(r: seq<Row>, key: string, dir: Direction) {
    forall i, j :: 0 <= i < j < |r| ==>
      if dir == Asc then ParseNumber(Get(r[i], key)) <= ParseNumber(Get(r[j], key))
      else ParseNumber(Get(r[i], key)) >= ParseNumber(Get(r[j], key))
  }

  /** Sorting a column whose every cell is numeric orders it by number: ascending for `asc`,
      descending for `desc`. */
  lemma NumericColumnSorted(rows: seq<Row>, key: string, dir: Direction)
    requires forall row :: row in rows ==> IsNumeric(Get(row, key))
    ensures NumericallySorted(SortWith(rows, RowCompare(key, dir)), key, dir)
  {
    RowCompareStrict(key, dir, rows);
    SortSorted(rows, RowCompare(key, dir));
    var r := SortWith(rows, RowCompare(key, dir));
    forall i, j | 0 <= i < j < |r|
      ensures if dir == Asc then ParseNumber(Get(r[i], key)) <= ParseNumber(Get(r[j], key))
        else ParseNumber(Get(r[i], key)) >= ParseNumber(Get(r[j], key))
    {
      assert r[i] in multiset(rows) && r[j] in multiset(rows);
      NumericCellOrder(Get(r[j], key), Get(r[i], key), dir);
      assert RowCompare(key, dir)(r[j], r[i]) >= 0;
    }
  }

  /** The `processedData` memo: search over the visible headers, then sort a copy by the chosen
      column when the sort key is truthy. */
  method ProcessDataset(data: seq<Row>, headers: seq<string>, term: string, cfg: SortConfig)
    returns (result: seq<Row>)
    ensures multiset(result) == multiset(SearchRows(data, headers, term))
    ensures !HasSortKey(cfg) ==> result == SearchRows(data, headers, term)
    ensures HasSortKey(cfg) && (forall row :: row in data ==> IsNumeric(Get(row, cfg.key.value))) ==>
      NumericallySorted(result, cfg.key.value, cfg.dir)
  {
    result := SearchRows(data, headers, term);
    if HasSortKey(cfg) {
      var key := cfg.key.value;
      if forall row :: row in result ==> IsNumeric(Get(row, key)) {
        NumericColumnSorted(result, key, cfg.dir);
      }
      result := SortWith(result, RowCompare(key, cfg.dir));
    }
  }

  // Totals

  const PowerChain: seq<string> := ["power", "Power"]
  const KpChain: seq<string> := ["total_kp", "Total KP", "Total Kill Points"]
  const DeadChain: seq<string> := ["dead_troops", "Dead", "Dead Troops"]

  /** `keys[i]` holds the first truthy alias value of `row`. */
  predicate FirstTruthyAt(row: Row, keys: seq<string>, i: int) {
    0 <= i < |keys| && Truthy(Get(row, keys[i]))
    && forall j :: 0 <= j < i ==> !Truthy(Get(row, keys[j]))
  }

  /** `parseNumber(row[k1] || ... || row[kn])`: the first truthy alias decides the value; when none
      is truthy the value is 0. */
  function ChainValue(row: Row, keys: seq<string>): (r: int)
    ensures (forall i :: 0 <= i < |keys| ==> !Truthy(Get(row, keys[i]))) ==> r == 0
    ensures forall i :: FirstTruthyAt(row, keys, i) ==> r == ParseNumber(Get(row, keys[i]))
  {
    var v := OrChain(row, keys);
    assert forall i, k :: FirstTruthyAt(row, keys, i) && FirstTruthyAt(row, keys, k) ==> i == k;
    FalsyReadsZero(v);
    ParseNumber(v)
  }

  /** A falsy value (`undefined`, `null`, `false`, `0`, `''`) reads as 0. */
  lemma FalsyReadsZero(v: Val)
    ensures !Truthy(v) ==> ParseNumber(v) == 0
  {
    if v == Str("") {
      assert RemoveCommas("") == "";
    }
  }

  function PowerFn(): Row -> int { (row: Row) => ChainValue(row, PowerChain) }
  function KpFn(): Row -> int { (row: Row) => ChainValue(row, KpChain) }
  function DeadFn(): Row -> int { (row: Row) => ChainValue(row, DeadChain) }

  datatype Stats = Stats(power: int, kp: int, dead: int)

  /** The `stats` reduce: one pass over every row of the scan adding its power, KP and dead to the
      accumulator. */
  method ComputeStats(data: seq<Row>) returns (acc: Stats)
    ensures acc == Stats(Sum(data, PowerFn()), Sum(data, KpFn()), Sum(data, DeadFn()))
  {
    acc := Stats(0, 0, 0);
    TakeAll(data);
    for i := 0 to |data|
      invariant acc == Stats(Sum(data[..i], PowerFn()), Sum(data[..i], KpFn()), Sum(data[..i], DeadFn()))
    {
      var row := data[i];
      SumSnoc(data, i, PowerFn());
      SumSnoc(data, i, KpFn());
      SumSnoc(data, i, DeadFn());
      acc := acc.(power := acc.power + ChainValue(row, PowerChain));
      acc := acc.(kp := acc.kp + ChainValue(row, KpChain));
      acc := acc.(dead := acc.dead + ChainValue(row, DeadChain));
    }
  }

  /** The totals do not depend on the order of the rows, so no sort could change them (and the
      search does not reach them: they are taken over the whole scan). */
  lemma StatsIgnoreOrder(a: seq<Row>, b: seq<Row>)
    requires multiset(a) == multiset(b)
    ensures Sum(a, PowerFn()) == Sum(b, PowerFn())
    ensures Sum(a, KpFn()) == Sum(b, KpFn())
    ensures Sum(a, DeadFn()) == Sum(b, DeadFn())
  {
    SumPermutation(a, b, PowerFn());
    SumPermutation(a, b, KpFn());
    SumPermutation(a, b, DeadFn());
  }

  /** The totals of two parts of a scan add up. */
  lemma StatsAppend(a: seq<Row>, b: seq<Row>)
    ensures Sum(a + b, PowerFn()) == Sum(a, PowerFn()) + Sum(b, PowerFn())
    ensures Sum(a + b, KpFn()) == Sum(a, KpFn()) + Sum(b, KpFn())
    ensures Sum(a + b, DeadFn()) == Sum(a, DeadFn()) + Sum(b, DeadFn())
  {
    SumAppend(a, b, PowerFn());
    SumAppend(a, b, KpFn());
    SumAppend(a, b, DeadFn());
  }

  /** The view's table state: ten rows a page and no sort at first. */
  method NewControls() returns (c: Controls)
    ensures fresh(c)
    ensures c.Valid()
    ensures c.page == 1 && c.perPage == 10 && c.searchTerm == "" && c.sort == SortConfig(None, Asc)
  {
    c := new Controls(10, SortConfig(None, Asc));
  }
}
