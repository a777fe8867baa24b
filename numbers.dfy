/** Reading numbers and strings out of scan rows: the `parseNumber` / `parse` / `parseNum`
    normalisers and the alias-list getters `getValue`, `getString`, `getKp` and `getVal`. */
module Numbers {
  import opened Base
  import opened JsStrings
  import opened JsValues

  /** `parseNumber` of the DKP and dataset viewers: a number is itself, a string is parsed after
      its commas are removed (unparseable text is 0), anything else is 0. */
  function ParseNumber(v: Val): (r: int)
    ensures v.Num? ==> r == v.n
    ensures !v.Num? && !v.Str? ==> r == 0
    ensures v.Str? && ParseFloat(RemoveCommas(v.s)).None? ==> r == 0
    ensures v.Str? && ParseFloat(RemoveCommas(v.s)).Some? ==> r == ParseFloat(RemoveCommas(v.s)).value
  {
    match v
    case Num(n) => n
    case Str(s) =>
      (match ParseFloat(RemoveCommas(s))
       case None => 0
       case Some(x) => x)
    case _ => 0
  }

  /** Text that reads as the integer `n` once its thousands separators are dropped parses as `n`. */
  lemma ParseNumberFormatted(s: string, n: int)
    requires RemoveCommas(s) == IntToString(n)
    ensures ParseNumber(Str(s)) == n
  {
    ParseFloatIntToString(n);
  }

  /** Commas are ignored wherever they stand. */
  lemma ParseNumberIgnoresCommas(s: string)
    ensures ParseNumber(Str(s)) == ParseNumber(Str(RemoveCommas(s)))
  {
    RemoveCommasIdempotent(s);
  }

  /** Text with no number at its head (after white space and commas are dropped) reads as 0. */
  lemma ParseNumberNoDigit(s: string)
    requires var t := TrimStart(RemoveCommas(s)); t == [] || !(IsDigit(t[0]) || t[0] == '-' || t[0] == '+')
    ensures ParseNumber(Str(s)) == 0
  {
    ParseFloatNoDigit(RemoveCommas(s));
  }

  /** `parse` of the comparison viewer and `parseNum` of the statistics modal:
      `parseFloat(s.replace(/,/g, '') || '0')`. Text that is not a number (NaN in the source) is
      read as 0 here. */
  function ParseLoose(v: Val): (r: int)
    ensures v.Num? ==> r == v.n
    ensures !v.Num? && !v.Str? ==> r == 0
    ensures v.Str? && RemoveCommas(v.s) == "" ==> r == 0
  {
    match v
    case Num(n) => n
    case Str(s) =>
      var t := RemoveCommas(s);
      ParseFloatZero();
      (match ParseFloat(if t == "" then "0" else t)
       case None => 0
       case Some(x) => x)
    case _ => 0
  }

  /** With NaN read as 0, the `|| '0'` default changes nothing: the two normalisers agree. */
  lemma ParseLooseIsParseNumber(v: Val)
    ensures ParseLoose(v) == ParseNumber(v)
  {
    if v.Str? && RemoveCommas(v.s) == "" {
      ParseFloatZero();
    }
  }

  /** `keys[i]` is the first alias with a value in `row` ('row[k] !== undefined'). */
  predicate FirstDefinedAt(row: Row, keys: seq<string>, i: int) {
    0 <= i < |keys| && Get(row, keys[i]) != Undefined
    && forall j :: 0 <= j < i ==> Get(row, keys[j]) == Undefined
  }

  /** `getValue` (and `getKp`, `getVal` on a present row): the first alias present decides the
      value, even when it parses to 0; with no alias present the value is 0. */
  function GetValue(row: Row, keys: seq<string>): (r: int)
    ensures (forall i :: 0 <= i < |keys| ==> Get(row, keys[i]) == Undefined) ==> r == 0
    ensures forall i :: FirstDefinedAt(row, keys, i) ==> r == ParseNumber(Get(row, keys[i]))
  {
    var r := match FirstDefined(row, keys) case None => 0 case Some(v) => ParseNumber(v);
    assert forall i, k :: FirstDefinedAt(row, keys, i) && FirstDefinedAt(row, keys, k) ==> i == k;
    r
  }

  /** `getString`: `String` of the first alias present, or `''` when none is. */
  function GetString(row: Row, keys: seq<string>): (r: string)
    ensures (forall i :: 0 <= i < |keys| ==> Get(row, keys[i]) == Undefined) ==> r == ""
    ensures forall i :: FirstDefinedAt(row, keys, i) ==> r == StringOf(Get(row, keys[i]))
  {
    var r := match FirstDefined(row, keys) case None => "" case Some(v) => StringOf(v);
    assert forall i, k :: FirstDefinedAt(row, keys, i) && FirstDefinedAt(row, keys, k) ==> i == k;
    r
  }

  /** `getVal(row, keys)` / `getKp(row)` where the row may be missing (`null` or `undefined`):
      a missing row reads as 0, a present one as `GetValue` with the loose parser. */
  function GetLoose(row: Option<Row>, keys: seq<string>): (r: int)
    ensures row.None? ==> r == 0
    ensures row.Some? ==> r == GetValue(row.value, keys)
  {
    match row
    case None => 0
    case Some(x) =>
      match FirstDefined(x, keys)
      case None => 0
      case Some(v) => ParseLooseIsParseNumber(v); ParseLoose(v)
  }
}
