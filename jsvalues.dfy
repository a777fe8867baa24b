/** The JSON cell values a parsed scan row holds, with the JavaScript coercions the components
    apply to them: truthiness, `||` chains, `!== undefined` look-ups and `String(v)`. */
module JsValues {
  import opened Base
  import opened JsStrings

  /** A cell value. `Undefined` is what reading a missing key gives. */
  datatype Val = Undefined | Null | Bool(b: bool) | Num(n: int) | Str(s: string)

  /** One row of a scan: column name to cell. */
  type Row = map<string, Val>

  /** `row[key]`. */
  function Get(row: Row, key: string): Val {
    if key in row then row[key] else Undefined
  }

  /** JavaScript truthiness: `undefined`, `null`, `false`, `0` and `''` are falsy. */
  predicate Truthy(v: Val) {
    match v
    case Undefined => false
    case Null => false
    case Bool(b) => b
    case Num(n) => n != 0
    case Str(s) => s != ""
  }

  /** `row[k1] || row[k2] || ... || row[kn]`: the first truthy alias value, otherwise the value of the
      last alias (which may be falsy, for instance `''` or `undefined`). */
  function OrChain(row: Row, keys: seq<string>): (r: Val)
    ensures Truthy(r) <==> exists i :: 0 <= i < |keys| && Truthy(Get(row, keys[i]))
    ensures |keys| > 0 ==>
      exists i :: (0 <= i < |keys| && r == Get(row, keys[i])
        && (forall j :: 0 <= j < i ==> !Truthy(Get(row, keys[j])))
        && (Truthy(r) || i == |keys| - 1))
    ensures |keys| == 0 ==> r == Undefined
  {
    if |keys| == 0 then Undefined
    else if |keys| == 1 || Truthy(Get(row, keys[0])) then Get(row, keys[0])
    else
      var r := OrChain(row, keys[1..]);
      assert forall i :: 1 <= i < |keys| ==> keys[i] == keys[1..][i - 1];
      r
  }

  /** The value of the first alias, in list order, that is not `undefined` (the
      `for (const k of keys) if (row[k] !== undefined) ...` loops). */
  function FirstDefined(row: Row, keys: seq<string>): (r: Option<Val>)
    ensures r.None? <==> forall i :: 0 <= i < |keys| ==> Get(row, keys[i]) == Undefined
    ensures r.Some? ==> r.value != Undefined
    ensures r.Some? ==>
      exists i :: (0 <= i < |keys| && Get(row, keys[i]) == r.value
        && forall j :: 0 <= j < i ==> Get(row, keys[j]) == Undefined)
  {
    if |keys| == 0 then None
    else if Get(row, keys[0]) != Undefined then Some(Get(row, keys[0]))
    else
      var r := FirstDefined(row, keys[1..]);
      assert forall i :: 1 <= i < |keys| ==> keys[i] == keys[1..][i - 1];
      r
  }

  /** `String(v)`. */
  function StringOf(v: Val): string {
    match v
    case Undefined => "undefined"
    case Null => "null"
    case Bool(b) => if b then "true" else "false"
    case Num(n) => IntToString(n)
    case Str(s) => s
  }
}
