/** The governor detail dialog of the comparison view: the initial row found for a governor (with a
    name fallback when the id finds nothing), the power, KP and dead differences, the unclamped
    completion percentage, the progress angle and the displayed name. */
module GovernorStats {
  import opened Base
  import opened JsStrings
  import opened JsValues
  import opened Numbers
  import opened Database
  import Comparison
  import Dkp

  const PowerKeys: seq<string> := ["power", "Power", "POWER"]
  const KpKeys: seq<string> := ["total_kp", "Total KP", "KP", "kp", "Kill Points"]
  const DeadKeys: seq<string> := ["dead_troops", "Dead", "Deads", "dead"]
  const DisplayNameChain: seq<string> := ["govExact_name", "name", "Name"]

  /** An initial row with the same id: `String` equality of the id chains, when the governor's id
      is truthy. */
  function IdMatch(gov: Row): Row -> bool {
    var id := Comparison.IdOf(gov);
    if Truthy(id) then (row: Row) => StringOf(Comparison.IdOf(row)) == StringOf(id)
    else (row: Row) => false
  }

  /** An initial row with the same name: case-insensitive `String` equality of the name chains,
      untrimmed, when the governor's name is truthy. */
  function NameMatch(gov: Row): Row -> bool {
    var name := Comparison.NameOf(gov);
    if Truthy(name) then (row: Row) => ToLower(StringOf(Comparison.NameOf(row))) == ToLower(StringOf(name))
    else (row: Row) => false
  }

  /** `initGov`: no initial data, no match; otherwise the first row with the governor's id, and
      when there is none the first row with its name. */
  function InitGov(gov: Row, initDataset: Dataset): (r: Option<Row>)
    ensures initDataset.jsonData.None? ==> r.None?
    ensures initDataset.jsonData.Some? ==> var rows := initDataset.jsonData.value;
      (exists j :: 0 <= j < |rows| && IdMatch(gov)(rows[j])) ==>
        exists k :: (0 <= k < |rows| && r == Some(rows[k]) && IdMatch(gov)(rows[k])
          && forall j :: 0 <= j < k ==> !IdMatch(gov)(rows[j]))
    ensures initDataset.jsonData.Some? ==> var rows := initDataset.jsonData.value;
      (forall j :: 0 <= j < |rows| ==> !IdMatch(gov)(rows[j])) ==>
        (r.None? <==> forall j :: 0 <= j < |rows| ==> !NameMatch(gov)(rows[j]))
        && (r.Some? ==> exists k :: (0 <= k < |rows| && r == Some(rows[k]) && NameMatch(gov)(rows[k])
          && forall j :: 0 <= j < k ==> !NameMatch(gov)(rows[j])))
  {
    match initDataset.jsonData
    case None => None
    case Some(rows) =>
      var byId := Find(rows, IdMatch(gov));
      if byId.Some? then byId else Find(rows, NameMatch(gov))
  }

  /** Unlike the comparison view's matcher, a truthy id that finds no initial row falls back to the
      name: the same governor is matched here and unmatched there. */
  lemma NameFallbackDiffersFromTable(gov: Row, initDataset: Dataset, k: int)
    requires initDataset.jsonData.Some? && Truthy(Comparison.IdOf(gov))
    requires var rows := initDataset.jsonData.value;
      (forall j :: 0 <= j < |rows| ==> !IdMatch(gov)(rows[j]))
      && 0 <= k < |rows| && NameMatch(gov)(rows[k])
    ensures InitGov(gov, initDataset).Some?
    ensures Comparison.FindInit(gov, initDataset.jsonData.value).None?
  {
    var rows := initDataset.jsonData.value;
    assert forall j :: 0 <= j < |rows| ==> StringOf(Comparison.IdOf(rows[j])) != StringOf(Comparison.IdOf(gov));
    Comparison.FindInitNoNameFallback(gov, rows);
    assert NameMatch(gov)(rows[k]);
  }

  /** `getVal(row, keys)` with the `parseNum` normaliser: a missing row or key reads as 0. */
  function GetVal(row: Option<Row>, keys: seq<string>): (r: int)
    ensures row.None? ==> r == 0
    ensures row.Some? ==> r == GetValue(row.value, keys)
  {
    GetLoose(row, keys)
  }

  datatype GovStats = GovStats(
    curPower: int, initPower: int, diffPower: int,
    curKp: int, initKp: int, diffKp: int,
    curDead: int, initDead: int, diffDead: int,
    targetKpGain: int, completionPercent: real)

  /** `target > 0 ? (gain / target) * 100 : 0`, unclamped. */
  function Percent(gain: int, target: int): (r: real)
    ensures target > 0 ==> r * target as real == gain as real * 100.0
    ensures target > 0 && gain > target ==> r > 100.0
    ensures target > 0 && gain < 0 ==> r < 0.0
    ensures target <= 0 ==> r == 0.0
  {
    if target > 0 then
      var q := gain as real / target as real;
      assert q * target as real == gain as real;
      q * 100.0
    else 0.0
  }

  /** The `stats` memo. */
  function Stats(gov: Row, initGov: Option<Row>): (r: GovStats)
    ensures r.curPower == GetValue(gov, PowerKeys) && r.curKp == GetValue(gov, KpKeys)
      && r.curDead == GetValue(gov, DeadKeys)
    ensures r.initPower == GetVal(initGov, PowerKeys) && r.initKp == GetVal(initGov, KpKeys)
      && r.initDead == GetVal(initGov, DeadKeys)
    ensures r.diffPower == r.curPower - r.initPower && r.diffKp == r.curKp - r.initKp
      && r.diffDead == r.curDead - r.initDead
    ensures r.targetKpGain == 3 * r.initPower
    ensures r.completionPercent == Percent(r.diffKp, r.targetKpGain)
    ensures initGov.None? ==> r.initPower == 0 && r.diffKp == r.curKp && r.completionPercent == 0.0
  {
    var curPower := GetVal(Some(gov), PowerKeys);
    var initPower := GetVal(initGov, PowerKeys);
    var curKp := GetVal(Some(gov), KpKeys);
    var initKp := GetVal(initGov, KpKeys);
    var curDead := GetVal(Some(gov), DeadKeys);
    var initDead := GetVal(initGov, DeadKeys);
    var diffKp := curKp - initKp;
    var target := initPower * 3;
    var completion := Percent(diffKp, target);
    GovStats(curPower, initPower, curPower - initPower, curKp, initKp, diffKp,
      curDead, initDead, curDead - initDead, target, completion)
  }

  /** The dialog's percentage is not capped: a gain above the target reads above 100. */
  lemma CompletionUnclamped(gov: Row, initGov: Option<Row>)
    requires var s := Stats(gov, initGov); s.targetKpGain > 0 && s.diffKp > s.targetKpGain
    ensures Stats(gov, initGov).completionPercent > 100.0
  {
  }

  /** Capped at 100, the dialog's percentage is the tracker's, for the same KP gain and initial
      power. */
  lemma CompletionMatchesTracker(gov: Row, initGov: Option<Row>)
    ensures var s := Stats(gov, initGov);
      Dkp.Completion(s.diffKp, s.initPower) == if s.completionPercent < 100.0 then s.completionPercent else 100.0
  {
  }

  /** The progress ring's angle: `Math.min(completion, 100) * 3.6` degrees. */
  function Angle(completion: real): (r: real)
    ensures r <= 360.0
    ensures completion >= 100.0 ==> r == 360.0
    ensures completion < 100.0 ==> r == completion * 3.6
    ensures completion >= 0.0 ==> r >= 0.0
  {
    (if completion < 100.0 then completion else 100.0) * 3.6
  }

  /** `govExact_name || name || Name || 'Unknown Governor'`: the first truthy name, or the
      placeholder; never blank. */
  function GovName(gov: Row): (r: Val)
    ensures Truthy(r)
    ensures (forall i :: 0 <= i < |DisplayNameChain| ==> !Truthy(Get(gov, DisplayNameChain[i])))
      ==> r == Str("Unknown Governor")
    ensures forall i :: (0 <= i < |DisplayNameChain| && Truthy(Get(gov, DisplayNameChain[i]))
      && (forall j :: 0 <= j < i ==> !Truthy(Get(gov, DisplayNameChain[j])))) ==> r == Get(gov, DisplayNameChain[i])
  {
    var n := OrChain(gov, DisplayNameChain);
    if Truthy(n) then n else Str("Unknown Governor")
  }
}
