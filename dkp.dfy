/** The DKP tracker: governors of the latest scan are matched to the initial scan, their gains are
    scored, ranked by kill points gained, searched, sorted and paged. */
module Dkp {
  import opened Base
  import opened JsStrings
  import opened JsValues
  import opened Numbers
  import opened Ordering
  import opened Table

  const KpKeys: seq<string> := ["total_kp", "Total KP", "KP", "kp", "Kill Points", "Total Kill Points"]
  const DeadKeys: seq<string> := ["dead_troops", "Dead", "Deads", "dead", "Dead Troops"]
  const PowerKeys: seq<string> := ["power", "Power", "POWER"]
  const T4Keys: seq<string> := ["t4_kills", "T4 Kills", "T4-Kills", "t4-kills", "T4Kills"]
  const T5Keys: seq<string> := ["t5_kills", "T5 Kills", "T5-Kills", "t5-kills", "T5Kills"]
  const IdKeys: seq<string> := ["governor_id", "id", "ID", "Governor ID", "uid", "UID"]
  const NameKeys: seq<string> :=
    ["govExact_name", "name", "Name", "governor_name", "Username", "exactName", "Nickname", "NICKNAME"]

  /** Points per T4 kill, per T5 kill and per dead troop. */
  const T4Weight := 10
  const T5Weight := 20
  const DeadWeight := 10

  /** Rows per page; the tracker has no page-size menu. */
  const ItemsPerPage := 10

  function IdOf(row: Row): string { GetString(row, IdKeys) }
  function NameOf(row: Row): string { GetString(row, NameKeys) }

  /** `id.replace(/,/g, '').trim()`. */
  function CleanId(id: string): string { Trim(RemoveCommas(id)) }

  /** `name.trim().toLowerCase()`. */
  function CleanName(name: string): string { ToLower(Trim(name)) }

  /** When an initial row counts as the same governor as `gov`: by cleaned id when `gov` has a
      non-empty id (and then only by id), otherwise by cleaned name when it has a non-empty name,
      otherwise never. */
  function MatchesFn(gov: Row): Row -> bool {
    var id := IdOf(gov);
    var name := NameOf(gov);
    if id != "" then (row: Row) => CleanId(IdOf(row)) == CleanId(id)
    else if name != "" then (row: Row) => CleanName(NameOf(row)) == CleanName(name)
    else (row: Row) => false
  }

  predicate Matches(gov: Row, row: Row) {
    MatchesFn(gov)(row)
  }

  /** `findInit(gov)`: the first initial row that matches `gov`, if any. */
  function FindInit(gov: Row, init: seq<Row>): (r: Option<Row>)
    ensures r.None? <==> forall j :: 0 <= j < |init| ==> !Matches(gov, init[j])
    ensures r.Some? ==> exists k :: (0 <= k < |init| && init[k] == r.value && Matches(gov, init[k])
      && forall j :: 0 <= j < k ==> !Matches(gov, init[j]))
  {
    Find(init, MatchesFn(gov))
  }

  /** Id first and no fallback: a latest row with an id is never matched by name. */
  lemma FindInitNoNameFallback(gov: Row, init: seq<Row>)
    requires IdOf(gov) != ""
    requires forall j :: 0 <= j < |init| ==> CleanId(IdOf(init[j])) != CleanId(IdOf(gov))
    ensures FindInit(gov, init) == None
  {
  }

  /** A row with neither an id nor a name matches nothing. */
  lemma FindInitAnonymous(gov: Row, init: seq<Row>)
    requires IdOf(gov) == "" && NameOf(gov) == ""
    ensures FindInit(gov, init) == None
  {
  }

  /** One row of the tracker, before ranking. */
  datatype Record = Record(
    id: string, name: string, power: int, score: int,
    kpGained: int, deadGained: int, t4Gained: int, t5Gained: int,
    currentKp: int, currentDead: int, initPower: int, initKp: int, powerDrop: int)

  /** The relations between a record's fields: each gain is the current value minus the initial
      one, the score weighs the T4, T5 and dead gains, and the power drop is initial minus current. */
  predicate Consistent(r: Record) {
    r.kpGained == r.currentKp - r.initKp
    && r.score == r.t4Gained * T4Weight + r.t5Gained * T5Weight + r.deadGained * DeadWeight
    && r.powerDrop == r.initPower - r.power
  }

  /** The record for latest row `gov` matched to initial row `init`. */
  function MakeRecord(gov: Row, init: Row): (r: Record)
    ensures Consistent(r)
    ensures r.id == IdOf(gov) && r.name == NameOf(gov)
    ensures r.power == GetValue(gov, PowerKeys) && r.initPower == GetValue(init, PowerKeys)
    ensures r.currentKp == GetValue(gov, KpKeys) && r.initKp == GetValue(init, KpKeys)
    ensures r.currentDead == GetValue(gov, DeadKeys)
    ensures r.deadGained == GetValue(gov, DeadKeys) - GetValue(init, DeadKeys)
    ensures r.t4Gained == GetValue(gov, T4Keys) - GetValue(init, T4Keys)
    ensures r.t5Gained == GetValue(gov, T5Keys) - GetValue(init, T5Keys)
  {
    var power := GetValue(gov, PowerKeys);
    var currentKp := GetValue(gov, KpKeys);
    var initKp := GetValue(init, KpKeys);
    var kpGained := currentKp - initKp;
    var currentDead := GetValue(gov, DeadKeys);
    var deadGained := currentDead - GetValue(init, DeadKeys);
    var t4Gained := GetValue(gov, T4Keys) - GetValue(init, T4Keys);
    var t5Gained := GetValue(gov, T5Keys) - GetValue(init, T5Keys);
    var score := (t4Gained * 10) + (t5Gained * 20) + (deadGained * 10);
    Record(IdOf(gov), NameOf(gov), power, score, kpGained, deadGained, t4Gained, t5Gained,
      currentKp, currentDead, GetValue(init, PowerKeys), initKp, GetValue(init, PowerKeys) - power)
  }

  /** A governor compared with an identical scan of itself gained nothing. */
  lemma MakeRecordSelf(gov: Row)
    ensures var r := MakeRecord(gov, gov);
      r.kpGained == 0 && r.deadGained == 0 && r.t4Gained == 0 && r.t5Gained == 0
      && r.score == 0 && r.powerDrop == 0
  {
  }

  /** The record a latest row contributes: its record if it has an initial match, else none. */
  function Reconcile(init: seq<Row>): Row -> Option<Record> {
    (gov: Row) => match FindInit(gov, init) case None => None case Some(m) => Some(MakeRecord(gov, m))
  }

  /** The reference for the tracker's data: the latest rows that have an initial match, in their
      order, each turned into its record. */
  function Reconciled(latest: seq<Row>, init: seq<Row>): (r: seq<Record>)
    ensures |r| <= |latest|
  {
    FilterMap(latest, Reconcile(init))
  }

  /** The `data` memo: `latestData.forEach(gov => { const init = findInit(gov); if (!init) return;
      results.push({...}) })`. */
  method BuildRecords(latest: seq<Row>, init: seq<Row>) returns (results: seq<Record>)
    ensures results == Reconciled(latest, init)
  {
    results := [];
    var i := 0;
    TakeAll(latest);
    assert Reconciled([], init) == [];
    while i < |latest|
      invariant 0 <= i <= |latest|
      invariant results == Reconciled(latest[..i], init)
    {
      ReconciledStep(latest, i, init);
      var gov := latest[i];
      var found := FindInit(gov, init);
      if found.Some? {
        results := results + [MakeRecord(gov, found.value)];
      }
      i := i + 1;
    }
  }

  /** One step of the scan: the prefix through row `i` adds row `i`'s record, if it has one. */
  lemma ReconciledStep(latest: seq<Row>, i: int, init: seq<Row>)
    requires 0 <= i < |latest|
    ensures FindInit(latest[i], init).None? ==> Reconciled(latest[..i + 1], init) == Reconciled(latest[..i], init)
    ensures FindInit(latest[i], init).Some? ==>
      Reconciled(latest[..i + 1], init) == Reconciled(latest[..i], init) + [MakeRecord(latest[i], FindInit(latest[i], init).value)]
  {
    TakeSnoc(latest, i);
    ReconciledSnoc(latest[..i], latest[i], init);
  }

  /** Every record belongs to a latest row with an initial match, and every such row has its
      record; unmatched rows contribute nothing (there is no zero-filled record). */
  lemma ReconciledRows(latest: seq<Row>, init: seq<Row>)
    ensures forall r :: r in Reconciled(latest, init) <==>
      exists i :: 0 <= i < |latest| && FindInit(latest[i], init).Some?
        && r == MakeRecord(latest[i], FindInit(latest[i], init).value)
    ensures forall r :: r in Reconciled(latest, init) ==> Consistent(r)
  {
    FilterMapMembers(latest, Reconcile(init));
  }

  /** Reconciling one more latest row appends its record when it has a match, and nothing when not:
      records keep the latest rows' order. */
  lemma ReconciledSnoc(latest: seq<Row>, gov: Row, init: seq<Row>)
    ensures Reconciled(latest + [gov], init) == Reconciled(latest, init)
      + (match FindInit(gov, init) case None => [] case Some(m) => [MakeRecord(gov, m)])
  {
    FilterMapSnoc(latest, gov, Reconcile(init));
  }

  // Ranking

  /** A record with its rank (`{ ...row, rank }`). */
  datatype Ranked = Ranked(rec: Record, rank: int)

  /** `(a, b) => b.kp_gained - a.kp_gained`: larger KP gains first. */
  function KpDesc(): (Record, Record) -> int {
    (a: Record, b: Record) => b.kpGained - a.kpGained
  }

  lemma KpDescStrict(s: seq<Record>)
    ensures StrictOn(KpDesc(), s)
  {
  }

  function KpGainedOf(r: Record): int { r.kpGained }

  /** Records with equal KP gains keep their order, so ties are ranked in the order of the latest
      scan. */
  lemma KpSortStable(data: seq<Record>, n: int)
    ensures Filter(SortWith(data, KpDesc()), KeyIs(KpGainedOf, n)) == Filter(data, KeyIs(KpGainedOf, n))
  {
    KpDescStrict(data);
    SortStable(data, KpDesc(), KpGainedOf, n);
  }

  /** `sortedByKp.findIndex(r => r.id === id) + 1`: one more than the position of the first record
      with that id, or 0 when there is none. */
  function RankIn(sorted: seq<Record>, id: string): (r: int)
    ensures 0 <= r <= |sorted|
    ensures r == 0 <==> forall j :: 0 <= j < |sorted| ==> sorted[j].id != id
    ensures r > 0 ==> sorted[r - 1].id == id && forall j :: 0 <= j < r - 1 ==> sorted[j].id != id
  {
    match FindIndex(sorted, (x: Record) => x.id == id)
    case None => 0
    case Some(k) => k + 1
  }

  /** `dataWithRanks`: each record, in its own order, with the rank of its id in the records sorted
      by KP gained. */
  function WithRanks(data: seq<Record>): (r: seq<Ranked>)
    ensures |r| == |data|
    ensures forall i :: 0 <= i < |r| ==> r[i].rec == data[i]
  {
    var sorted := SortWith(data, KpDesc());
    seq(|data|, (i: int) requires 0 <= i < |data| => Ranked(data[i], RankIn(sorted, data[i].id)))
  }

  /** Every rank is between 1 and the number of records: each id occurs in the sorted copy. */
  lemma RanksInRange(data: seq<Record>)
    ensures forall i :: 0 <= i < |data| ==> 1 <= WithRanks(data)[i].rank <= |data|
  {
    var sorted := SortWith(data, KpDesc());
    forall i | 0 <= i < |data|
      ensures 1 <= WithRanks(data)[i].rank
    {
      assert data[i] in multiset(sorted);
      var j :| 0 <= j < |sorted| && sorted[j] == data[i];
    }
  }

  ghost predicate DistinctIds(data: seq<Record>) {
    forall i, j :: 0 <= i < j < |data| ==> data[i].id != data[j].id
  }

  /** With distinct ids, the rank of record `i` in any permutation `sorted` of the records is one
      more than the position of that record. */
  lemma RankInPosition(sorted: seq<Record>, data: seq<Record>, i: int)
    requires multiset(sorted) == multiset(data) && DistinctIds(data) && 0 <= i < |data|
    ensures var k := RankIn(sorted, data[i].id); 1 <= k <= |sorted| && sorted[k - 1] == data[i]
  {
    assert data[i] in multiset(sorted);
    var j :| 0 <= j < |sorted| && sorted[j] == data[i];
    assert sorted[j].id == data[i].id;
    var k := RankIn(sorted, data[i].id);
    assert sorted[k - 1] in multiset(data);
    var m :| 0 <= m < |data| && data[m] == sorted[k - 1];
    SameIdSameIndex(data, m, i);
  }

  /** With distinct ids, the rank of record `i` is its position in the sorted copy. */
  lemma RankPosition(data: seq<Record>, i: int)
    requires DistinctIds(data) && 0 <= i < |data|
    ensures var k := WithRanks(data)[i].rank;
      1 <= k <= |data| && SortWith(data, KpDesc())[k - 1] == data[i]
  {
    var sorted := SortWith(data, KpDesc());
    RankInPosition(sorted, data, i);
    assert WithRanks(data)[i].rank == RankIn(sorted, data[i].id);
  }

  /** With distinct ids, two records have different ranks in any permutation of the records. */
  lemma RankPairDistinct(sorted: seq<Record>, data: seq<Record>, i: int, j: int)
    requires multiset(sorted) == multiset(data) && DistinctIds(data) && 0 <= i < j < |data|
    ensures RankIn(sorted, data[i].id) != RankIn(sorted, data[j].id)
  {
    RankInPosition(sorted, data, i);
    RankInPosition(sorted, data, j);
    assert data[i].id != data[j].id;
  }

  /** With distinct ids, different records have different ranks. */
  lemma RanksDistinct(data: seq<Record>)
    requires DistinctIds(data)
    ensures forall i, j :: 0 <= i < j < |data| ==> WithRanks(data)[i].rank != WithRanks(data)[j].rank
  {
    var sorted := SortWith(data, KpDesc());
    forall i, j | 0 <= i < j < |data|
      ensures WithRanks(data)[i].rank != WithRanks(data)[j].rank
    {
      RankPairDistinct(sorted, data, i, j);
      assert WithRanks(data)[i].rank == RankIn(sorted, data[i].id);
      assert WithRanks(data)[j].rank == RankIn(sorted, data[j].id);
    }
  }

  /** With distinct ids, the record at position `p` of the sorted copy is ranked `p + 1`: every
      rank from 1 to N is held, so the ranks are a permutation of 1..N. */
  lemma RanksOnto(data: seq<Record>)
    requires DistinctIds(data)
    ensures forall p :: 0 <= p < |data| ==> exists i :: (0 <= i < |data|
      && data[i] == SortWith(data, KpDesc())[p] && WithRanks(data)[i].rank == p + 1)
  {
    assert NoDup(data) by {
      forall i, j | 0 <= i < j < |data|
        ensures data[i] != data[j]
      {
        assert data[i].id != data[j].id;
      }
    }
    NoDupPermutation(data, SortWith(data, KpDesc()));
    forall p | 0 <= p < |data|
      ensures exists i :: (0 <= i < |data| && data[i] == SortWith(data, KpDesc())[p] && WithRanks(data)[i].rank == p + 1)
    {
      RankAt(data, p);
    }
  }

  lemma RankAt(data: seq<Record>, p: int)
    requires DistinctIds(data) && NoDup(SortWith(data, KpDesc())) && 0 <= p < |data|
    ensures exists i :: (0 <= i < |data| && data[i] == SortWith(data, KpDesc())[p] && WithRanks(data)[i].rank == p + 1)
  {
    var sorted := SortWith(data, KpDesc());
    assert sorted[p] in multiset(data);
    var i :| 0 <= i < |data| && data[i] == sorted[p];
    RankPosition(data, i);
    var r := WithRanks(data)[i].rank;
    assert sorted[r - 1] == sorted[p];
  }

  /** In a copy sorted by KP gained, a record with a strictly larger gain is ranked before one
      with a smaller gain. */
  lemma RankPairMonotone(sorted: seq<Record>, data: seq<Record>, i: int, j: int)
    requires multiset(sorted) == multiset(data) && DistinctIds(data) && SortedBy(sorted, KpDesc())
    requires 0 <= i < |data| && 0 <= j < |data| && data[i].kpGained > data[j].kpGained
    ensures RankIn(sorted, data[i].id) < RankIn(sorted, data[j].id)
  {
    RankInPosition(sorted, data, i);
    RankInPosition(sorted, data, j);
  }

  /** With distinct ids, a strictly larger KP gain gets a strictly smaller (better) rank. */
  lemma RanksMonotone(data: seq<Record>)
    requires DistinctIds(data)
    ensures forall i, j :: (0 <= i < |data| && 0 <= j < |data| && data[i].kpGained > data[j].kpGained
      ==> WithRanks(data)[i].rank < WithRanks(data)[j].rank)
  {
    var sorted := SortWith(data, KpDesc());
    KpDescStrict(data);
    SortSorted(data, KpDesc());
    forall i, j | 0 <= i < |data| && 0 <= j < |data| && data[i].kpGained > data[j].kpGained
      ensures WithRanks(data)[i].rank < WithRanks(data)[j].rank
    {
      RankPairMonotone(sorted, data, i, j);
      assert WithRanks(data)[i].rank == RankIn(sorted, data[i].id);
      assert WithRanks(data)[j].rank == RankIn(sorted, data[j].id);
    }
  }

  /** Records that share an id share a rank, whatever their KP gains. */
  lemma SharedIdSharesRank(data: seq<Record>, i: int, j: int)
    requires 0 <= i < |data| && 0 <= j < |data| && data[i].id == data[j].id
    ensures WithRanks(data)[i].rank == WithRanks(data)[j].rank
  {
  }

  /** A scan without ids is matched by name, and every record then has the id `""`: all of them
      are ranked 1, so the ranks are no permutation once there are two records. */
  lemma BlankIdsAllRankedFirst(data: seq<Record>)
    requires forall i :: 0 <= i < |data| ==> data[i].id == ""
    ensures forall i :: 0 <= i < |data| ==> WithRanks(data)[i].rank == 1
  {
    var sorted := SortWith(data, KpDesc());
    if |data| > 0 {
      assert sorted[0] in multiset(data);
    }
  }

  /** The indices `0 .. n - 1`. */
  function Indices(n: nat): (r: seq<nat>)
    ensures |r| == n && forall i :: 0 <= i < n ==> r[i] == i
  {
    seq(n, (i: int) requires 0 <= i => i as nat)
  }

  /** Record indices compared by the records' KP gains, larger first. */
  function IndexKpDesc(data: seq<Record>): (nat, nat) -> int {
    (i: nat, j: nat) => if i < |data| && j < |data| then data[j].kpGained - data[i].kpGained else 0
  }

  /** The record indices in the order of a stable sort by KP gained, descending. */
  function KpOrder(data: seq<Record>): (r: seq<nat>)
    ensures multiset(r) == multiset(Indices(|data|))
    ensures |r| == |data|
  {
    var r := SortWith(Indices(|data|), IndexKpDesc(data));
    assert |r| == |multiset(r)| == |multiset(Indices(|data|))|;
    r
  }
  /** One more than the position of index `i` in `order`, or 0 when it is absent. */
  function PositionRank(order: seq<nat>, i: nat): (r: int)
    ensures 0 <= r <= |order|
    ensures r == 0 <==> i !in order
    ensures r > 0 ==> order[r - 1] == i
  {
    match FindIndex(order, (k: nat) => k == i)
    case None => 0
    case Some(p) => p + 1
  }

  /** Ranks by position in the sorted order, so that every record has its own rank whatever its
      id. */
  function WithRanksFixed(data: seq<Record>): (r: seq<Ranked>)
    ensures |r| == |data|
    ensures forall i :: 0 <= i < |r| ==> r[i].rec == data[i]
  {
    var order := KpOrder(data);
    seq(|data|, (i: int) requires 0 <= i < |data| => Ranked(data[i], PositionRank(order, i)))
  }

  lemma KpOrderFacts(data: seq<Record>)
    ensures NoDup(KpOrder(data)) && |KpOrder(data)| == |data|
    ensures forall p :: 0 <= p < |data| ==> KpOrder(data)[p] < |data|
    ensures forall i :: 0 <= i < |data| ==> i in KpOrder(data)
    ensures forall p, q :: 0 <= p < q < |data| ==>
      data[KpOrder(data)[p]].kpGained >= data[KpOrder(data)[q]].kpGained
  {
    var ix := Indices(|data|);
    var order := KpOrder(data);
    assert |order| == |multiset(order)| == |multiset(ix)| == |data|;
    NoDupPermutation(ix, order);
    forall p | 0 <= p < |data|
      ensures order[p] < |data|
    {
      assert order[p] in multiset(ix);
    }
    forall i | 0 <= i < |data|
      ensures i in order
    {
      assert ix[i] in multiset(order);
    }
    SortSorted(ix, IndexKpDesc(data));
    forall p, q | 0 <= p < q < |data|
      ensures data[order[p]].kpGained >= data[order[q]].kpGained
    {
      assert IndexKpDesc(data)(order[q], order[p]) >= 0;
    }
  }

  /** The corrected ranks lie in 1..N and differ between records. */
  lemma FixedRanksDistinct(data: seq<Record>)
    ensures forall i :: 0 <= i < |data| ==> 1 <= WithRanksFixed(data)[i].rank <= |data|
    ensures forall i, j :: 0 <= i < j < |data| ==> WithRanksFixed(data)[i].rank != WithRanksFixed(data)[j].rank
  {
    KpOrderFacts(data);
  }

  /** The record at position `p` of the sorted order is ranked `p + 1`: every rank in 1..N is
      held, so the corrected ranks are a permutation of 1..N for any ids. */
  lemma FixedRanksOnto(data: seq<Record>)
    ensures forall p :: 0 <= p < |data| ==> KpOrder(data)[p] < |data| && WithRanksFixed(data)[KpOrder(data)[p]].rank == p + 1
  {
    KpOrderFacts(data);
    var order := KpOrder(data);
    forall p | 0 <= p < |data|
      ensures WithRanksFixed(data)[order[p]].rank == p + 1
    {
      var r := PositionRank(order, order[p]);
      assert order[r - 1] == order[p];
    }
  }

  /** Under the corrected ranks a strictly larger KP gain gets a strictly smaller rank. */
  lemma FixedRanksMonotone(data: seq<Record>)
    ensures forall i, j :: (0 <= i < |data| && 0 <= j < |data| && data[i].kpGained > data[j].kpGained
      ==> WithRanksFixed(data)[i].rank < WithRanksFixed(data)[j].rank)
  {
    KpOrderFacts(data);
  }

  /** The records at the given indices. */
  function At(data: seq<Record>, ix: seq<nat>): (r: seq<Record>)
    requires forall k :: 0 <= k < |ix| ==> ix[k] < |data|
    ensures |r| == |ix| && forall k :: 0 <= k < |ix| ==> r[k] == data[ix[k]]
  {
    seq(|ix|, (k: int) requires 0 <= k < |ix| => data[ix[k]])
  }

  /** Inserting an index keeps every index in range. */
  lemma InsertInRange(data: seq<Record>, x: nat, ix: seq<nat>)
    requires x < |data| && forall k :: 0 <= k < |ix| ==> ix[k] < |data|
    ensures var r := Insert<nat>(x, ix, IndexKpDesc(data));
      forall k :: 0 <= k < |r| ==> r[k] < |data|
  {
    var r := Insert<nat>(x, ix, IndexKpDesc(data));
    forall k | 0 <= k < |r|
      ensures r[k] < |data|
    {
      assert r[k] in multiset(r);
      if r[k] != x {
        assert r[k] in multiset(ix);
      }
    }
  }

  /** Inserting a record commutes with looking records up by index. */
  lemma {:induction false} InsertAt(data: seq<Record>, x: nat, ix: seq<nat>)
    requires x < |data| && forall k :: 0 <= k < |ix| ==> ix[k] < |data|
    ensures var r := Insert<nat>(x, ix, IndexKpDesc(data));
      (forall k :: 0 <= k < |r| ==> r[k] < |data|)
      && Insert<Record>(data[x], At(data, ix), KpDesc()) == At(data, r)
  {
    InsertInRange(data, x, ix);
    if ix == [] {
      assert At(data, [x]) == [data[x]];
    } else {
      assert At(data, ix)[0] == data[ix[0]];
      assert KpDesc()(data[x], data[ix[0]]) == IndexKpDesc(data)(x, ix[0]);
      if IndexKpDesc(data)(x, ix[0]) < 0 {
        assert At(data, [x] + ix) == [data[x]] + At(data, ix);
      } else {
        var tail := Insert<nat>(x, ix[1..], IndexKpDesc(data));
        InsertAt(data, x, ix[1..]);
        assert At(data, ix)[1..] == At(data, ix[1..]);
        assert Insert<nat>(x, ix, IndexKpDesc(data)) == [ix[0]] + tail;
        assert At(data, [ix[0]] + tail) == [data[ix[0]]] + At(data, tail);
      }
    }
  }

  /** Sorting indices keeps every index in range. */
  lemma SortInRange(data: seq<Record>, ix: seq<nat>)
    requires forall k :: 0 <= k < |ix| ==> ix[k] < |data|
    ensures var r := SortWith<nat>(ix, IndexKpDesc(data));
      forall k :: 0 <= k < |r| ==> r[k] < |data|
  {
    var r := SortWith<nat>(ix, IndexKpDesc(data));
    forall k | 0 <= k < |r|
      ensures r[k] < |data|
    {
      assert r[k] in multiset(ix);
    }
  }

  /** Sorting records by KP gained is sorting their indices and looking the records up. */
  lemma {:induction false} SortAt(data: seq<Record>, ix: seq<nat>)
    requires forall k :: 0 <= k < |ix| ==> ix[k] < |data|
    ensures var r := SortWith<nat>(ix, IndexKpDesc(data));
      (forall k :: 0 <= k < |r| ==> r[k] < |data|)
      && SortWith<Record>(At(data, ix), KpDesc()) == At(data, r)
  {
    SortInRange(data, ix);
    if ix != [] {
      var init := ix[..|ix| - 1];
      SortAt(data, init);
      SortInRange(data, init);
      assert At(data, ix)[..|ix| - 1] == At(data, init);
      InsertAt(data, ix[|ix| - 1], SortWith<nat>(init, IndexKpDesc(data)));
    }
  }

  /** The records sorted by KP gained are the records at the sorted indices. */
  lemma SortedIsAtOrder(data: seq<Record>)
    ensures forall k :: 0 <= k < |data| ==> KpOrder(data)[k] < |data|
    ensures SortWith(data, KpDesc()) == At(data, KpOrder(data))
  {
    var ix := Indices(|data|);
    assert At(data, ix) == data;
    SortAt(data, ix);
  }

  /** With distinct ids the corrected ranks are the ranks the source computes: the correction
      changes only scans whose ids repeat, such as scans without ids. */
  lemma FixedRanksAgree(data: seq<Record>)
    requires DistinctIds(data)
    ensures WithRanksFixed(data) == WithRanks(data)
  {
    SortedIsAtOrder(data);
    KpOrderFacts(data);
    forall i | 0 <= i < |data|
      ensures PositionRank(KpOrder(data), i) == RankIn(SortWith(data, KpDesc()), data[i].id)
    {
      RankAgrees(data, KpOrder(data), SortWith(data, KpDesc()), i);
    }
  }

  /** Ranking by id in `sorted` is ranking by index in `order` when `sorted` holds the records
      at the indices `order` and ids are distinct. */
  lemma RankAgrees(data: seq<Record>, order: seq<nat>, sorted: seq<Record>, i: int)
    requires DistinctIds(data) && 0 <= i < |data| && |order| == |sorted|
    requires forall k :: 0 <= k < |order| ==> order[k] < |data| && sorted[k] == data[order[k]]
    requires i in order && NoDup(order)
    ensures PositionRank(order, i) == RankIn(sorted, data[i].id)
  {
    var q := PositionRank(order, i);
    assert sorted[q - 1] == data[i];
    var r := RankIn(sorted, data[i].id);
    SameIdSameIndex(data, order[r - 1], i);
  }

  /** With distinct ids, an id determines its record. */
  lemma SameIdSameIndex(data: seq<Record>, a: int, b: int)
    requires DistinctIds(data) && 0 <= a < |data| && 0 <= b < |data| && data[a].id == data[b].id
    ensures a == b
  {
  }

  // Search, sort and the processed table

  /** `row.name.toLowerCase().includes(lower) || row.id.toLowerCase().includes(lower)`. */
  predicate RecordHit(x: Ranked, lowerTerm: string) {
    Contains(ToLower(x.rec.name), lowerTerm) || Contains(ToLower(x.rec.id), lowerTerm)
  }

  function RecordHitFilter(lowerTerm: string): Ranked -> bool {
    (x: Ranked) => RecordHit(x, lowerTerm)
  }

  /** The search step: with a term, keep the records whose name or id contains it, ignoring case;
      without one, keep every record. Records, ranks included, are kept as they are. */
  function SearchRecords(rows: seq<Ranked>, term: string): (r: seq<Ranked>)
    ensures |r| <= |rows|
    ensures term == "" ==> r == rows
    ensures forall x :: x in r <==> x in rows && (term == "" || RecordHit(x, ToLower(term)))
  {
    if term == "" then rows else Filter(rows, RecordHitFilter(ToLower(term)))
  }

  /** Searching a concatenation searches each part, so the kept records stay in their order. */
  lemma SearchRecordsAppend(a: seq<Ranked>, b: seq<Ranked>, term: string)
    ensures SearchRecords(a + b, term) == SearchRecords(a, term) + SearchRecords(b, term)
  {
    if term != "" {
      FilterAppend(a, b, RecordHitFilter(ToLower(term)));
    }
  }

  /** Each kept record is kept as often as it occurs. */
  lemma SearchRecordsCount(rows: seq<Ranked>, term: string, x: Ranked)
    ensures multiset(SearchRecords(rows, term))[x]
      == if term == "" || RecordHit(x, ToLower(term)) then multiset(rows)[x] else 0
  {
    if term != "" {
      FilterCount(rows, RecordHitFilter(ToLower(term)), x);
    }
  }

  /** `row[key]` for a ranked record: its fields under their JavaScript names; any other key is
      `undefined`. */
  function Field(x: Ranked, key: string): (v: Val)
    ensures key == "rank" ==> v == Num(x.rank)
    ensures key == "kp_gained" ==> v == Num(x.rec.kpGained)
    ensures key == "score" ==> v == Num(x.rec.score)
    ensures key == "name" ==> v == Str(x.rec.name)
  {
    var r := x.rec;
    if key == "rank" then Num(x.rank)
    else if key == "id" then Str(r.id)
    else if key == "name" then Str(r.name)
    else if key == "power" then Num(r.power)
    else if key == "score" then Num(r.score)
    else if key == "kp_gained" then Num(r.kpGained)
    else if key == "dead_gained" then Num(r.deadGained)
    else if key == "t4_gained" then Num(r.t4Gained)
    else if key == "t5_gained" then Num(r.t5Gained)
    else if key == "currentKp" then Num(r.currentKp)
    else if key == "currentDead" then Num(r.currentDead)
    else if key == "initPower" then Num(r.initPower)
    else if key == "initKp" then Num(r.initKp)
    else if key == "powerDrop" then Num(r.powerDrop)
    else Undefined
  }

  function FieldOf(key: string): Ranked -> Val {
    (x: Ranked) => Field(x, key)
  }

  /** The part of the `processedData` memo after ranking: search the ranked records, then sort a
      copy by the chosen column when the sort key is truthy. */
  method SearchAndSort(ranked: seq<Ranked>, term: string, cfg: SortConfig) returns (result: seq<Ranked>)
    ensures multiset(result) == multiset(SearchRecords(ranked, term))
    ensures !HasSortKey(cfg) ==> result == SearchRecords(ranked, term)
    ensures HasSortKey(cfg) ==> forall i, j :: (0 <= i < j < |result| ==>
      var a, b := Field(result[i], cfg.key.value), Field(result[j], cfg.key.value);
      if cfg.dir == Asc then !JsLess(b, a) else !JsLess(a, b))
    ensures forall x :: x in result ==> x in ranked && (term == "" || RecordHit(x, ToLower(term)))
  {
    result := ranked;
    if term != "" {
      result := Filter(result, RecordHitFilter(ToLower(term)));
    }
    if HasSortKey(cfg) {
      var searched := result;
      SortByKey(searched, FieldOf(cfg.key.value), cfg.dir);
      result := SortWith(searched, KeyCmp(FieldOf(cfg.key.value), cfg.dir));
      forall x | x in result
        ensures x in searched
      {
        assert x in multiset(result);
      }
    }
  }

  /** The `processedData` memo with the intended ranks (`WithRanksFixed`): rank the full data
      first, then search, then sort. With distinct ids these are the ranks the source computes
      (`FixedRanksAgree`). */
  method ProcessRecords(data: seq<Record>, term: string, cfg: SortConfig) returns (result: seq<Ranked>)
    ensures multiset(result) == multiset(SearchRecords(WithRanksFixed(data), term))
    ensures !HasSortKey(cfg) ==> result == SearchRecords(WithRanksFixed(data), term)
    ensures HasSortKey(cfg) ==> forall i, j :: (0 <= i < j < |result| ==>
      var a, b := Field(result[i], cfg.key.value), Field(result[j], cfg.key.value);
      if cfg.dir == Asc then !JsLess(b, a) else !JsLess(a, b))
    ensures forall x :: x in result ==> x in WithRanksFixed(data) && (term == "" || RecordHit(x, ToLower(term)))
  {
    result := SearchAndSort(WithRanksFixed(data), term, cfg);
  }

  /** The `processedData` memo as written, with the ranks looked up by id (`WithRanks`). */
  method ProcessRecordsAsWritten(data: seq<Record>, term: string, cfg: SortConfig) returns (result: seq<Ranked>)
    ensures multiset(result) == multiset(SearchRecords(WithRanks(data), term))
    ensures !HasSortKey(cfg) ==> result == SearchRecords(WithRanks(data), term)
    ensures HasSortKey(cfg) ==> forall i, j :: (0 <= i < j < |result| ==>
      var a, b := Field(result[i], cfg.key.value), Field(result[j], cfg.key.value);
      if cfg.dir == Asc then !JsLess(b, a) else !JsLess(a, b))
    ensures forall x :: x in result ==> x in WithRanks(data) && (term == "" || RecordHit(x, ToLower(term)))
  {
    result := SearchAndSort(WithRanks(data), term, cfg);
  }

  /** The rank shown for a processed record is its corrected rank in the full data: a number in
      1..N that search and sort do not change. */
  lemma ProcessedRanks(data: seq<Record>, result: seq<Ranked>, term: string)
    requires forall x :: x in result ==> x in WithRanksFixed(data)
    ensures forall x :: x in result ==>
      1 <= x.rank <= |data| && exists i :: 0 <= i < |data| && x == Ranked(data[i], PositionRank(KpOrder(data), i))
  {
    FixedRanksDistinct(data);
    forall x | x in result
      ensures 1 <= x.rank <= |data|
      ensures exists i :: 0 <= i < |data| && x == Ranked(data[i], PositionRank(KpOrder(data), i))
    {
      var i :| 0 <= i < |data| && WithRanksFixed(data)[i] == x;
    }
  }

  // Completion

  /** The completion percentage of the detail view: KP gained against a target of three times the
      initial power, capped at 100 and 0 without a positive initial power. */
  function Completion(kpGained: int, initPower: int): (r: real)
    ensures r <= 100.0
    ensures initPower <= 0 ==> r == 0.0
    ensures initPower > 0 ==> (r == 100.0 <==> kpGained >= 3 * initPower)
    ensures r < 0.0 <==> initPower > 0 && kpGained < 0
    ensures initPower > 0 && 0 <= kpGained <= 3 * initPower ==> r * (3 * initPower) as real == kpGained as real * 100.0
  {
    if initPower > 0 then
      var c := (kpGained as real / (initPower * 3) as real) * 100.0;
      if c < 100.0 then c else 100.0
    else 0.0
  }

  /** The tracker's table state: ten rows a page, sorted by score, descending, at first. */
  method NewControls() returns (c: Controls)
    ensures fresh(c)
    ensures c.Valid()
    ensures c.page == 1 && c.perPage == ItemsPerPage && c.searchTerm == ""
    ensures c.sort == SortConfig(Some("score"), Desc)
  {
    c := new Controls(ItemsPerPage, SortConfig(Some("score"), Desc));
  }
}
