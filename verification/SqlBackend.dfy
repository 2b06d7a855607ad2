/** The backend over three SQL tables. Queries are functions of a table; rows are in the order of their id. */
module SqlBackend {
  import opened Basics
  import opened StoreModel

  /** A row of domino_results, unique in (snapshot_id, domino_id, input_hash). */
  datatype ResultRow = ResultRow(key: MemoKey, value: MemoValue)

  /** SELECT output_hash, output ... WHERE snapshot_id = ? AND domino_id = ? AND input_hash = ? */
  function SelectKey(results: seq<ResultRow>, key: MemoKey): Option<MemoValue> {
    if results == [] then None
    else if results[0].key == key then Some(results[0].value)
    else SelectKey(results[1..], key)
  }

  /** SELECT ... WHERE snapshot_id = ? AND domino_id = ? ORDER BY id DESC LIMIT 1 on domino_results. */
  function SelectLatest(results: seq<ResultRow>, id: string, dominoId: string): (r: Option<ResultRow>)
    ensures r.Some? ==> r.value in results && r.value.key.snapshotId == id && r.value.key.dominoId == dominoId
  {
    if results == [] then None
    else
      var last := results[|results| - 1];
      if last.key.snapshotId == id && last.key.dominoId == dominoId then Some(last)
      else SelectLatest(results[..|results| - 1], id, dominoId)
  }

  /** The map that domino_results stands for. */
  function MemoTable(results: seq<ResultRow>): map<MemoKey, MemoValue> {
    if results == [] then map[]
    else
      var n := |results| - 1;
      MemoTable(results[..n])[results[n].key := results[n].value]
  }

  ghost predicate UniqueKeys(results: seq<ResultRow>) {
    forall i, j :: 0 <= i < j < |results| ==> results[i].key != results[j].key
  }

  lemma {:induction false} MemoTableKeys(results: seq<ResultRow>)
    ensures forall k :: k in MemoTable(results) <==> exists i :: 0 <= i < |results| && results[i].key == k
    decreases |results|
  {
    if results != [] {
      var n := |results| - 1;
      MemoTableKeys(results[..n]);
      forall k ensures k in MemoTable(results) <==> exists i :: 0 <= i < |results| && results[i].key == k {
        if k in MemoTable(results[..n]) {
          var i :| 0 <= i < n && results[..n][i].key == k;
          assert results[i].key == k;
        }
        if i :| 0 <= i < |results| && results[i].key == k {
          assert i < n ==> results[..n][i].key == k;
        }
      }
    }
  }

  lemma {:induction false} MemoTableAt(results: seq<ResultRow>, i: nat)
    requires UniqueKeys(results) && i < |results|
    ensures results[i].key in MemoTable(results) && MemoTable(results)[results[i].key] == results[i].value
    decreases |results|
  {
    var n := |results| - 1;
    if i < n {
      MemoTableAt(results[..n], i);
      assert results[i].key != results[n].key;
    }
  }

  lemma {:induction false} SelectKeyFinds(results: seq<ResultRow>, key: MemoKey)
    ensures SelectKey(results, key).None? ==> forall i :: 0 <= i < |results| ==> results[i].key != key
    ensures SelectKey(results, key).Some? ==>
              exists i :: 0 <= i < |results| && results[i] == ResultRow(key, SelectKey(results, key).value)
  {
    if results != [] {
      var rest := results[1..];
      SelectKeyFinds(rest, key);
      if results[0].key == key {
        assert results[0] == ResultRow(key, SelectKey(results, key).value);
      } else if SelectKey(rest, key).Some? {
        var i :| 0 <= i < |rest| && rest[i] == ResultRow(key, SelectKey(rest, key).value);
        assert results[i + 1] == rest[i];
      } else {
        forall i | 0 <= i < |results| ensures results[i].key != key {
          assert i > 0 ==> results[i] == rest[i - 1];
        }
      }
    }
  }

  /** The keyed query reads the map. */
  lemma {:induction false} SelectKeyIsLookup(results: seq<ResultRow>, key: MemoKey)
    requires UniqueKeys(results)
    ensures SelectKey(results, key) ==
            if key in MemoTable(results) then Some(MemoTable(results)[key]) else None
  {
    SelectKeyFinds(results, key);
    MemoTableKeys(results);
    if SelectKey(results, key).Some? {
      var i :| 0 <= i < |results| && results[i] == ResultRow(key, SelectKey(results, key).value);
      MemoTableAt(results, i);
    }
  }

  /** An insert of a new key extends the map by that key. */
  lemma {:induction false} InsertResult(results: seq<ResultRow>, key: MemoKey, value: MemoValue)
    requires UniqueKeys(results) && key !in MemoTable(results)
    ensures var more := results + [ResultRow(key, value)];
      UniqueKeys(more) && MemoTable(more) == MemoTable(results)[key := value]
  {
    MemoTableKeys(results);
    var more := results + [ResultRow(key, value)];
    assert more[..|more| - 1] == results;
  }

  class SqlStore {
    var snapshots: map<string, SnapshotRow>
    var results: seq<ResultRow>
    var replay: seq<ReplayRow>

    ghost predicate Valid()
      reads this
    {
      UniqueKeys(results) && MemoLogAgree(State())
    }

    ghost function State(): Store
      reads this
    {
      Store(snapshots, MemoTable(results), replay)
    }

    constructor ()
      ensures Valid() && State() == EMPTY
    {
      snapshots, results, replay := map[], [], [];
    }

    method GetSnapshot(id: string) returns (r: Option<SnapshotRow>)
      requires Valid()
      ensures r == StoreModel.GetSnapshot(State(), id)
    {
      r := if id in snapshots then Some(snapshots[id]) else None;
    }

    method GetSnapshotData(id: string) returns (r: Option<(string, bool)>)
      requires Valid()
      ensures r == SnapshotData(State(), id)
    {
      var row := GetSnapshot(id);
      r := if row.Some? then Some((row.value.data, row.value.sealed)) else None;
    }

    method SaveSnapshot(id: string, row: SnapshotRow) returns (err: Option<Fault>)
      requires Valid()
      modifies this
      ensures Valid()
      ensures err == FaultOf(StoreModel.SaveSnapshot(old(State()), id, row))
      ensures State() == Committed(old(State()), StoreModel.SaveSnapshot(old(State()), id, row))
    {
      var existing := GetSnapshot(id);
      if RefusesSealedMutation(existing, row) {
        return Some(SealedOverwrite);
      }
      if existing.Some? && existing.value.sealed {
        return None;
      }
      snapshots := snapshots[id := row];
      err := None;
    }

    method LookupMemo(key: MemoKey) returns (r: Option<MemoValue>)
      requires Valid()
      ensures r == StoreModel.LookupMemo(State(), key)
    {
      SelectKeyIsLookup(results, key);
      r := SelectKey(results, key);
    }

    method SaveResult(row: ReplayRow) returns (err: Option<Fault>)
      requires Valid()
      modifies this
      ensures Valid()
      ensures err == FaultOf(StoreModel.SaveResult(old(State()), row))
      ensures State() == Committed(old(State()), StoreModel.SaveResult(old(State()), row))
    {
      AppendKeepsMemoLogAgree(State(), row);
      if !row.reused {
        var stored := LookupMemo(row.Key());
        if RefusesMemoConflict(stored, row.Value()) {
          return Some(MemoConflict);
        }
        if stored.None? {
          InsertResult(results, row.Key(), row.Value());
          results := results + [ResultRow(row.Key(), row.Value())];
        } else {
          assert old(State()).memo[row.Key() := row.Value()] == old(State()).memo;
        }
      }
      replay := replay + [row];
      err := None;
    }

    method ListReplay(id: string) returns (rows: seq<ReplayRow>)
      requires Valid()
      ensures rows == Rows(State(), id)
    {
      rows := Filter((r: ReplayRow) => r.snapshotId == id, replay);
    }

    /** Without a replay row, domino_results is asked; it never has a row then. */
    method GetLatestResult(id: string, dominoId: string) returns (r: Option<(string, MemoValue)>)
      requires Valid()
      ensures r == LatestFields(State(), id, dominoId)
    {
      var rows := ListReplay(id);
      var row := LastSpineResult(rows, dominoId);
      if row.Some? {
        return Some((row.value.inputHash, row.value.Value()));
      }
      var fallback := SelectLatest(results, id, dominoId);
      r := if fallback.Some? then Some((fallback.value.key.inputHash, fallback.value.value)) else None;
      NoRowNoMemo(State(), id, dominoId);
      MemoTableKeys(results);
    }
  }
}
