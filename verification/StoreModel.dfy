/**
The state that every backend keeps, with the contract of the Backend interface as functions on it:
write-once sealed snapshots, a write-once memo and an append-only replay log.
*/
module StoreModel {
  import opened Basics

  datatype SnapshotRow = SnapshotRow(timeSlice: string, data: string, sealed: bool)

  datatype MemoKey = MemoKey(snapshotId: string, dominoId: string, inputHash: string)

  datatype MemoValue = MemoValue(outputHash: string, output: string)

  datatype ReplayRow = ReplayRow(
    snapshotId: string, dominoId: string, inputHash: string, outputHash: string, output: string,
    reused: bool, prevLink: string, link: string)
  {
    function Key(): MemoKey {
      MemoKey(snapshotId, dominoId, inputHash)
    }

    function Value(): MemoValue {
      MemoValue(outputHash, output)
    }
  }

  datatype Store = Store(
    snapshots: map<string, SnapshotRow>,
    memo: map<MemoKey, MemoValue>,
    log: seq<ReplayRow>)

  const EMPTY := Store(map[], map[], [])

  // ---- The write-once guards ----

  function GetSnapshot(st: Store, id: string): Option<SnapshotRow> {
    if id in st.snapshots then Some(st.snapshots[id]) else None
  }

  function SnapshotData(st: Store, id: string): Option<(string, bool)> {
    var row := GetSnapshot(st, id);
    if row.Some? then Some((row.value.data, row.value.sealed)) else None
  }

  function LookupMemo(st: Store, key: MemoKey): Option<MemoValue> {
    if key in st.memo then Some(st.memo[key]) else None
  }

  /** A sealed row may only be written again with the same content, and never unsealed. */
  predicate RefusesSealedMutation(existing: Option<SnapshotRow>, row: SnapshotRow) {
    existing.Some? && existing.value.sealed && existing.value != row
  }

  predicate RefusesMemoConflict(existing: Option<MemoValue>, value: MemoValue) {
    existing.Some? && existing.value != value
  }

  // ---- Operations ----

  function SaveSnapshot(st: Store, id: string, row: SnapshotRow): Result<Store> {
    var existing := GetSnapshot(st, id);
    if RefusesSealedMutation(existing, row) then Failure(SealedOverwrite)
    else if existing.Some? && existing.value.sealed then Success(st)
    else Success(st.(snapshots := st.snapshots[id := row]))
  }

  function SaveResult(st: Store, row: ReplayRow): Result<Store> {
    var existing := LookupMemo(st, row.Key());
    if row.reused then Success(st.(log := st.log + [row]))
    else if RefusesMemoConflict(existing, row.Value()) then Failure(MemoConflict)
    else Success(Store(st.snapshots, st.memo[row.Key() := row.Value()], st.log + [row]))
  }

  /** ListReplay. */
  function Rows(st: Store, id: string): seq<ReplayRow> {
    Filter((r: ReplayRow) => r.snapshotId == id, st.log)
  }

  function LastRow(rows: seq<ReplayRow>, dominoId: string): (r: Option<ReplayRow>)
    ensures r.Some? ==> r.value in rows && r.value.dominoId == dominoId
    ensures r.None? <==> forall row :: row in rows ==> row.dominoId != dominoId
  {
    if rows == [] then None
    else
      var last := rows[|rows| - 1];
      assert rows == rows[..|rows| - 1] + [last];
      if last.dominoId == dominoId then Some(last) else LastRow(rows[..|rows| - 1], dominoId)
  }

  /** GetLatestResult: the last row of the spine for a domino. */
  function LatestResult(st: Store, id: string, dominoId: string): Option<ReplayRow> {
    LastRow(Rows(st, id), dominoId)
  }

  function LatestFields(st: Store, id: string, dominoId: string): Option<(string, MemoValue)> {
    var row := LatestResult(st, id, dominoId);
    if row.Some? then Some((row.value.inputHash, row.value.Value())) else None
  }

  function SpineHead(rows: seq<ReplayRow>, id: string): string {
    if rows != [] && rows[|rows| - 1].link != "" then rows[|rows| - 1].link else id
  }

  lemma {:induction false} RowsAppend(a: Store, b: Store, rows: seq<ReplayRow>, id: string, other: string)
    requires b.log == a.log + rows
    requires forall r :: r in rows ==> r.snapshotId == id
    ensures Rows(b, other) == Rows(a, other) + if other == id then rows else []
  {
    var keep := (r: ReplayRow) => r.snapshotId == other;
    FilterAppend(keep, a.log, rows);
    if other == id {
      FilterAll(keep, rows);
    } else {
      FilterNone(keep, rows);
    }
  }

  lemma {:induction false} LastRowAppend(a: seq<ReplayRow>, b: seq<ReplayRow>, dominoId: string)
    ensures LastRow(a + b, dominoId) ==
            if LastRow(b, dominoId).Some? then LastRow(b, dominoId) else LastRow(a, dominoId)
  {
    if b == [] {
      assert a + b == a;
    } else {
      var n := |b| - 1;
      assert (a + b)[..|a + b| - 1] == a + b[..n];
      LastRowAppend(a, b[..n], dominoId);
    }
  }

  /** In rows with distinct domino names, the last row of a name is the only one. */
  lemma {:induction false} LastRowDistinct(rows: seq<ReplayRow>, k: nat)
    requires k < |rows|
    requires forall i, j :: 0 <= i < j < |rows| ==> rows[i].dominoId != rows[j].dominoId
    ensures LastRow(rows, rows[k].dominoId) == Some(rows[k])
  {
    var n := |rows| - 1;
    if k < n {
      assert rows[n].dominoId != rows[k].dominoId;
      LastRowDistinct(rows[..n], k);
    }
  }

  /** The state after a write that may have been refused, and the error it returned. */
  function Committed(st: Store, r: Result<Store>): Store {
    if r.Success? then r.value else st
  }

  function FaultOf<T>(r: Result<T>): Option<Fault> {
    if r.Success? then None else Some(r.fault)
  }

  function Unless<T>(err: Option<Fault>, value: T): Result<T> {
    if err.Some? then Failure(err.value) else Success(value)
  }

  method LastSpineResult(rows: seq<ReplayRow>, dominoId: string) returns (r: Option<ReplayRow>)
    ensures r == LastRow(rows, dominoId)
  {
    var i := |rows|;
    assert rows[..i] == rows;
    while i > 0
      invariant 0 <= i <= |rows|
      invariant LastRow(rows, dominoId) == LastRow(rows[..i], dominoId)
    {
      i := i - 1;
      assert rows[..i + 1][..i] == rows[..i];
      if rows[i].dominoId == dominoId {
        return Some(rows[i]);
      }
    }
    assert rows[..0] == [];
    return None;
  }

  /** A snapshot that is saved is read back, and no other; it is refused exactly when other content is sealed. */
  lemma {:induction false} SavedIsRead(st: Store, id: string, row: SnapshotRow, other: string)
    ensures var r := SaveSnapshot(st, id, row);
      && (r.Failure? <==> id in st.snapshots && st.snapshots[id].sealed && st.snapshots[id] != row)
      && (r.Success? ==>
            && GetSnapshot(r.value, other) == (if other == id then Some(row) else GetSnapshot(st, other))
            && r.value.memo == st.memo && r.value.log == st.log)
  {
  }

  /** A result that is saved is the latest one of its domino, and found under its key unless it was reused. */
  lemma {:induction false} ResultIsRead(st: Store, row: ReplayRow, id: string, dominoId: string, key: MemoKey)
    ensures var r := SaveResult(st, row);
      && (r.Failure? <==> !row.reused && row.Key() in st.memo && st.memo[row.Key()] != row.Value())
      && (r.Success? ==>
            && LatestResult(r.value, id, dominoId) ==
               (if row.snapshotId == id && row.dominoId == dominoId then Some(row) else LatestResult(st, id, dominoId))
            && LookupMemo(r.value, key) == (if key == row.Key() && !row.reused then Some(row.Value()) else LookupMemo(st, key))
            && r.value.snapshots == st.snapshots)
  {
    if SaveResult(st, row).Success? {
      RowsAppend(st, SaveResult(st, row).value, [row], row.snapshotId, id);
      assert [row][..0] == [];
      LastRowAppend(Rows(st, id), if row.snapshotId == id then [row] else [], dominoId);
    }
  }

  // ---- Histories ----

  datatype Op = PutSnapshot(id: string, snapshot: SnapshotRow) | PutResult(result: ReplayRow)

  /** A refused write leaves the store as it was. */
  function Apply(st: Store, op: Op): Store {
    match op
    case PutSnapshot(id, row) => Committed(st, SaveSnapshot(st, id, row))
    case PutResult(row) => Committed(st, SaveResult(st, row))
  }

  function ApplyAll(st: Store, ops: seq<Op>): Store
    decreases |ops|
  {
    if ops == [] then st else ApplyAll(Apply(st, ops[0]), ops[1..])
  }

  ghost predicate Reachable(st: Store) {
    exists ops :: ApplyAll(EMPTY, ops) == st
  }

  /** What no later write can undo. */
  ghost predicate Extends(a: Store, b: Store) {
    && (forall id :: id in a.snapshots && a.snapshots[id].sealed ==>
          id in b.snapshots && b.snapshots[id] == a.snapshots[id])
    && (forall k :: k in a.memo ==> k in b.memo && b.memo[k] == a.memo[k])
    && a.log <= b.log
  }

  /** Write-once: whatever is written later, sealed snapshots, memo entries and log rows stay. */
  lemma {:induction false} HistoryExtends(st: Store, ops: seq<Op>)
    ensures Extends(st, ApplyAll(st, ops))
    decreases |ops|
  {
    if ops != [] {
      HistoryExtends(Apply(st, ops[0]), ops[1..]);
    }
  }

  lemma {:induction false} HistoryAppend(st: Store, a: seq<Op>, b: seq<Op>)
    ensures ApplyAll(st, a + b) == ApplyAll(ApplyAll(st, a), b)
    decreases |a|
  {
    if a == [] {
      assert a + b == b;
    } else {
      assert (a + b)[1..] == a[1..] + b;
      HistoryAppend(Apply(st, a[0]), a[1..], b);
    }
  }

  /** The memo and the evaluated (not reused) rows of the log hold the same entries. */
  ghost predicate MemoLogAgree(st: Store) {
    && (forall k :: k in st.memo ==> exists i :: IsEvaluation(st.log, i, k, st.memo[k]))
    && (forall i :: 0 <= i < |st.log| && !st.log[i].reused ==> MemoHas(st.memo, st.log[i]))
  }

  ghost predicate IsEvaluation(log: seq<ReplayRow>, i: int, k: MemoKey, v: MemoValue) {
    0 <= i < |log| && !log[i].reused && log[i].Key() == k && log[i].Value() == v
  }

  predicate MemoHas(memo: map<MemoKey, MemoValue>, row: ReplayRow) {
    row.Key() in memo && memo[row.Key()] == row.Value()
  }

  lemma {:induction false} AppendKeepsMemoLogAgree(st: Store, row: ReplayRow)
    requires MemoLogAgree(st)
    ensures SaveResult(st, row).Success? ==> MemoLogAgree(SaveResult(st, row).value)
  {
    if SaveResult(st, row).Success? {
      var st' := SaveResult(st, row).value;
      forall k | k in st'.memo
        ensures exists i :: IsEvaluation(st'.log, i, k, st'.memo[k])
      {
        if k in st.memo {
          var i :| IsEvaluation(st.log, i, k, st.memo[k]);
          assert IsEvaluation(st'.log, i, k, st'.memo[k]);
        } else {
          assert IsEvaluation(st'.log, |st.log|, k, st'.memo[k]);
        }
      }
      forall i | 0 <= i < |st'.log| && !st'.log[i].reused
        ensures MemoHas(st'.memo, st'.log[i])
      {
        if i < |st.log| {
          assert MemoHas(st.memo, st.log[i]);
        }
      }
    }
  }

  lemma {:induction false} HistoryMemoLogAgree(st: Store, ops: seq<Op>)
    requires MemoLogAgree(st)
    ensures MemoLogAgree(ApplyAll(st, ops))
    decreases |ops|
  {
    if ops != [] {
      if ops[0].PutResult? {
        AppendKeepsMemoLogAgree(st, ops[0].result);
      }
      HistoryMemoLogAgree(Apply(st, ops[0]), ops[1..]);
    }
  }

  lemma {:induction false} ReachableMemoLogAgree(st: Store)
    requires Reachable(st)
    ensures MemoLogAgree(st)
  {
    var ops :| ApplyAll(EMPTY, ops) == st;
    HistoryMemoLogAgree(EMPTY, ops);
  }

  /** Where the log has no row for a domino, neither has the memo: a fallback from log to memo is dead. */
  lemma {:induction false} NoRowNoMemo(st: Store, id: string, dominoId: string)
    requires MemoLogAgree(st)
    requires LatestResult(st, id, dominoId).None?
    ensures forall k :: k in st.memo ==> !(k.snapshotId == id && k.dominoId == dominoId)
  {
    forall k | k in st.memo
      ensures !(k.snapshotId == id && k.dominoId == dominoId)
    {
      var i :| IsEvaluation(st.log, i, k, st.memo[k]);
      FilterMembers((r: ReplayRow) => r.snapshotId == id, st.log);
      assert st.log[i] in st.log;
    }
  }
}
