/** What a run reports about its work: which steps were reused, and how many were evaluated. */
module Reuse {
  import opened Basics
  import opened Runtime
  import opened StoreModel
  import opened Workflows
  import opened EngineSpec
  import opened Pinning

  function ReusedRows(rows: seq<ReplayRow>): seq<ReplayRow> {
    Filter((r: ReplayRow) => r.reused, rows)
  }

  /** Exactly the rows whose key was in this memo are marked as reused. */
  ghost predicate MarksHits(memo: map<MemoKey, MemoValue>, rows: seq<ReplayRow>) {
    forall i :: 0 <= i < |rows| ==> (rows[i].reused <==> rows[i].Key() in memo)
  }

  lemma {:induction false} CountIsReused(rows: seq<ReplayRow>)
    ensures CountReused(rows) == |ReusedRows(rows)|
  {
    if rows != [] {
      var n := |rows| - 1;
      CountIsReused(rows[..n]);
      assert rows == rows[..n] + [rows[n]];
      FilterAppend((r: ReplayRow) => r.reused, rows[..n], [rows[n]]);
      assert [rows[n]][1..] == [];
    }
  }

  /** The rows from cursor c to cursor d mark the hits in this memo, and the counter counted the others. */
  ghost predicate Worked(memo: map<MemoKey, MemoValue>, c: Cursor, rows: seq<ReplayRow>, d: Cursor) {
    d.entries == c.entries + rows && MarksHits(memo, rows) && d.ticks + |ReusedRows(rows)| == c.ticks + |rows|
  }

  lemma {:induction false} WorkedCons(memo: map<MemoKey, MemoValue>, c: Cursor, row: ReplayRow, mid: Cursor, rows: seq<ReplayRow>, d: Cursor)
    requires mid.entries == c.entries + [row] && (row.reused <==> row.Key() in memo) && mid.ticks == c.ticks + (if row.reused then 0 else 1)
    requires Worked(memo, mid, rows, d)
    ensures Worked(memo, c, [row] + rows, d)
  {
    assert ([row] + rows)[1..] == rows;
    assert mid.entries + rows == c.entries + ([row] + rows);
  }

  /** One step: it is reused exactly when its key is in the memo, and evaluated otherwise. */
  lemma {:induction false} StepReuse(rt: Runtime, wf: Workflow, id: string, name: string, c: Cursor) returns (row: ReplayRow)
    requires Step(rt, wf, id, name, c).fault.None?
    ensures var d := Step(rt, wf, id, name, c).cursor;
      && d.entries == c.entries + [row] && row.dominoId == name
      && (row.reused <==> row.Key() in c.store.memo)
      && d.ticks == c.ticks + (if row.reused then 0 else 1)
      && forall k: MemoKey :: k.dominoId != name ==> (k in d.store.memo <==> k in c.store.memo)
  {
    row := Step(rt, wf, id, name, c).cursor.entries[|c.entries|];
  }

  /** The steps of distinct names never hit what the steps before them added to the memo. */
  lemma {:induction false} StepsReuse(rt: Runtime, wf: Workflow, id: string, names: seq<string>, c: Cursor, memo: map<MemoKey, MemoValue>)
    returns (rows: seq<ReplayRow>)
    requires Distinct(names) && Steps(rt, wf, id, names, c).fault.None?
    requires forall k: MemoKey :: k.dominoId in names ==> (k in c.store.memo <==> k in memo)
    ensures Worked(memo, c, rows, Steps(rt, wf, id, names, c).cursor)
    decreases |names|
  {
    rows := [];
    if names != [] {
      var row := StepReuse(rt, wf, id, names[0], c);
      var mid := Step(rt, wf, id, names[0], c).cursor;
      assert forall n :: n in names[1..] ==> n in names && n != names[0];
      var rest := StepsReuse(rt, wf, id, names[1..], mid, memo);
      rows := [row] + rest;
      WorkedCons(memo, c, row, mid, rest, Steps(rt, wf, id, names, c).cursor);
    }
  }

  /**
  A successful run marks exactly the steps whose keys were in the memo when it started, and reports as many
  reuses as marks and as many evaluations as the executor made.
  */
  lemma {:induction false} WorkIsCounted(rt: Runtime, ticks: nat, st: Store, wf: Workflow)
    requires JsonLaws(rt) && DigestLaws(rt)
    requires Run(rt, ticks, st, wf).result.Success?
    ensures var o := Run(rt, ticks, st, wf);
      var r := o.result.value;
      && MarksHits(st.memo, r.entries)
      && r.reuses == |ReusedRows(r.entries)|
      && o.ticks == ticks + r.evaluations && r.evaluations + r.reuses == |wf.chain|
  {
    RunEstablishes(rt, ticks, st, wf);
    var c := RunContent(rt, st, wf);
    var start := RunStart(rt, ticks, st, wf);
    var rows := StepsReuse(rt, wf, c.id, wf.chain, start, st.memo);
    assert [] + rows == rows;
    CountIsReused(rows);
  }

  /** The cursor from which a successful run starts its loop. */
  lemma {:induction false} RunStart(rt: Runtime, ticks: nat, st: Store, wf: Workflow) returns (start: Cursor)
    requires JsonLaws(rt) && DigestLaws(rt)
    requires Run(rt, ticks, st, wf).result.Success?
    ensures Prepare(rt, st, wf.snapshot).Success? && wf.chain != []
    ensures var c := RunContent(rt, st, wf);
      var o := Run(rt, ticks, st, wf);
      var p := Steps(rt, wf, c.id, wf.chain, start);
      && start.ticks == ticks && start.entries == [] && start.store.memo == st.memo
      && p.fault.None? && o.ticks == p.cursor.ticks
      && o.result.value == FinishAt(c.id, wf.chain[|wf.chain| - 1], p.cursor)
  {
    var c := RunContent(rt, st, wf);
    var saved := SaveSnapshot(st, c.id, SnapshotRow(wf.snapshot.timeSlice, c.data, true)).value;
    start := Cursor(saved, ticks, map[], c.id, []);
    RunChainFrom(rt, ticks, saved, wf, c.id, Steps(rt, wf, c.id, wf.chain, start));
  }
}
