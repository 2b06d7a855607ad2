/** Materialize copies the snapshot and the last spine row of each domino to another store. */
module Replica {
  import opened Basics
  import opened Runtime
  import opened StoreModel
  import opened SqlBackend
  import opened Spine
  import opened Workflows
  import opened EngineSpec
  import opened MemoTransparency
  import opened Pinning

  datatype Copy = Copy(target: Store, count: nat, fault: Option<Fault>)

  /** The loop over the domino chain. */
  function CopyRows(target: Store, rows: seq<ReplayRow>, chain: seq<string>, count: nat): Copy
    decreases |chain|
  {
    if chain == [] then Copy(target, count, None)
    else
      var row := LastRow(rows, chain[0]);
      if row.None? then Copy(target, count, Some(NotFound))
      else
        var saved := SaveResult(target, row.value.(reused := false));
        if saved.Failure? then Copy(target, count, Some(saved.fault))
        else CopyRows(saved.value, rows, chain[1..], count + 1)
  }

  function Materialize(source: Store, target: Store, id: string, chain: seq<string>): Copy {
    var row := GetSnapshot(source, id);
    if id == "" then Copy(target, 0, Some(MissingSnapshotId))
    else if row.None? then Copy(target, 0, Some(NotFound))
    else if !row.value.sealed then Copy(target, 0, Some(NotSealed))
    else
      var saved := SaveSnapshot(target, id, row.value);
      if saved.Failure? then Copy(target, 0, Some(saved.fault))
      else CopyRows(saved.value, Rows(source, id), chain, 0)
  }

  function RowFromLatest(id: string, dominoId: string, latest: Option<(string, MemoValue)>): Option<ReplayRow> {
    if latest.None? then None
    else Some(ReplayRow(id, dominoId, latest.value.0, latest.value.1.outputHash, latest.value.1.output, false, "", ""))
  }

  /** The row that is copied for a domino; where the listed rows have none, GetLatestResult is asked. */
  method RowToCopy(source: SqlStore, rows: seq<ReplayRow>, id: string, dominoId: string) returns (row: Option<ReplayRow>)
    requires source.Valid() && rows == Rows(source.State(), id)
    ensures row == LastRow(rows, dominoId)
  {
    row := LastSpineResult(rows, dominoId);
    if row.None? {
      var latest := source.GetLatestResult(id, dominoId);
      row := RowFromLatest(id, dominoId, latest);
    }
  }

  method MaterializeStores(source: SqlStore, target: SqlStore, id: string, chain: seq<string>) returns (count: nat, fault: Option<Fault>)
    requires source.Valid() && target.Valid() && source != target
    modifies target
    ensures target.Valid()
    ensures Copy(target.State(), count, fault) == Materialize(source.State(), old(target.State()), id, chain)
  {
    count := 0;
    if id == "" {
      return 0, Some(MissingSnapshotId);
    }
    var row := source.GetSnapshot(id);
    if row.None? {
      return 0, Some(NotFound);
    }
    if !row.value.sealed {
      return 0, Some(NotSealed);
    }
    fault := target.SaveSnapshot(id, SnapshotRow(row.value.timeSlice, row.value.data, true));
    if fault.Some? {
      return;
    }
    var rows := source.ListReplay(id);
    ghost var start := target.State();
    for i := 0 to |chain|
      invariant target.Valid() && source.Valid() && source.State() == old(source.State())
      invariant CopyRows(start, rows, chain, 0) == CopyRows(target.State(), rows, chain[i..], count)
    {
      assert chain[i..][1..] == chain[i + 1..];
      var rec := RowToCopy(source, rows, id, chain[i]);
      if rec.None? {
        return count, Some(NotFound);
      }
      FilterMembers((r: ReplayRow) => r.snapshotId == id, source.State().log);
      fault := target.SaveResult(ReplayRow(id, rec.value.dominoId, rec.value.inputHash, rec.value.outputHash, rec.value.output,
                                           false, rec.value.prevLink, rec.value.link));
      if fault.Some? {
        return;
      }
      count := count + 1;
    }
    return count, None;
  }

  // ---- A chain that was just run ----

  predicate Avoids(ops: seq<Op>, id: string) {
    forall op :: op in ops && op.PutResult? ==> op.result.snapshotId != id
  }

  /** Writes of results for other snapshots, and any snapshot writes, leave the log of this one alone. */
  lemma {:induction false} AvoidingKeepsRows(st: Store, ops: seq<Op>, id: string)
    requires Avoids(ops, id)
    ensures Rows(ApplyAll(st, ops), id) == Rows(st, id)
    decreases |ops|
  {
    if ops != [] {
      var op := ops[0];
      assert op in ops;
      if op.PutResult? && SaveResult(st, op.result).Success? {
        RowsAppend(st, Apply(st, op), [op.result], op.result.snapshotId, id);
      }
      AvoidingKeepsRows(Apply(st, op), ops[1..], id);
    }
  }

  /** The last rows of the dominos of a chain that was run last are the entries of that run. */
  lemma {:induction false} LastRowsAreEntries(rt: Runtime, ticks: nat, st: Store, wf: Workflow, ops: seq<Op>, i: nat)
    requires JsonLaws(rt) && DigestLaws(rt)
    requires Run(rt, ticks, st, wf).result.Success? && i < |wf.chain|
    requires Avoids(ops, Run(rt, ticks, st, wf).result.value.snapshotId)
    ensures var o := Run(rt, ticks, st, wf);
      |o.result.value.entries| == |wf.chain| &&
      LatestResult(ApplyAll(o.store, ops), o.result.value.snapshotId, wf.chain[i]) == Some(o.result.value.entries[i])
  {
    var o := Run(rt, ticks, st, wf);
    var id, entries := o.result.value.snapshotId, o.result.value.entries;
    RunEstablishes(rt, ticks, st, wf);
    TraceVerifies(rt, wf, id, RunContent(rt, st, wf).value, wf.chain, map[], id, entries);
    AvoidingKeepsRows(o.store, ops, id);
    RowsAppend(st, o.store, entries, id, id);
    LastRowAppend(Rows(st, id), entries, wf.chain[i]);
    LastRowDistinct(entries, i);
  }

  /** Copying rows whose last row per name is known: the target gains exactly these rows. */
  lemma {:induction false} CopyRowsCarries(target: Store, rows: seq<ReplayRow>, chain: seq<string>, entries: seq<ReplayRow>, count: nat)
    requires |entries| == |chain|
    requires forall i :: 0 <= i < |chain| ==> LastRow(rows, chain[i]) == Some(entries[i])
    ensures var c := CopyRows(target, rows, chain, count);
      c.fault.None? ==> c.count == count + |chain| && Appended(target, c.target, Forget(entries))
    decreases |chain|
  {
    var c := CopyRows(target, rows, chain, count);
    if chain == [] {
      assert Forget(entries) == [];
    } else if c.fault.None? {
      var row := entries[0].(reused := false);
      var next := CopiesFirst(target, rows, chain, count, row);
      CopyRowsCarries(next, rows, chain[1..], entries[1..], count + 1);
      AppendedTwice(target, next, c.target, row, Forget(entries[1..]));
      assert Forget(entries) == [row] + Forget(entries[1..]);
    }
  }

  /** A copy that succeeds has saved its first row and goes on from there. */
  lemma {:induction false} CopiesFirst(target: Store, rows: seq<ReplayRow>, chain: seq<string>, count: nat, row: ReplayRow) returns (next: Store)
    requires chain != [] && CopyRows(target, rows, chain, count).fault.None?
    requires var last := LastRow(rows, chain[0]);
      last.Some? && row == last.value.(reused := false)
    ensures Appended(target, next, [row])
    ensures CopyRows(target, rows, chain, count) == CopyRows(next, rows, chain[1..], count + 1)
  {
    next := SaveResult(target, row).value;
  }

  lemma {:induction false} CoversForgotten(memo: map<MemoKey, MemoValue>, rows: seq<ReplayRow>)
    requires Covers(memo, Forget(rows))
    ensures Covers(memo, rows)
  {
    forall r | r in rows
      ensures MemoHas(memo, r)
    {
      var i :| 0 <= i < |rows| && rows[i] == r;
      assert Forget(rows)[i] in Forget(rows) && MemoHas(memo, Forget(rows)[i]);
    }
  }

  lemma {:induction false} ForgottenVerifies(digest: string -> string, root: string, rows: seq<ReplayRow>)
    requires Verifies(digest, root, rows)
    ensures Verifies(digest, root, Forget(rows)) && Head(root, Forget(rows)) == Head(root, rows)
    decreases |rows|
  {
    if rows != [] {
      var n := |rows| - 1;
      ForgottenVerifies(digest, root, rows[..n]);
      assert Forget(rows)[..n] == Forget(rows[..n]);
    }
  }

  /** The source holds the sealed snapshot, and its last row for each name of the chain is the entry. */
  ghost predicate SourceHas(source: Store, id: string, row: SnapshotRow, chain: seq<string>, entries: seq<ReplayRow>) {
    && GetSnapshot(source, id) == Some(row) && row.sealed
    && |entries| == |chain|
    && forall i :: 0 <= i < |chain| ==> LastRow(Rows(source, id), chain[i]) == Some(entries[i])
  }

  lemma {:induction false} RunLeavesRows(rt: Runtime, ticks: nat, st: Store, wf: Workflow, ops: seq<Op>)
    requires JsonLaws(rt) && DigestLaws(rt)
    requires Run(rt, ticks, st, wf).result.Success?
    requires Avoids(ops, Run(rt, ticks, st, wf).result.value.snapshotId)
    ensures var o := Run(rt, ticks, st, wf);
      SourceHas(ApplyAll(o.store, ops), o.result.value.snapshotId,
                SnapshotRow(wf.snapshot.timeSlice, RunContent(rt, st, wf).data, true), wf.chain, o.result.value.entries)
  {
    var o := Run(rt, ticks, st, wf);
    RunEstablishes(rt, ticks, st, wf);
    HistoryExtends(o.store, ops);
    forall i | 0 <= i < |wf.chain|
      ensures LastRow(Rows(ApplyAll(o.store, ops), o.result.value.snapshotId), wf.chain[i]) == Some(o.result.value.entries[i])
    {
      LastRowsAreEntries(rt, ticks, st, wf, ops, i);
    }
  }

  lemma {:induction false} MaterializeCarries(source: Store, target: Store, id: string, row: SnapshotRow, chain: seq<string>, entries: seq<ReplayRow>)
    requires SourceHas(source, id, row, chain, entries)
    requires Materialize(source, target, id, chain).fault.None?
    ensures var copy := Materialize(source, target, id, chain);
      && copy.count == |chain| && Carries(copy.target, id, row, entries)
      && copy.target.log == target.log + Forget(entries)
  {
    var saved := SaveSnapshot(target, id, row).value;
    CopyRowsCarries(saved, Rows(source, id), chain, entries, 0);
    CoversForgotten(Materialize(source, target, id, chain).target.memo, entries);
  }

  lemma {:induction false} CopiedRowsVerify(digest: string -> string, target: Store, copied: Store, id: string, entries: seq<ReplayRow>)
    requires copied.log == target.log + Forget(entries) && Rows(target, id) == []
    requires forall r :: r in entries ==> r.snapshotId == id
    requires Verifies(digest, id, entries)
    ensures var rows := Rows(copied, id);
      rows == Forget(entries) && Verifies(digest, id, rows) && Head(id, rows) == Head(id, entries)
  {
    forall r | r in Forget(entries)
      ensures r.snapshotId == id
    {
      var i :| 0 <= i < |entries| && Forget(entries)[i] == r;
      assert entries[i] in entries;
    }
    RowsAppend(target, copied, Forget(entries), id, id);
    assert [] + Forget(entries) == Forget(entries);
    ForgottenVerifies(digest, id, entries);
  }

  /**
  Replica equivalence. The source ran wf last for its snapshot; whatever the target held, once
  Materialize has succeeded a run of wf on the target replays: zero evaluations, same rows, same
  head link and output. Into a target without rows of the snapshot the copied rows are the spine.
  */
  lemma {:induction false} MaterializedRunReplays(rt: Runtime, ticks: nat, st: Store, wf: Workflow, ops: seq<Op>, target: Store, rt2: Runtime, ticks2: nat)
    requires JsonLaws(rt) && DigestLaws(rt) && SourceStable(rt, rt2, wf.snapshot)
    requires Run(rt, ticks, st, wf).result.Success?
    requires Avoids(ops, Run(rt, ticks, st, wf).result.value.snapshotId)
    requires var o := Run(rt, ticks, st, wf);
      Materialize(ApplyAll(o.store, ops), target, o.result.value.snapshotId, wf.chain).fault.None?
    ensures var o := Run(rt, ticks, st, wf);
      var r := o.result.value;
      var copy := Materialize(ApplyAll(o.store, ops), target, r.snapshotId, wf.chain);
      && copy.count == |wf.chain|
      && r.entries != [] && Run(rt2, ticks2, copy.target, wf) == ReplayOutcome(ticks2, copy.target, r.snapshotId, r.entries)
      && (Rows(target, r.snapshotId) == [] ==>
            var copied := Rows(copy.target, r.snapshotId);
            copied == Forget(r.entries) && Verifies(rt.digest, r.snapshotId, copied) && Head(r.snapshotId, copied) == r.headLink)
  {
    var r := Run(rt, ticks, st, wf).result.value;
    var source := ApplyAll(Run(rt, ticks, st, wf).store, ops);
    var row := SnapshotRow(wf.snapshot.timeSlice, RunContent(rt, st, wf).data, true);
    RunLeavesRows(rt, ticks, st, wf, ops);
    MaterializeCarries(source, target, r.snapshotId, row, wf.chain, r.entries);
    var copied := Materialize(source, target, r.snapshotId, wf.chain).target;
    RunVerifies(rt, ticks, st, wf);
    RunOnCarrier(rt, ticks, st, wf, rt2, ticks2, copied);
    if Rows(target, r.snapshotId) == [] {
      CopiedRowsVerify(rt.digest, target, copied, r.snapshotId, r.entries);
    }
  }

  /** CarriedRunReplays for the whole chain. */
  lemma {:induction false} RunOnCarrier(rt: Runtime, ticks: nat, st: Store, wf: Workflow, rt2: Runtime, ticks2: nat, st2: Store)
    requires JsonLaws(rt) && DigestLaws(rt) && SourceStable(rt, rt2, wf.snapshot)
    requires var o := Run(rt, ticks, st, wf);
      && o.result.Success?
      && Carries(st2, RunContent(rt, st, wf).id,
                 SnapshotRow(wf.snapshot.timeSlice, RunContent(rt, st, wf).data, true), o.result.value.entries)
    ensures var r := Run(rt, ticks, st, wf).result.value;
      r.entries != [] && Run(rt2, ticks2, st2, wf) == ReplayOutcome(ticks2, st2, r.snapshotId, r.entries)
  {
    var r := Run(rt, ticks, st, wf).result.value;
    RunEstablishes(rt, ticks, st, wf);
    var c := RunContent(rt, st, wf);
    PrepareAgain(rt, st, wf.snapshot, rt2, st2);
    TraceElsewhere(rt, rt2, wf, c.id, c.value, wf.chain, map[], c.id, r.entries);
    CoveredChain(rt2, ticks2, st2, wf, c.id, c.value, r.entries);
  }

  lemma {:induction false} TraceElsewhere(rt: Runtime, rt2: Runtime, wf: Workflow, id: string, v: Json, names: seq<string>, outputs: map<string, string>, prev: string, rows: seq<ReplayRow>)
    requires SourceStable(rt, rt2, wf.snapshot)
    requires IsTrace(rt, wf, id, v, names, outputs, prev, rows)
    ensures IsTrace(rt2, wf, id, v, names, outputs, prev, rows)
    decreases |rows|
  {
    if rows != [] {
      var d := FindDomino(wf.dominos, names[0]).value;
      PartsSame(rt, rt2, d.inputs, v, outputs);
      TraceElsewhere(rt, rt2, wf, id, v, names[1..], outputs[names[0] := rows[0].output], rows[0].link, rows[1..]);
    }
  }

  // ---- When the copy succeeds ----

  /** The target memo holds nothing else under the key of the row. */
  ghost predicate Admits(memo: map<MemoKey, MemoValue>, row: ReplayRow) {
    row.Key() in memo ==> memo[row.Key()] == row.Value()
  }

  lemma {:induction false} CopyRowsSucceeds(target: Store, rows: seq<ReplayRow>, chain: seq<string>, entries: seq<ReplayRow>, count: nat)
    requires |entries| == |chain| && Distinct(chain)
    requires forall i :: 0 <= i < |chain| ==> entries[i].dominoId == chain[i] && LastRow(rows, chain[i]) == Some(entries[i])
    ensures CopyRows(target, rows, chain, count).fault.None? <==> forall i :: 0 <= i < |entries| ==> Admits(target.memo, entries[i])
    decreases |chain|
  {
    if chain != [] {
      var row := entries[0].(reused := false);
      var saved := SaveResult(target, row);
      if saved.Success? {
        CopyRowsSucceeds(saved.value, rows, chain[1..], entries[1..], count + 1);
        forall i | 0 < i < |entries|
          ensures entries[i] == entries[1..][i - 1]
          ensures Admits(saved.value.memo, entries[i]) <==> Admits(target.memo, entries[i])
        {
          assert chain[0] != chain[i];
        }
        if forall i :: 0 <= i < |entries[1..]| ==> Admits(saved.value.memo, entries[1..][i]) {
          forall i | 0 <= i < |entries| ensures Admits(target.memo, entries[i]) {
            assert i > 0 ==> Admits(saved.value.memo, entries[1..][i - 1]);
          }
        }
      } else {
        assert !Admits(target.memo, entries[0]);
      }
    }
  }

  /** A just-run chain can be copied exactly to the targets that hold nothing contradicting it. */
  lemma {:induction false} MaterializeSucceedsIff(rt: Runtime, ticks: nat, st: Store, wf: Workflow, ops: seq<Op>, target: Store)
    requires JsonLaws(rt) && DigestLaws(rt)
    requires Run(rt, ticks, st, wf).result.Success?
    requires Avoids(ops, Run(rt, ticks, st, wf).result.value.snapshotId)
    ensures var o := Run(rt, ticks, st, wf);
      var r := o.result.value;
      Materialize(ApplyAll(o.store, ops), target, r.snapshotId, wf.chain).fault.None? <==>
        && !RefusesSealedMutation(GetSnapshot(target, r.snapshotId),
                                  SnapshotRow(wf.snapshot.timeSlice, RunContent(rt, st, wf).data, true))
        && forall i :: 0 <= i < |r.entries| ==> Admits(target.memo, r.entries[i])
  {
    var r := Run(rt, ticks, st, wf).result.value;
    var source := ApplyAll(Run(rt, ticks, st, wf).store, ops);
    RunEstablishes(rt, ticks, st, wf);
    ContentAfterSave(rt, st, wf.snapshot);
    RunLeavesRows(rt, ticks, st, wf, ops);
    var row := SnapshotRow(wf.snapshot.timeSlice, RunContent(rt, st, wf).data, true);
    TraceVerifies(rt, wf, r.snapshotId, RunContent(rt, st, wf).value, wf.chain, map[], r.snapshotId, r.entries);
    var saved := SaveSnapshot(target, r.snapshotId, row);
    if saved.Success? {
      CopyRowsSucceeds(saved.value, Rows(source, r.snapshotId), wf.chain, r.entries, 0);
    }
  }

  // ---- Any source, any target, any chain ----

  /** The copy of this domino goes through: it has a row, and the target holds nothing else under its key. */
  ghost predicate Copyable(memo: map<MemoKey, MemoValue>, rows: seq<ReplayRow>, dominoId: string) {
    var row := LastRow(rows, dominoId);
    row.Some? && Admits(memo, row.value)
  }

  /** Saving one row does not change what is copyable: the memo gains an entry that its own domino agrees with. */
  lemma {:induction false} CopyableStays(memo: map<MemoKey, MemoValue>, rows: seq<ReplayRow>, dominoId: string, other: string)
    requires Copyable(memo, rows, dominoId)
    ensures var row := LastRow(rows, dominoId).value;
      Copyable(memo[row.Key() := row.Value()], rows, other) <==> Copyable(memo, rows, other)
  {
    var row, last := LastRow(rows, dominoId).value, LastRow(rows, other);
    if last.Some? && last.value.Key() == row.Key() {
      assert dominoId == other;
    }
  }

  /** The rows that a copy writes. */
  ghost function CopiedRows(rows: seq<ReplayRow>, chain: seq<string>): seq<ReplayRow>
    requires forall d :: d in chain ==> LastRow(rows, d).Some?
  {
    seq(|chain|, i requires 0 <= i < |chain| => assert chain[i] in chain; LastRow(rows, chain[i]).value.(reused := false))
  }

  ghost predicate AllCopyable(memo: map<MemoKey, MemoValue>, rows: seq<ReplayRow>, chain: seq<string>) {
    forall d :: d in chain ==> Copyable(memo, rows, d)
  }

  /** Domino k is the first one of the chain that is not copyable. */
  ghost predicate StopsAt(memo: map<MemoKey, MemoValue>, rows: seq<ReplayRow>, chain: seq<string>, k: int) {
    0 <= k < |chain| && !Copyable(memo, rows, chain[k]) && AllCopyable(memo, rows, chain[..k])
  }

  /**
  The loop logs one row for each domino, or it stops at the first one that is not copyable: NotFound
  when that has no row, a memo conflict otherwise.
  */
  ghost predicate CopiedExactly(target: Store, rows: seq<ReplayRow>, chain: seq<string>, count: nat, c: Copy) {
    if c.fault.None? then
      && AllCopyable(target.memo, rows, chain) && c.count == count + |chain|
      && c.target.snapshots == target.snapshots && c.target.log == target.log + CopiedRows(rows, chain)
    else
      && StopsAt(target.memo, rows, chain, c.count - count)
      && c.fault == Some(if LastRow(rows, chain[c.count - count]).None? then NotFound else MemoConflict)
  }

  lemma {:induction false} CopyRowsExactly(target: Store, rows: seq<ReplayRow>, chain: seq<string>, count: nat)
    ensures CopiedExactly(target, rows, chain, count, CopyRows(target, rows, chain, count))
    decreases |chain|
  {
    if chain != [] {
      if Copyable(target.memo, rows, chain[0]) {
        var row := LastRow(rows, chain[0]).value;
        var next := SaveResult(target, row.(reused := false)).value;
        CopyRowsExactly(next, rows, chain[1..], count + 1);
        CopiedExactlyCons(target, next, rows, chain, count, CopyRows(target, rows, chain, count));
      } else {
        assert chain[..0] == [];
      }
    } else {
      assert CopiedRows(rows, chain) == [];
    }
  }

  lemma {:induction false} CopiedExactlyCons(target: Store, next: Store, rows: seq<ReplayRow>, chain: seq<string>, count: nat, c: Copy)
    requires chain != [] && Copyable(target.memo, rows, chain[0])
    requires next == SaveResult(target, LastRow(rows, chain[0]).value.(reused := false)).value
    requires CopiedExactly(next, rows, chain[1..], count + 1, c)
    ensures CopiedExactly(target, rows, chain, count, c)
  {
    var row, rest := LastRow(rows, chain[0]).value, chain[1..];
    assert chain == [chain[0]] + rest;
    assert next.memo == target.memo[row.Key() := row.Value()];
    forall d
      ensures Copyable(next.memo, rows, d) <==> Copyable(target.memo, rows, d)
    {
      CopyableStays(target.memo, rows, chain[0], d);
    }
    if c.fault.None? {
      assert AllCopyable(target.memo, rows, chain);
      assert CopiedRows(rows, chain) == [row.(reused := false)] + CopiedRows(rows, rest);
      AppendAssociates(target.log, [row.(reused := false)], CopiedRows(rows, rest));
    } else {
      var k := c.count - count;
      assert chain[..k] == [chain[0]] + rest[..k - 1];
    }
  }

  /** Materialize may start: the source holds the snapshot sealed, and the target no other content under its ID. */
  ghost predicate SnapshotCopyable(source: Store, target: Store, id: string) {
    var row := GetSnapshot(source, id);
    id != "" && row.Some? && row.value.sealed && !RefusesSealedMutation(GetSnapshot(target, id), row.value)
  }

  /** For any source, target and chain: the copy succeeds exactly when the snapshot and every domino are copyable. */
  lemma {:induction false} CopySucceedsIff(source: Store, target: Store, id: string, chain: seq<string>)
    ensures Materialize(source, target, id, chain).fault.None? <==>
            SnapshotCopyable(source, target, id) && AllCopyable(target.memo, Rows(source, id), chain)
  {
    if SnapshotCopyable(source, target, id) {
      var saved := SaveSnapshot(target, id, GetSnapshot(source, id).value).value;
      CopyRowsExactly(saved, Rows(source, id), chain, 0);
      var c := CopyRows(saved, Rows(source, id), chain, 0);
      if c.fault.Some? {
        assert chain[c.count] in chain;
      }
    }
  }

  /** A copy that succeeded is complete: the sealed snapshot, and for each domino the latest result of the source. */
  lemma {:induction false} CopyIsComplete(source: Store, target: Store, id: string, chain: seq<string>)
    requires Materialize(source, target, id, chain).fault.None?
    ensures var copy := Materialize(source, target, id, chain);
      && copy.count == |chain|
      && GetSnapshot(source, id).Some? && GetSnapshot(source, id).value.sealed
      && GetSnapshot(copy.target, id) == GetSnapshot(source, id)
      && forall d :: d in chain ==> LatestFields(source, id, d).Some? && LatestFields(copy.target, id, d) == LatestFields(source, id, d)
  {
    var rows := Rows(source, id);
    var saved := SaveSnapshot(target, id, GetSnapshot(source, id).value).value;
    var copy := Materialize(source, target, id, chain);
    CopyRowsExactly(saved, rows, chain, 0);
    var copied := CopiedRows(rows, chain);
    CopiedRowsAreOf(source, id, chain);
    RowsAppend(target, copy.target, copied, id, id);
    forall d | d in chain
      ensures LatestFields(source, id, d).Some? && LatestFields(copy.target, id, d) == LatestFields(source, id, d)
    {
      LastRowAppend(Rows(target, id), copied, d);
      LastCopiedRow(rows, chain, d);
    }
  }

  lemma {:induction false} CopiedRowsAreOf(source: Store, id: string, chain: seq<string>)
    requires forall d :: d in chain ==> LastRow(Rows(source, id), d).Some?
    ensures forall r :: r in CopiedRows(Rows(source, id), chain) ==> r.snapshotId == id
  {
    FilterMembers((r: ReplayRow) => r.snapshotId == id, source.log);
    forall r | r in CopiedRows(Rows(source, id), chain)
      ensures r.snapshotId == id
    {
      var i :| 0 <= i < |chain| && CopiedRows(Rows(source, id), chain)[i] == r;
      assert chain[i] in chain && LastRow(Rows(source, id), chain[i]).value in Rows(source, id);
    }
  }

  lemma {:induction false} LastCopiedRow(rows: seq<ReplayRow>, chain: seq<string>, d: string)
    requires forall e :: e in chain ==> LastRow(rows, e).Some?
    requires d in chain
    ensures LastRow(CopiedRows(rows, chain), d) == Some(LastRow(rows, d).value.(reused := false))
    decreases |chain|
  {
    var n := |chain| - 1;
    var copied, init := CopiedRows(rows, chain), chain[..n];
    assert chain[n] in chain && chain == init + [chain[n]];
    assert copied[..n] == CopiedRows(rows, init);
    if chain[n] != d {
      LastCopiedRow(rows, init, d);
    }
  }
}
