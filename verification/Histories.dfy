/**
Every operation of the engine, the replicator and the CDC target acts on a store as a sequence of
backend writes. What holds over all writes therefore holds over all operations, in any order.
*/
module Histories {
  import opened Basics
  import opened Runtime
  import opened StoreModel
  import opened Workflows
  import opened EngineSpec
  import opened Pinning
  import opened Replica
  import opened Cdc
  import opened CdcTheorems

  /** Anything that may happen to a store. Each run may use another executor. */
  datatype Activity =
    | DoRun(rt: Runtime, ticks: nat, wf: Workflow)
    | DoSingle(rt: Runtime, ticks: nat, id: string, snap: Snapshot, d: Domino, prior: map<string, string>, prevLink: string)
    | DoMaterialize(source: Store, id: string, chain: seq<string>)
    | DoBatch(id: string, envs: seq<Envelope>)
    | DoWrite(op: Op)

  ghost function Perform(st: Store, a: Activity): Store {
    match a
    case DoRun(rt, ticks, wf) => Run(rt, ticks, st, wf).store
    case DoSingle(rt, ticks, id, snap, d, prior, prevLink) => RunSingleFrom(rt, ticks, st, id, snap, d, prior, prevLink).store
    case DoMaterialize(source, id, chain) => Materialize(source, st, id, chain).target
    case DoBatch(id, envs) => ApplyBatch(st, id, envs).target
    case DoWrite(op) => Apply(st, op)
  }

  ghost function PerformAll(st: Store, activities: seq<Activity>): Store
    decreases |activities|
  {
    if activities == [] then st else PerformAll(Perform(st, activities[0]), activities[1..])
  }

  /** One write. */
  lemma {:induction false} OneWrite(st: Store, op: Op)
    ensures ApplyAll(st, [op]) == Apply(st, op)
  {
    assert [op][1..] == [];
  }

  lemma {:induction false} StepsAreWrites(rt: Runtime, wf: Workflow, id: string, names: seq<string>, c: Cursor) returns (ops: seq<Op>)
    ensures ApplyAll(c.store, ops) == Steps(rt, wf, id, names, c).cursor.store
    decreases |names|
  {
    ops := [];
    if names != [] {
      var p := Step(rt, wf, id, names[0], c);
      if p.fault.None? {
        var first := PutResult(p.cursor.entries[|c.entries|]);
        OneWrite(c.store, first);
        var rest := StepsAreWrites(rt, wf, id, names[1..], p.cursor);
        ops := [first] + rest;
        HistoryAppend(c.store, [first], rest);
      }
    }
  }

  lemma {:induction false} RunIsWrites(rt: Runtime, ticks: nat, st: Store, wf: Workflow) returns (ops: seq<Op>)
    ensures ApplyAll(st, ops) == Run(rt, ticks, st, wf).store
  {
    ops := [];
    var content := Prepare(rt, st, wf.snapshot);
    if content.Success? {
      var c := content.value;
      var row := SnapshotRow(wf.snapshot.timeSlice, c.data, true);
      var saved := SaveSnapshot(st, c.id, row);
      if saved.Success? {
        var first := PutSnapshot(c.id, row);
        OneWrite(st, first);
        var rest: seq<Op> := [];
        if DominosOk(wf.dominos) && wf.chain != [] && ChainOk(wf.chain) {
          rest := StepsAreWrites(rt, wf, c.id, wf.chain, Cursor(saved.value, ticks, map[], c.id, []));
        }
        ops := [first] + rest;
        HistoryAppend(st, [first], rest);
      }
    }
  }

  lemma {:induction false} SingleIsWrites(rt: Runtime, ticks: nat, st: Store, id: string, snap: Snapshot, d: Domino, prior: map<string, string>, prevLink: string)
    returns (ops: seq<Op>)
    ensures ApplyAll(st, ops) == RunSingleFrom(rt, ticks, st, id, snap, d, prior, prevLink).store
  {
    var o := RunSingleFrom(rt, ticks, st, id, snap, d, prior, prevLink);
    if o.result.Success? {
      ops := [PutResult(o.result.value)];
      OneWrite(st, ops[0]);
    } else {
      ops := [];
    }
  }

  lemma {:induction false} CopyIsWrites(target: Store, rows: seq<ReplayRow>, chain: seq<string>, count: nat) returns (ops: seq<Op>)
    ensures ApplyAll(target, ops) == CopyRows(target, rows, chain, count).target
    decreases |chain|
  {
    ops := [];
    if chain != [] && LastRow(rows, chain[0]).Some? {
      var row := LastRow(rows, chain[0]).value.(reused := false);
      var saved := SaveResult(target, row);
      if saved.Success? {
        OneWrite(target, PutResult(row));
        var rest := CopyIsWrites(saved.value, rows, chain[1..], count + 1);
        ops := [PutResult(row)] + rest;
        HistoryAppend(target, [PutResult(row)], rest);
      }
    }
  }

  lemma {:induction false} MaterializeIsWrites(source: Store, target: Store, id: string, chain: seq<string>) returns (ops: seq<Op>)
    ensures ApplyAll(target, ops) == Materialize(source, target, id, chain).target
  {
    ops := [];
    var row := GetSnapshot(source, id);
    if id != "" && row.Some? && row.value.sealed {
      var saved := SaveSnapshot(target, id, row.value);
      if saved.Success? {
        var first := PutSnapshot(id, row.value);
        OneWrite(target, first);
        var rest := CopyIsWrites(saved.value, Rows(source, id), chain, 0);
        ops := [first] + rest;
        HistoryAppend(target, [first], rest);
      }
    }
  }

  lemma {:induction false} EnvelopeIsWrites(target: Store, env: Envelope) returns (ops: seq<Op>)
    ensures ApplyAll(target, ops) == Committed(target, ApplyEnvelope(target, env))
  {
    ops := [];
    if ApplyEnvelope(target, env).Success? && env.op != OP_DELETE {
      if env.table == TABLE_SNAPSHOTS {
        var row := DecodeSnapshot(env.after).value;
        ops := [PutSnapshot(row.snapshotId, SnapshotRow(row.timeSlice, row.data, true))];
      } else {
        ops := [PutResult(ImageRow(DecodeResult(env.after).value))];
      }
      OneWrite(target, ops[0]);
    }
  }

  lemma {:induction false} SyncIsWrites(s: Sync, id: string, envs: seq<Envelope>) returns (ops: seq<Op>)
    ensures ApplyAll(s.target, ops) == SyncAll(s, id, envs).target
    decreases |envs|
  {
    ops := [];
    if envs != [] && s.fault.None? {
      var first: seq<Op> := [];
      if Matches(id, envs[0]) {
        first := EnvelopeIsWrites(s.target, envs[0]);
      }
      var next := SyncStep(s, id, envs[0]);
      var rest := SyncIsWrites(next, id, envs[1..]);
      ops := first + rest;
      HistoryAppend(s.target, first, rest);
    }
  }

  lemma {:induction false} ActivityIsWrites(st: Store, a: Activity) returns (ops: seq<Op>)
    ensures ApplyAll(st, ops) == Perform(st, a)
  {
    match a
    case DoRun(rt, ticks, wf) => ops := RunIsWrites(rt, ticks, st, wf);
    case DoSingle(rt, ticks, id, snap, d, prior, prevLink) => ops := SingleIsWrites(rt, ticks, st, id, snap, d, prior, prevLink);
    case DoMaterialize(source, id, chain) => ops := MaterializeIsWrites(source, st, id, chain);
    case DoBatch(id, envs) => ops := SyncIsWrites(Sync(st, false, {}, None), id, envs);
    case DoWrite(op) => ops := [op]; OneWrite(st, op);
  }

  /** Any sequence of operations is a sequence of backend writes. */
  lemma {:induction false} ActivitiesAreWrites(st: Store, activities: seq<Activity>) returns (ops: seq<Op>)
    ensures ApplyAll(st, ops) == PerformAll(st, activities)
    decreases |activities|
  {
    ops := [];
    if activities != [] {
      var first := ActivityIsWrites(st, activities[0]);
      var rest := ActivitiesAreWrites(Perform(st, activities[0]), activities[1..]);
      ops := first + rest;
      HistoryAppend(st, first, rest);
    }
  }

  /** Whatever operations led to a store, its memo and log agree, and no later operation undoes what it holds. */
  lemma {:induction false} StoresAreSound(before: seq<Activity>, after: seq<Activity>)
    ensures var st := PerformAll(EMPTY, before);
      MemoLogAgree(st) && Extends(st, PerformAll(st, after))
  {
    var ops := ActivitiesAreWrites(EMPTY, before);
    var more := ActivitiesAreWrites(PerformAll(EMPTY, before), after);
    HistoryMemoLogAgree(EMPTY, ops);
    HistoryExtends(PerformAll(EMPTY, before), more);
  }

  /** Pinning across any operations, by any executors, since the successful run. */
  lemma {:induction false} SuccessStaysPinned(rt: Runtime, ticks: nat, st: Store, wf: Workflow, since: seq<Activity>, k: nat, wf2: Workflow, rt2: Runtime, ticks2: nat)
    requires JsonLaws(rt) && DigestLaws(rt) && SourceStable(rt, rt2, wf.snapshot)
    requires Prefixes(wf, k, wf2)
    requires Run(rt, ticks, st, wf).result.Success?
    ensures var o := Run(rt, ticks, st, wf);
      var r := o.result.value;
      var later := PerformAll(o.store, since);
      k <= |r.entries| && Run(rt2, ticks2, later, wf2) == ReplayOutcome(ticks2, later, r.snapshotId, r.entries[..k])
  {
    var ops := ActivitiesAreWrites(Run(rt, ticks, st, wf).store, since);
    SuccessIsPinned(rt, ticks, st, wf, ops, k, wf2, rt2, ticks2);
  }

  /** Redelivery of an accepted batch after any operations: runs, copies, other batches, accepted or not. */
  lemma {:induction false} RedeliveryStaysAbsorbed(target: Store, id: string, envs: seq<Envelope>, since: seq<Activity>)
    requires ApplyBatch(target, id, envs).fault.None?
    ensures var later := PerformAll(ApplyBatch(target, id, envs).target, since);
      var again := ApplyBatch(later, id, envs);
      again.fault.None? && again.target.snapshots == later.snapshots && again.target.memo == later.memo
  {
    var ops := ActivitiesAreWrites(ApplyBatch(target, id, envs).target, since);
    RedeliveryIsAbsorbed(target, id, envs, ops);
  }
}
