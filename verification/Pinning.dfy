/**
What a successful run leaves behind is enough to repeat it with no evaluation, whatever the executor
does and whatever is written in between. The same argument serves replicas and CDC targets.
*/
module Pinning {
  import opened Basics
  import opened Runtime
  import opened StoreModel
  import opened Spine
  import opened Workflows
  import opened EngineSpec
  import opened MemoTransparency

  // ---- Traces ----

  /** The row records this job, run next on the spine with head prev. */
  ghost predicate Records(rt: Runtime, id: string, name: string, job: Result<Job>, prev: string, row: ReplayRow) {
    && job.Success?
    && row.Key() == MemoKey(id, name, rt.digest(job.value.input))
    && Continues(rt.digest, prev, row)
  }

  /** The rows record a run of the first |rows| names, whether each step was evaluated or reused. */
  ghost predicate IsTrace(rt: Runtime, wf: Workflow, id: string, v: Json, names: seq<string>, outputs: map<string, string>, prev: string, rows: seq<ReplayRow>)
    decreases |rows|
  {
    rows == [] ||
    (&& names != []
     && Records(rt, id, names[0], PlainJob(rt, wf, v, names[0], outputs), prev, rows[0])
     && IsTrace(rt, wf, id, v, names[1..], outputs[names[0] := rows[0].output], rows[0].link, rows[1..]))
  }

  function OutputsAfter(outputs: map<string, string>, rows: seq<ReplayRow>): map<string, string>
    decreases |rows|
  {
    if rows == [] then outputs
    else OutputsAfter(outputs[rows[0].dominoId := rows[0].output], rows[1..])
  }

  /** Every row has its memo entry. */
  ghost predicate Covers(memo: map<MemoKey, MemoValue>, rows: seq<ReplayRow>) {
    forall r :: r in rows ==> MemoHas(memo, r)
  }

  /** A step that does not fail appends one row, with its memo entry; a failing one writes nothing. */
  lemma {:induction false} StepTrace(rt: Runtime, wf: Workflow, id: string, v: Json, name: string, c: Cursor) returns (row: ReplayRow)
    requires Holds(rt, c.store, wf.snapshot, id, v)
    ensures var p := Step(rt, wf, id, name, c);
      if p.fault.Some? then p.cursor.(ticks := c.ticks) == c
      else
        && Records(rt, id, name, PlainJob(rt, wf, v, name, c.outputs), c.prev, row)
        && p.cursor == Cursor(p.cursor.store, p.cursor.ticks, c.outputs[name := row.output], row.link, c.entries + [row])
        && Appended(c.store, p.cursor.store, [row])
  {
    var p := Step(rt, wf, id, name, c);
    assert StepJob(rt, wf, name, PreferStore(rt, c.store, wf.snapshot, id), c.outputs)
        == PlainJob(rt, wf, v, name, c.outputs);
    if p.fault.None? {
      row := p.cursor.entries[|c.entries|];
    } else {
      row :| true;
    }
  }

  /** From a to b the rows were appended, with their memo entries, and nothing was lost. */
  ghost predicate Appended(a: Store, b: Store, rows: seq<ReplayRow>) {
    && b.log == a.log + rows && b.snapshots == a.snapshots
    && Covers(b.memo, rows)
    && forall k :: k in a.memo ==> k in b.memo && b.memo[k] == a.memo[k]
  }

  lemma {:induction false} AppendedTwice(a: Store, b: Store, c: Store, row: ReplayRow, rows: seq<ReplayRow>)
    requires Appended(a, b, [row]) && Appended(b, c, rows)
    ensures Appended(a, c, [row] + rows)
  {
    assert row in [row] && MemoHas(b.memo, row);
    assert a.log + [row] + rows == a.log + ([row] + rows);
  }

  /** From cursor c to cursor d the rows were recorded, as a trace of the first |rows| names. */
  ghost predicate Traced(rt: Runtime, wf: Workflow, id: string, v: Json, names: seq<string>, c: Cursor, d: Cursor, rows: seq<ReplayRow>) {
    && Appended(c.store, d.store, rows)
    && IsTrace(rt, wf, id, v, names, c.outputs, c.prev, rows)
    && d.entries == c.entries + rows
    && d.outputs == OutputsAfter(c.outputs, rows)
    && d.prev == Head(c.prev, rows)
  }

  lemma {:induction false} TracedCons(rt: Runtime, wf: Workflow, id: string, v: Json, names: seq<string>, c: Cursor, row: ReplayRow, mid: Cursor, rows: seq<ReplayRow>, d: Cursor)
    requires names != [] && Records(rt, id, names[0], PlainJob(rt, wf, v, names[0], c.outputs), c.prev, row)
    requires mid == Cursor(mid.store, mid.ticks, c.outputs[names[0] := row.output], row.link, c.entries + [row])
    requires Appended(c.store, mid.store, [row])
    requires Traced(rt, wf, id, v, names[1..], mid, d, rows)
    ensures Traced(rt, wf, id, v, names, c, d, [row] + rows)
  {
    AppendedTwice(c.store, mid.store, d.store, row, rows);
    assert ([row] + rows)[1..] == rows;
    assert mid.entries + rows == c.entries + ([row] + rows);
  }

  /** The steps append a trace to the log and the memo covers it, also when the chain fails midway. */
  lemma {:induction false} StepsTrace(rt: Runtime, wf: Workflow, id: string, v: Json, names: seq<string>, c: Cursor) returns (rows: seq<ReplayRow>)
    requires Holds(rt, c.store, wf.snapshot, id, v)
    ensures var p := Steps(rt, wf, id, names, c);
      Traced(rt, wf, id, v, names, c, p.cursor, rows) && (p.fault.None? ==> |rows| == |names|)
    decreases |names|
  {
    rows := [];
    if names != [] {
      var row := StepTrace(rt, wf, id, v, names[0], c);
      var p := Step(rt, wf, id, names[0], c);
      if p.fault.None? {
        var rest := StepsTrace(rt, wf, id, v, names[1..], p.cursor);
        rows := [row] + rest;
        TracedCons(rt, wf, id, v, names, c, row, p.cursor, rest, Steps(rt, wf, id, names, c).cursor);
      }
    }
  }

  lemma {:induction false} TraceVerifies(rt: Runtime, wf: Workflow, id: string, v: Json, names: seq<string>, outputs: map<string, string>, prev: string, rows: seq<ReplayRow>)
    requires IsTrace(rt, wf, id, v, names, outputs, prev, rows)
    ensures Verifies(rt.digest, prev, rows)
    ensures forall i :: 0 <= i < |rows| ==> rows[i].snapshotId == id && i < |names| && rows[i].dominoId == names[i]
    decreases |rows|
  {
    if rows != [] {
      TraceVerifies(rt, wf, id, v, names[1..], outputs[names[0] := rows[0].output], rows[0].link, rows[1..]);
      VerifiesCons(rt.digest, prev, rows[0], rows[1..]);
      assert rows == [rows[0]] + rows[1..];
    }
  }

  lemma {:induction false} VerifiesCons(digest: string -> string, prev: string, row: ReplayRow, rows: seq<ReplayRow>)
    requires Continues(digest, prev, row) && Verifies(digest, row.link, rows)
    ensures Verifies(digest, prev, [row] + rows)
    decreases |rows|
  {
    var all := [row] + rows;
    if rows == [] {
      assert all[..0] == [];
    } else {
      var n := |rows| - 1;
      VerifiesCons(digest, prev, row, rows[..n]);
      assert all[..|all| - 1] == [row] + rows[..n];
    }
  }

  // ---- Replaying a covered trace ----

  function Reused(rows: seq<ReplayRow>): seq<ReplayRow> {
    seq(|rows|, i requires 0 <= i < |rows| => rows[i].(reused := true))
  }

  lemma {:induction false} CountReusedAll(rows: seq<ReplayRow>)
    ensures CountReused(Reused(rows)) == |rows|
  {
    if rows != [] {
      var n := |rows| - 1;
      CountReusedAll(rows[..n]);
      assert Reused(rows)[..n] == Reused(rows[..n]);
    }
  }

  /** The cursor after the rows were replayed from cursor c. */
  ghost function Replayed(c: Cursor, rows: seq<ReplayRow>): Cursor {
    Cursor(c.store.(log := c.store.log + Reused(rows)), c.ticks, OutputsAfter(c.outputs, rows),
           Head(c.prev, rows), c.entries + Reused(rows))
  }

  lemma {:induction false} ReplayedCons(c: Cursor, rows: seq<ReplayRow>)
    requires rows != []
    ensures Replayed(Replayed(c, [rows[0]]), rows[1..]) == Replayed(c, rows)
  {
    var first, rest := [rows[0]], rows[1..];
    assert Reused(rows) == Reused(first) + Reused(rest);
    AppendAssociates(c.store.log, Reused(first), Reused(rest));
    AppendAssociates(c.entries, Reused(first), Reused(rest));
    assert OutputsAfter(c.outputs, first) == c.outputs[rows[0].dominoId := rows[0].output] by {
      assert first[1..] == [];
    }
  }

  /** A step whose row is in the memo is replayed. */
  lemma {:induction false} CoveredStep(rt: Runtime, wf: Workflow, id: string, v: Json, name: string, c: Cursor, row: ReplayRow)
    requires Holds(rt, c.store, wf.snapshot, id, v)
    requires Records(rt, id, name, PlainJob(rt, wf, v, name, c.outputs), c.prev, row)
    requires MemoHas(c.store.memo, row)
    ensures Step(rt, wf, id, name, c) == Progress(Replayed(c, [row]), None)
  {
    assert StepJob(rt, wf, name, PreferStore(rt, c.store, wf.snapshot, id), c.outputs)
        == PlainJob(rt, wf, v, name, c.outputs);
    var again := row.(reused := true);
    assert Step(rt, wf, id, name, c) == Progress(
      Cursor(c.store.(log := c.store.log + [again]), c.ticks, c.outputs[name := row.output], row.link, c.entries + [again]), None);
    ReplayedOne(c, row);
  }

  lemma {:induction false} ReplayedOne(c: Cursor, row: ReplayRow)
    ensures var again := row.(reused := true);
      Replayed(c, [row]) == Cursor(c.store.(log := c.store.log + [again]), c.ticks,
                                   c.outputs[row.dominoId := row.output], row.link, c.entries + [again])
  {
    assert Reused([row]) == [row.(reused := true)];
    assert [row][1..] == [];
    assert OutputsAfter(c.outputs, [row]) == OutputsAfter(c.outputs[row.dominoId := row.output], []);
  }

  /** With every row of the trace in the memo, the steps evaluate nothing and give the same rows. */
  lemma {:induction false} CoveredSteps(rt: Runtime, wf: Workflow, id: string, v: Json, names: seq<string>, c: Cursor, rows: seq<ReplayRow>)
    requires Holds(rt, c.store, wf.snapshot, id, v)
    requires IsTrace(rt, wf, id, v, names, c.outputs, c.prev, rows) && |rows| == |names|
    requires Covers(c.store.memo, rows)
    ensures Steps(rt, wf, id, names, c) == Progress(Replayed(c, rows), None)
    decreases |names|
  {
    if names == [] {
      assert Reused(rows) == [];
    } else {
      assert rows[0] in rows;
      CoveredStep(rt, wf, id, v, names[0], c, rows[0]);
      assert [rows[0]][1..] == [];
      CoveredSteps(rt, wf, id, v, names[1..], Replayed(c, [rows[0]]), rows[1..]);
      ReplayedCons(c, rows);
    }
  }

  // ---- Chain prefixes and other executors ----

  /** Nothing that a run reads from outside can have changed. */
  ghost predicate SourceStable(a: Runtime, b: Runtime, snap: Snapshot) {
    && a.digest == b.digest && a.marshal == b.marshal && a.unmarshal == b.unmarshal
    && (snap.source.Inline? || a.fetch == b.fetch)
  }

  /** The same dominos up to commands, which are not part of a memo key. */
  ghost predicate SameWiring(a: seq<Domino>, b: seq<Domino>) {
    |a| == |b| && forall i :: 0 <= i < |a| ==> b[i] == a[i].(command := b[i].command)
  }

  /** wf2 runs the first k names of wf's chain on the same snapshot; its gate admits its commands. */
  ghost predicate Prefixes(wf: Workflow, k: nat, wf2: Workflow) {
    && 0 < k <= |wf.chain| && wf2.chain == wf.chain[..k]
    && wf2.snapshot == wf.snapshot
    && SameWiring(wf.dominos, wf2.dominos)
    && (forall d :: d in wf2.dominos ==> wf2.deterministic ==> AllowDeterministic(d.command, wf2.sandbox))
  }

  lemma {:induction false} FindSameWiring(a: seq<Domino>, b: seq<Domino>, name: string)
    requires SameWiring(a, b)
    ensures var x, y := FindDomino(a, name), FindDomino(b, name);
      x.Some? == y.Some? && (x.Some? ==> y.value == x.value.(command := y.value.command))
    decreases |a|
  {
    if a != [] {
      assert b[0] == a[0].(command := b[0].command);
      FindSameWiring(a[1..], b[1..], name);
    }
  }

  lemma {:induction false} IndexOfPrefix(chain: seq<string>, k: nat, name: string)
    requires k <= |chain|
    ensures var i := IndexOf(chain, name);
      IndexOf(chain[..k], name) == if 0 <= i < k then i else -1
  {
    if chain != [] && k > 0 && chain[0] != name {
      IndexOfPrefix(chain[1..], k - 1, name);
      assert chain[..k][1..] == chain[1..][..k - 1];
    }
  }

  lemma {:induction false} JobOfPrefix(rt: Runtime, rt2: Runtime, wf: Workflow, k: nat, wf2: Workflow, v: Json, name: string, outputs: map<string, string>)
    requires SourceStable(rt, rt2, wf.snapshot) && Prefixes(wf, k, wf2) && name in wf2.chain
    requires PlainJob(rt, wf, v, name, outputs).Success?
    ensures var a, b := PlainJob(rt, wf, v, name, outputs), PlainJob(rt2, wf2, v, name, outputs);
      b.Success? && b.value.input == a.value.input
  {
    FindSameWiring(wf.dominos, wf2.dominos, name);
    var d := FindDomino(wf.dominos, name).value;
    var d2 := FindDomino(wf2.dominos, name).value;
    assert d2 in wf2.dominos;
    IndexOfPrefix(wf.chain, k, name);
    forall r | r in DeclaredReads(d)
      ensures InCausalPast(wf2.chain, name, r)
    {
      assert InCausalPast(wf.chain, name, r);
      IndexOfPrefix(wf.chain, k, r);
    }
    PartsSame(rt, rt2, d.inputs, v, outputs);
  }

  lemma {:induction false} PartsSame(rt: Runtime, rt2: Runtime, inputs: seq<Input>, v: Json, outputs: map<string, string>)
    requires rt.marshal == rt2.marshal && rt.unmarshal == rt2.unmarshal
    ensures Parts(rt, inputs, v, outputs) == Parts(rt2, inputs, v, outputs)
    decreases |inputs|
  {
    if inputs != [] {
      PartsSame(rt, rt2, inputs[..|inputs| - 1], v, outputs);
    }
  }

  lemma {:induction false} TraceOfPrefix(rt: Runtime, rt2: Runtime, wf: Workflow, k: nat, wf2: Workflow, id: string, v: Json, i: nat, outputs: map<string, string>, prev: string, rows: seq<ReplayRow>)
    requires SourceStable(rt, rt2, wf.snapshot) && Prefixes(wf, k, wf2) && i <= k
    requires IsTrace(rt, wf, id, v, wf.chain[i..], outputs, prev, rows) && |rows| >= k - i
    ensures IsTrace(rt2, wf2, id, v, wf2.chain[i..], outputs, prev, rows[..k - i])
    decreases k - i
  {
    if i < k {
      var name := wf.chain[i];
      assert wf2.chain[i] == name;
      JobOfPrefix(rt, rt2, wf, k, wf2, v, name, outputs);
      assert wf.chain[i..][1..] == wf.chain[i + 1..] && wf2.chain[i..][1..] == wf2.chain[i + 1..];
      TraceOfPrefix(rt, rt2, wf, k, wf2, id, v, i + 1, outputs[name := rows[0].output], rows[0].link, rows[1..]);
      assert rows[..k - i][1..] == rows[1..][..k - (i + 1)];
    }
  }

  lemma {:induction false} TraceOfWholePrefix(rt: Runtime, rt2: Runtime, wf: Workflow, k: nat, wf2: Workflow, id: string, v: Json, rows: seq<ReplayRow>)
    requires SourceStable(rt, rt2, wf.snapshot) && Prefixes(wf, k, wf2)
    requires IsTrace(rt, wf, id, v, wf.chain, map[], id, rows) && |rows| >= k
    ensures IsTrace(rt2, wf2, id, v, wf2.chain, map[], id, rows[..k])
  {
    assert wf.chain[0..] == wf.chain && wf2.chain[0..] == wf2.chain;
    TraceOfPrefix(rt, rt2, wf, k, wf2, id, v, 0, map[], id, rows);
  }

  // ---- Runs ----

  /** The content under which a run of wf on st stores its results. */
  ghost function RunContent(rt: Runtime, st: Store, wf: Workflow): Content
    requires Prepare(rt, st, wf.snapshot).Success?
  {
    Prepare(rt, st, wf.snapshot).value
  }

  /** What a successful run establishes. */
  ghost predicate Established(rt: Runtime, st: Store, wf: Workflow, o: Outcome<RunResult>) {
    && Prepare(rt, st, wf.snapshot).Success?
    && DominosOk(wf.dominos) && wf.chain != [] && ChainOk(wf.chain)
    && o.result.Success?
    && var c := RunContent(rt, st, wf);
    && var r := o.result.value;
    && r.snapshotId == c.id && |r.entries| == |wf.chain| && r.evaluations + r.reuses == |r.entries|
    && IsTrace(rt, wf, c.id, c.value, wf.chain, map[], c.id, r.entries)
    && Covers(o.store.memo, r.entries)
    && o.store.log == st.log + r.entries
    && GetSnapshot(o.store, c.id) == Some(SnapshotRow(wf.snapshot.timeSlice, c.data, true))
    && r.headLink == Head(c.id, r.entries)
    && r.finalOutput == r.entries[|r.entries| - 1].output
  }

  lemma {:induction false} OutputsAfterLast(outputs: map<string, string>, rows: seq<ReplayRow>)
    requires rows != []
    ensures OutputOf(OutputsAfter(outputs, rows), rows[|rows| - 1].dominoId) == rows[|rows| - 1].output
    decreases |rows|
  {
    var outputs' := outputs[rows[0].dominoId := rows[0].output];
    if |rows| == 1 {
      assert rows[1..] == [];
    } else {
      OutputsAfterLast(outputs', rows[1..]);
    }
  }

  lemma {:induction false} RunEstablishes(rt: Runtime, ticks: nat, st: Store, wf: Workflow)
    requires JsonLaws(rt) && DigestLaws(rt)
    requires Run(rt, ticks, st, wf).result.Success?
    ensures Established(rt, st, wf, Run(rt, ticks, st, wf))
  {
    var c := RunContent(rt, st, wf);
    ContentAfterSave(rt, st, wf.snapshot);
    var saved := SaveSnapshot(st, c.id, SnapshotRow(wf.snapshot.timeSlice, c.data, true)).value;
    ChainEstablishes(rt, ticks, saved, wf, c.id, c.value);
  }

  lemma {:induction false} ChainEstablishes(rt: Runtime, ticks: nat, st: Store, wf: Workflow, id: string, v: Json)
    requires Holds(rt, st, wf.snapshot, id, v)
    requires RunChain(rt, ticks, st, wf, id).result.Success?
    ensures var o := RunChain(rt, ticks, st, wf, id);
      var r := o.result.value;
      && DominosOk(wf.dominos) && wf.chain != [] && ChainOk(wf.chain)
      && r.snapshotId == id && |r.entries| == |wf.chain| && r.evaluations + r.reuses == |r.entries|
      && Appended(st, o.store, r.entries)
      && IsTrace(rt, wf, id, v, wf.chain, map[], id, r.entries)
      && r.headLink == Head(id, r.entries)
      && r.finalOutput == r.entries[|r.entries| - 1].output
  {
    var start := Cursor(st, ticks, map[], id, []);
    var rows := StepsTrace(rt, wf, id, v, wf.chain, start);
    var p := Steps(rt, wf, id, wf.chain, start);
    RunChainFrom(rt, ticks, st, wf, id, p);
    LastName(rt, wf, id, v, rows);
    TracedFinish(id, start, p.cursor, rows);
  }

  /** The result made of a cursor at the end of a trace. */
  lemma {:induction false} TracedFinish(id: string, start: Cursor, d: Cursor, rows: seq<ReplayRow>)
    requires start.outputs == map[] && start.prev == id && start.entries == [] && rows != []
    requires d.entries == start.entries + rows && d.outputs == OutputsAfter(start.outputs, rows) && d.prev == Head(start.prev, rows)
    ensures var last := rows[|rows| - 1];
      var r := FinishAt(id, last.dominoId, d);
      && r.snapshotId == id && r.entries == rows && r.evaluations + r.reuses == |rows|
      && r.headLink == Head(id, rows) && r.finalOutput == last.output
  {
    assert [] + rows == rows;
    OutputsAfterLast(map[], rows);
  }

  /** A store in which the sealed snapshot and the memo entries of a trace are present. */
  ghost predicate Carries(st: Store, id: string, row: SnapshotRow, rows: seq<ReplayRow>) {
    GetSnapshot(st, id) == Some(row) && row.sealed && Covers(st.memo, rows)
  }

  /** The exact outcome of a run in which every step is reused. */
  ghost function ReplayOutcome(ticks: nat, st: Store, id: string, rows: seq<ReplayRow>): Outcome<RunResult>
    requires rows != []
  {
    var last := rows[|rows| - 1];
    Outcome(st.(log := st.log + Reused(rows)), ticks,
            Success(RunResult(id, Reused(rows), last.output, 0, |rows|, last.link)))
  }

  /**
  The store st2 carries what a successful run of wf established. Then a run on st2 of wf, or of a
  prefix of its chain, has the exact outcome of a replay: no evaluation, same rows, same links.
  The executor of the second run, and even its commands, do not matter.
  */
  lemma {:induction false} CarriedRunReplays(rt: Runtime, ticks: nat, st: Store, wf: Workflow, k: nat, wf2: Workflow, rt2: Runtime, ticks2: nat, st2: Store)
    requires JsonLaws(rt) && DigestLaws(rt) && SourceStable(rt, rt2, wf.snapshot)
    requires Prefixes(wf, k, wf2)
    requires var o := Run(rt, ticks, st, wf);
      && o.result.Success?
      && Carries(st2, RunContent(rt, st, wf).id,
                 SnapshotRow(wf.snapshot.timeSlice, RunContent(rt, st, wf).data, true), o.result.value.entries)
    ensures var r := Run(rt, ticks, st, wf).result.value;
      k <= |r.entries| && Run(rt2, ticks2, st2, wf2) == ReplayOutcome(ticks2, st2, r.snapshotId, r.entries[..k])
  {
    RunEstablishes(rt, ticks, st, wf);
    var c := RunContent(rt, st, wf);
    var rows := Run(rt, ticks, st, wf).result.value.entries;
    ContentAfterSave(rt, st, wf.snapshot);
    PrepareAgain(rt, st, wf.snapshot, rt2, st2);
    WiringKeepsNames(wf, k, wf2);
    TraceOfWholePrefix(rt, rt2, wf, k, wf2, c.id, c.value, rows);
    CoveredChain(rt2, ticks2, st2, wf2, c.id, c.value, rows[..k]);
  }

  lemma {:induction false} PrepareAgain(rt: Runtime, st: Store, snap: Snapshot, rt2: Runtime, st2: Store)
    requires JsonLaws(rt) && DigestLaws(rt) && SourceStable(rt, rt2, snap)
    requires Prepare(rt, st, snap).Success?
    requires var c := Prepare(rt, st, snap).value;
      GetSnapshot(st2, c.id) == Some(SnapshotRow(snap.timeSlice, c.data, true))
    ensures Prepare(rt2, st2, snap) == Prepare(rt, st, snap)
    ensures var c := Prepare(rt, st, snap).value;
      && SaveSnapshot(st2, c.id, SnapshotRow(snap.timeSlice, c.data, true)) == Success(st2)
      && Holds(rt2, st2, snap, c.id, c.value)
  {
    ContentAfterSave(rt, st, snap);
  }

  lemma {:induction false} CoveredChain(rt: Runtime, ticks: nat, st: Store, wf: Workflow, id: string, v: Json, rows: seq<ReplayRow>)
    requires DominosOk(wf.dominos) && wf.chain != [] && ChainOk(wf.chain)
    requires Holds(rt, st, wf.snapshot, id, v)
    requires IsTrace(rt, wf, id, v, wf.chain, map[], id, rows) && |rows| == |wf.chain|
    requires Covers(st.memo, rows)
    ensures RunChain(rt, ticks, st, wf, id) == ReplayOutcome(ticks, st, id, rows)
  {
    CoveredSteps(rt, wf, id, v, wf.chain, Cursor(st, ticks, map[], id, []), rows);
    LastName(rt, wf, id, v, rows);
    ChainReplays(rt, ticks, st, wf, id, rows);
  }

  lemma {:induction false} LastName(rt: Runtime, wf: Workflow, id: string, v: Json, rows: seq<ReplayRow>)
    requires IsTrace(rt, wf, id, v, wf.chain, map[], id, rows) && |rows| == |wf.chain| && rows != []
    ensures rows[|rows| - 1].dominoId == wf.chain[|wf.chain| - 1]
  {
    TraceVerifies(rt, wf, id, v, wf.chain, map[], id, rows);
  }

  lemma {:induction false} ChainReplays(rt: Runtime, ticks: nat, st: Store, wf: Workflow, id: string, rows: seq<ReplayRow>)
    requires DominosOk(wf.dominos) && wf.chain != [] && ChainOk(wf.chain)
    requires rows != [] && rows[|rows| - 1].dominoId == wf.chain[|wf.chain| - 1]
    requires var start := Cursor(st, ticks, map[], id, []);
      Steps(rt, wf, id, wf.chain, start) == Progress(Replayed(start, rows), None)
    ensures RunChain(rt, ticks, st, wf, id) == ReplayOutcome(ticks, st, id, rows)
  {
    var start := Cursor(st, ticks, map[], id, []);
    RunChainFrom(rt, ticks, st, wf, id, Progress(Replayed(start, rows), None));
    ReplayedFinish(id, start, rows);
  }

  lemma {:induction false} ReplayedFinish(id: string, start: Cursor, rows: seq<ReplayRow>)
    requires start.outputs == map[] && start.prev == id && start.entries == [] && rows != []
    ensures var last := rows[|rows| - 1];
      FinishAt(id, last.dominoId, Replayed(start, rows)) == RunResult(id, Reused(rows), last.output, 0, |rows|, last.link)
  {
    OutputsAfterLast(map[], rows);
    CountReusedAll(rows);
    assert [] + Reused(rows) == Reused(rows);
  }

  lemma {:induction false} WiringKeepsNames(wf: Workflow, k: nat, wf2: Workflow)
    requires Prefixes(wf, k, wf2)
    ensures DominosOk(wf.dominos) ==> DominosOk(wf2.dominos)
    ensures ChainOk(wf.chain) ==> ChainOk(wf2.chain) && wf2.chain != []
  {
    assert forall i :: 0 <= i < |wf.dominos| ==> wf2.dominos[i].name == wf.dominos[i].name;
    assert Names(wf.dominos) == Names(wf2.dominos);
  }

  /** Pinning: after a successful run, and any writes since, the run and its prefixes only replay. */
  lemma {:induction false} SuccessIsPinned(rt: Runtime, ticks: nat, st: Store, wf: Workflow, ops: seq<Op>, k: nat, wf2: Workflow, rt2: Runtime, ticks2: nat)
    requires JsonLaws(rt) && DigestLaws(rt) && SourceStable(rt, rt2, wf.snapshot)
    requires Prefixes(wf, k, wf2)
    requires Run(rt, ticks, st, wf).result.Success?
    ensures var o := Run(rt, ticks, st, wf);
      var r := o.result.value;
      var later := ApplyAll(o.store, ops);
      k <= |r.entries| && Run(rt2, ticks2, later, wf2) == ReplayOutcome(ticks2, later, r.snapshotId, r.entries[..k])
  {
    var o := Run(rt, ticks, st, wf);
    var later := ApplyAll(o.store, ops);
    RunEstablishes(rt, ticks, st, wf);
    HistoryExtends(o.store, ops);
    assert Covers(later.memo, o.result.value.entries);
    CarriedRunReplays(rt, ticks, st, wf, k, wf2, rt2, ticks2, later);
  }

  /** The entries of a successful run are a spine from the snapshot ID to the head link. */
  lemma {:induction false} RunVerifies(rt: Runtime, ticks: nat, st: Store, wf: Workflow)
    requires JsonLaws(rt) && DigestLaws(rt)
    requires Run(rt, ticks, st, wf).result.Success?
    ensures var r := Run(rt, ticks, st, wf).result.value;
      && r.snapshotId == RunContent(rt, st, wf).id
      && Verifies(rt.digest, r.snapshotId, r.entries) && r.headLink == Head(r.snapshotId, r.entries)
      && forall e :: e in r.entries ==> e.snapshotId == r.snapshotId
  {
    RunEstablishes(rt, ticks, st, wf);
    var c := RunContent(rt, st, wf);
    TraceVerifies(rt, wf, c.id, c.value, wf.chain, map[], c.id, Run(rt, ticks, st, wf).result.value.entries);
  }
}
