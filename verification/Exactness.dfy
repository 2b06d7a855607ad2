/**
Exactly when a run is the memo-free fold. The condition is about the memo entries that the lookups of
the fold would hit; names bound to new commands are the way in which it fails.
*/
module Exactness {
  import opened Basics
  import opened Runtime
  import opened StoreModel
  import opened Spine
  import opened Workflows
  import opened Builtins
  import opened EngineSpec
  import opened MemoTransparency
  import opened Pinning

  // ---- Chains ----

  lemma {:induction false} StepsExtend(rt: Runtime, wf: Workflow, id: string, names: seq<string>, c: Cursor)
    ensures c.entries <= Steps(rt, wf, id, names, c).cursor.entries
    decreases |names|
  {
    if names != [] {
      var p := Step(rt, wf, id, names[0], c);
      if p.fault.None? {
        StepsExtend(rt, wf, id, names[1..], p.cursor);
      }
    }
  }

  lemma {:induction false} PlainStepsExtend(rt: Runtime, wf: Workflow, id: string, v: Json, names: seq<string>, t: Thread)
    ensures t.entries <= PlainSteps(rt, wf, id, v, names, t).thread.entries
    decreases |names|
  {
    if names != [] {
      var p := PlainStep(rt, wf, id, v, names[0], t);
      if p.fault.None? {
        PlainStepsExtend(rt, wf, id, v, names[1..], p.thread);
      }
    }
  }

  /** The same error or none, and the same rows recorded up to there. */
  ghost predicate SameProgress(p: Progress, q: PlainProgress) {
    p.fault == q.fault && Forget(p.cursor.entries) == q.thread.entries
  }

  /** Where the final rows agree, the memo entry of the next step, if any, was what evaluation gives. */
  lemma {:induction false} NextWasHonest(rt: Runtime, wf: Workflow, id: string, v: Json, names: seq<string>, c: Cursor, t: Thread)
    requires names != [] && Lockstep(c, t) && Holds(rt, c.store, wf.snapshot, id, v)
    requires SameProgress(Steps(rt, wf, id, names, c), PlainSteps(rt, wf, id, v, names, t))
    ensures var job := PlainJob(rt, wf, v, names[0], t.outputs);
      job.Success? ==> HonestHit(rt, c.store.memo, MemoKey(id, names[0], rt.digest(job.value.input)), job.value)
  {
    var job := PlainJob(rt, wf, v, names[0], t.outputs);
    assert StepJob(rt, wf, names[0], PreferStore(rt, c.store, wf.snapshot, id), c.outputs) == job;
    if job.Success? && MemoKey(id, names[0], rt.digest(job.value.input)) in c.store.memo {
      var p, q := Step(rt, wf, id, names[0], c), PlainStep(rt, wf, id, v, names[0], t);
      var all, plain := Steps(rt, wf, id, names, c).cursor.entries, PlainSteps(rt, wf, id, v, names, t).thread.entries;
      StepsExtend(rt, wf, id, names[1..], p.cursor);
      var n := |c.entries|;
      assert n == |Forget(c.entries)| == |t.entries|;
      assert |Forget(all)| == |all| > n && all[n] == p.cursor.entries[n];
      assert q.fault.None?;
      PlainStepsExtend(rt, wf, id, v, names[1..], q.thread);
      assert plain[n] == q.thread.entries[n];
      assert Forget(all)[n] == all[n].(reused := false);
    }
  }

  /** The converse of StepsAgree: a chain that records what the fold records met an honest memo. */
  lemma {:induction false} AgreeingIsHonest(rt: Runtime, wf: Workflow, id: string, v: Json, names: seq<string>, c: Cursor, t: Thread, memo: map<MemoKey, MemoValue>)
    requires Pure(rt, wf.dominos) && Lockstep(c, t) && Holds(rt, c.store, wf.snapshot, id, v)
    requires Distinct(names) && SameFor(c.store.memo, memo, names)
    requires SameProgress(Steps(rt, wf, id, names, c), PlainSteps(rt, wf, id, v, names, t))
    ensures Honest(rt, wf, id, v, names, t, memo)
    decreases |names|
  {
    if names != [] {
      NextWasHonest(rt, wf, id, v, names, c, t);
      StepAgrees(rt, wf, id, v, names[0], c, t);
      var p, q := Step(rt, wf, id, names[0], c), PlainStep(rt, wf, id, v, names[0], t);
      if q.fault.None? {
        assert forall n :: n in names[1..] ==> n in names && n != names[0];
        AgreeingIsHonest(rt, wf, id, v, names[1..], p.cursor, q.thread, memo);
      }
    }
  }

  lemma {:induction false} PlainNeverReused(rt: Runtime, wf: Workflow, id: string, v: Json, names: seq<string>, t: Thread)
    requires Forget(t.entries) == t.entries
    ensures var rows := PlainSteps(rt, wf, id, v, names, t).thread.entries;
      Forget(rows) == rows
    decreases |names|
  {
    if names != [] {
      var p := PlainStep(rt, wf, id, v, names[0], t);
      if p.fault.None? {
        var row := p.thread.entries[|t.entries|];
        assert p.thread.entries == t.entries + [row];
        assert Forget(t.entries + [row]) == Forget(t.entries) + [row];
        PlainNeverReused(rt, wf, id, v, names[1..], p.thread);
      }
    }
  }

  // ---- Runs ----

  /** Run gets past its snapshot: the content resolves, and no other content is sealed under its ID. */
  ghost predicate AcceptsSnapshot(rt: Runtime, st: Store, wf: Workflow) {
    var c := Prepare(rt, st, wf.snapshot);
    c.Success? && !RefusesSealedMutation(GetSnapshot(st, c.value.id), SnapshotRow(wf.snapshot.timeSlice, c.value.data, true))
  }

  /** The fold of the chain on the content that the run starts from. */
  ghost function FoldOf(rt: Runtime, st: Store, wf: Workflow): Result<RunResult>
    requires Prepare(rt, st, wf.snapshot).Success?
  {
    var c := RunContent(rt, st, wf);
    PlainRun(rt, wf, c.id, c.value)
  }

  /** The rows of that fold, up to its end or its first error. */
  ghost function FoldRows(rt: Runtime, st: Store, wf: Workflow): seq<ReplayRow>
    requires Prepare(rt, st, wf.snapshot).Success?
  {
    var c := RunContent(rt, st, wf);
    if Checked(wf) then PlainSteps(rt, wf, c.id, c.value, wf.chain, Thread(map[], c.id, [])).thread.entries else []
  }

  /** The run returns what the fold returns, and adds to the log the rows of the fold, also where it fails. */
  ghost predicate IsFold(rt: Runtime, ticks: nat, st: Store, wf: Workflow)
    requires Prepare(rt, st, wf.snapshot).Success?
  {
    var o := Run(rt, ticks, st, wf);
    && SameObservation(o.result, FoldOf(rt, st, wf))
    && st.log <= o.store.log && Forget(o.store.log[|st.log|..]) == FoldRows(rt, st, wf)
  }

  /** A checked run in terms of its loop. */
  lemma {:induction false} RunAsSteps(rt: Runtime, ticks: nat, st: Store, wf: Workflow) returns (start: Cursor)
    requires JsonLaws(rt) && DigestLaws(rt) && AcceptsSnapshot(rt, st, wf) && Checked(wf)
    ensures var c := RunContent(rt, st, wf);
      && start == Cursor(start.store, ticks, map[], c.id, []) && start.store.memo == st.memo
      && Holds(rt, start.store, wf.snapshot, c.id, c.value)
      && var p, o := Steps(rt, wf, c.id, wf.chain, start), Run(rt, ticks, st, wf);
      && o.store.log == st.log + p.cursor.entries
      && o.result == (if p.fault.Some? then Failure(p.fault.value)
                      else Success(FinishAt(c.id, wf.chain[|wf.chain| - 1], p.cursor)))
  {
    var c := RunContent(rt, st, wf);
    ContentAfterSave(rt, st, wf.snapshot);
    var saved := SaveSnapshot(st, c.id, SnapshotRow(wf.snapshot.timeSlice, c.data, true)).value;
    start := Cursor(saved, ticks, map[], c.id, []);
    RunChainFrom(rt, ticks, saved, wf, c.id, Steps(rt, wf, c.id, wf.chain, start));
    var rows := StepsTrace(rt, wf, c.id, c.value, wf.chain, start);
    assert [] + rows == rows;
  }

  lemma {:induction false} FoldIsHonest(rt: Runtime, ticks: nat, st: Store, wf: Workflow)
    requires JsonLaws(rt) && DigestLaws(rt) && Pure(rt, wf.dominos)
    requires AcceptsSnapshot(rt, st, wf) && IsFold(rt, ticks, st, wf)
    ensures HonestFor(rt, st, wf)
  {
    if Checked(wf) {
      var c := RunContent(rt, st, wf);
      var start := RunAsSteps(rt, ticks, st, wf);
      var p := Steps(rt, wf, c.id, wf.chain, start);
      assert Run(rt, ticks, st, wf).store.log[|st.log|..] == p.cursor.entries;
      AgreeingIsHonest(rt, wf, c.id, c.value, wf.chain, start, Thread(map[], c.id, []), st.memo);
    }
  }

  lemma {:induction false} HonestIsFold(rt: Runtime, ticks: nat, st: Store, wf: Workflow)
    requires JsonLaws(rt) && DigestLaws(rt) && Pure(rt, wf.dominos)
    requires AcceptsSnapshot(rt, st, wf) && HonestFor(rt, st, wf)
    ensures IsFold(rt, ticks, st, wf)
  {
    var o := Run(rt, ticks, st, wf);
    HonestRunIsTransparent(rt, ticks, st, wf);
    if Checked(wf) {
      var c := RunContent(rt, st, wf);
      var start := RunAsSteps(rt, ticks, st, wf);
      StepsAgree(rt, wf, c.id, c.value, wf.chain, start, Thread(map[], c.id, []), st.memo);
      assert o.store.log[|st.log|..] == Steps(rt, wf, c.id, wf.chain, start).cursor.entries;
    } else {
      assert o.store.log[|st.log|..] == [];
    }
  }

  /**
  For pure commands, on any store with any memo, whether the run succeeds or not: the run is the fold
  exactly when every memo entry that the lookups of the fold would hit is what evaluating the step gives.
  */
  lemma {:induction false} RunIsFoldIffHonest(rt: Runtime, ticks: nat, st: Store, wf: Workflow)
    requires JsonLaws(rt) && DigestLaws(rt) && Pure(rt, wf.dominos)
    requires AcceptsSnapshot(rt, st, wf)
    ensures IsFold(rt, ticks, st, wf) <==> HonestFor(rt, st, wf)
  {
    if HonestFor(rt, st, wf) {
      HonestIsFold(rt, ticks, st, wf);
    }
    if IsFold(rt, ticks, st, wf) {
      FoldIsHonest(rt, ticks, st, wf);
    }
  }

  /** What a successful run returns already shows its log, so returning what the fold returns is enough. */
  lemma {:induction false} TransparentSuccessIsFold(rt: Runtime, ticks: nat, st: Store, wf: Workflow)
    requires JsonLaws(rt) && DigestLaws(rt) && AcceptsSnapshot(rt, st, wf)
    requires Transparent(rt, ticks, st, wf) && Run(rt, ticks, st, wf).result.Success?
    ensures IsFold(rt, ticks, st, wf)
  {
    var c := RunContent(rt, st, wf);
    var origin := Thread(map[], c.id, []);
    var start := RunAsSteps(rt, ticks, st, wf);
    PlainNeverReused(rt, wf, c.id, c.value, wf.chain, origin);
    assert Run(rt, ticks, st, wf).store.log[|st.log|..] == Steps(rt, wf, c.id, wf.chain, start).cursor.entries;
  }

  /** The same for what a caller is given, wherever the run or the fold succeeds. */
  lemma {:induction false} TransparentIffHonest(rt: Runtime, ticks: nat, st: Store, wf: Workflow)
    requires JsonLaws(rt) && DigestLaws(rt) && Pure(rt, wf.dominos)
    requires AcceptsSnapshot(rt, st, wf)
    requires FoldOf(rt, st, wf).Success? || Run(rt, ticks, st, wf).result.Success?
    ensures Transparent(rt, ticks, st, wf) <==> HonestFor(rt, st, wf)
  {
    if HonestFor(rt, st, wf) {
      HonestRunIsTransparent(rt, ticks, st, wf);
    }
    if Transparent(rt, ticks, st, wf) {
      TransparentSuccessIsFold(rt, ticks, st, wf);
      FoldIsHonest(rt, ticks, st, wf);
    }
  }

  // ---- Names bound to new commands ----

  /** The rerun under other commands replays, and observes the old results. */
  lemma {:induction false} ReboundRunObserves(rt: Runtime, ticks: nat, st: Store, wf: Workflow, ops: seq<Op>, wf2: Workflow, rt2: Runtime, ticks2: nat)
    requires JsonLaws(rt) && DigestLaws(rt) && SourceStable(rt, rt2, wf.snapshot)
    requires Run(rt, ticks, st, wf).result.Success? && Prefixes(wf, |wf.chain|, wf2)
    ensures var o := Run(rt, ticks, st, wf);
      var later := ApplyAll(o.store, ops);
      && SameObservation(Run(rt2, ticks2, later, wf2).result, o.result)
      && AcceptsSnapshot(rt2, later, wf2) && RunContent(rt2, later, wf2) == RunContent(rt, st, wf)
  {
    RunEstablishes(rt, ticks, st, wf);
    WholeRunReplays(rt, ticks, st, wf, ops, wf2, rt2, ticks2);
    ReplayObserves(ticks2, ApplyAll(Run(rt, ticks, st, wf).store, ops), Run(rt, ticks, st, wf).result.value);
    SealedAgain(rt, ticks, st, wf, ops, wf2, rt2);
  }

  /** SuccessIsPinned for the whole chain. */
  lemma {:induction false} WholeRunReplays(rt: Runtime, ticks: nat, st: Store, wf: Workflow, ops: seq<Op>, wf2: Workflow, rt2: Runtime, ticks2: nat)
    requires JsonLaws(rt) && DigestLaws(rt) && SourceStable(rt, rt2, wf.snapshot)
    requires Established(rt, st, wf, Run(rt, ticks, st, wf)) && Prefixes(wf, |wf.chain|, wf2)
    ensures var o := Run(rt, ticks, st, wf);
      var later := ApplyAll(o.store, ops);
      Run(rt2, ticks2, later, wf2) == ReplayOutcome(ticks2, later, o.result.value.snapshotId, o.result.value.entries)
  {
    SuccessIsPinned(rt, ticks, st, wf, ops, |wf.chain|, wf2, rt2, ticks2);
    var rows := Run(rt, ticks, st, wf).result.value.entries;
    assert rows[..|wf.chain|] == rows;
  }

  /** The snapshot of a successful run is accepted again, with the same content. */
  lemma {:induction false} SealedAgain(rt: Runtime, ticks: nat, st: Store, wf: Workflow, ops: seq<Op>, wf2: Workflow, rt2: Runtime)
    requires JsonLaws(rt) && DigestLaws(rt) && SourceStable(rt, rt2, wf.snapshot) && wf2.snapshot == wf.snapshot
    requires Established(rt, st, wf, Run(rt, ticks, st, wf))
    ensures var later := ApplyAll(Run(rt, ticks, st, wf).store, ops);
      AcceptsSnapshot(rt2, later, wf2) && RunContent(rt2, later, wf2) == RunContent(rt, st, wf)
  {
    var o := Run(rt, ticks, st, wf);
    HistoryExtends(o.store, ops);
    PrepareAgain(rt, st, wf.snapshot, rt2, ApplyAll(o.store, ops));
  }

  /**
  A command is not part of a memo key. So a later run of the same wiring under other commands, after
  any writes, observes the old results; it is transparent exactly when each new command gives, on the
  inputs of its own fold, what the memo holds for them.
  */
  lemma {:induction false} ReboundRunIsStale(rt: Runtime, ticks: nat, st: Store, wf: Workflow, ops: seq<Op>, wf2: Workflow, rt2: Runtime, ticks2: nat)
    requires JsonLaws(rt) && DigestLaws(rt) && SourceStable(rt, rt2, wf.snapshot)
    requires Run(rt, ticks, st, wf).result.Success? && Prefixes(wf, |wf.chain|, wf2)
    ensures var o := Run(rt, ticks, st, wf);
      var later := ApplyAll(o.store, ops);
      && SameObservation(Run(rt2, ticks2, later, wf2).result, o.result)
      && (Pure(rt2, wf2.dominos) ==> (Transparent(rt2, ticks2, later, wf2) <==> HonestFor(rt2, later, wf2)))
  {
    var later := ApplyAll(Run(rt, ticks, st, wf).store, ops);
    ReboundRunObserves(rt, ticks, st, wf, ops, wf2, rt2, ticks2);
    if Pure(rt2, wf2.dominos) {
      TransparentIffHonest(rt2, ticks2, later, wf2);
    }
  }

  lemma {:induction false} ReplayObserves(ticks: nat, st: Store, r: RunResult)
    requires r.entries != [] && r.headLink == Head(r.snapshotId, r.entries)
    requires r.finalOutput == r.entries[|r.entries| - 1].output
    ensures SameObservation(ReplayOutcome(ticks, st, r.snapshotId, r.entries).result, Success(r))
  {
    assert Forget(Reused(r.entries)) == Forget(r.entries);
  }

  function OneStep(command: string): Workflow {
    Workflow(Snapshot("t", Inline(map[]), true, ""), [Domino("d", command, [], [])], ["d"], true, Sandbox(false, false))
  }

  lemma {:induction false} OneStepPlain(rt: Runtime, command: string, id: string)
    requires CommandRegularity(command) != Contract
    requires rt.exec(0, command, rt.marshal(Obj(map[]))).Some?
    ensures var r := PlainRun(rt, OneStep(command), id, Obj(map[]));
      r.Success? && Some(r.value.finalOutput) == rt.exec(0, command, rt.marshal(Obj(map[])))
  {
    var wf := OneStep(command);
    var start := Thread(map[], id, []);
    assert Names(wf.dominos) == ["d"] == wf.chain;
    assert IndexOf(wf.chain, "d") == 0;
    assert DeclaredReads(wf.dominos[0]) == [];
    var p := PlainStep(rt, wf, id, Obj(map[]), "d", start);
    assert p.fault.None?;
    assert wf.chain[1..] == [];
    assert PlainSteps(rt, wf, id, Obj(map[]), wf.chain, start) == PlainSteps(rt, wf, id, Obj(map[]), [], p.thread);
  }

  /** A name moved to a command that answers differently: the second run is not transparent. */
  lemma {:induction false} RebindingIsStale(rt: Runtime, one: string, two: string)
    requires JsonLaws(rt) && DigestLaws(rt)
    requires CommandRegularity(one) != Contract && CommandRegularity(two) != Contract && PureCommand(rt, one)
    requires var text := rt.marshal(Obj(map[]));
      rt.exec(0, one, text).Some? && rt.exec(0, two, text).Some? && rt.exec(0, one, text) != rt.exec(0, two, text)
    ensures var first := Run(rt, 0, EMPTY, OneStep(one));
      first.result.Success? && !Transparent(rt, first.ticks, first.store, OneStep(two))
  {
    var id, output := SnapshotId(rt, "t", Obj(map[])), rt.exec(0, one, rt.marshal(Obj(map[]))).value;
    OneStepRun(rt, one, output);
    OneStepPlain(rt, two, id);
    SecondStepRun(rt, one, two, output);
    var first := Run(rt, 0, EMPTY, OneStep(one));
    StaleIsNotTransparent(rt, first.ticks, first.store, OneStep(two), id, output);
  }

  /** For instance from builtin:identity to builtin:coarsen. */
  lemma {:induction false} RebindingBreaksTransparency(rt: Runtime)
    requires JsonLaws(rt) && DigestLaws(rt) && RunsBuiltins(rt)
    ensures var first := Run(rt, 0, EMPTY, OneStep("builtin:identity"));
      && first.result.Success?
      && !Transparent(rt, first.ticks, first.store, OneStep("builtin:coarsen"))
  {
    IdentityAndCoarsenDiffer(rt);
    RebindingIsStale(rt, "builtin:identity", "builtin:coarsen");
  }

  lemma {:induction false} IdentityAndCoarsenDiffer(rt: Runtime)
    requires JsonLaws(rt) && RunsBuiltins(rt)
    ensures PureCommand(rt, "builtin:identity")
    ensures CommandRegularity("builtin:identity") != Contract && CommandRegularity("builtin:coarsen") != Contract
    ensures var text := rt.marshal(Obj(map[]));
      rt.exec(0, "builtin:identity", text) == Some(text)
      && rt.exec(0, "builtin:coarsen", text).Some? && rt.exec(0, "builtin:coarsen", text) != Some(text)
  {
    var v := Obj(map[]);
    IdentityOfMarshal(rt, v);
    CoarsenOfMarshal(rt, v);
    var out := CoarsenResult(SumOf(CoarsenItems(v)), 1);
    assert "parts" in out.fields && "parts" !in v.fields;
    assert rt.unmarshal(rt.marshal(v)) != rt.unmarshal(rt.marshal(out));
  }

  /** The second of two one-step runs gives the output of the first. */
  lemma {:induction false} SecondStepRun(rt: Runtime, one: string, two: string, output: string)
    requires JsonLaws(rt) && DigestLaws(rt) && CommandRegularity(two) != Contract
    requires var r := Run(rt, 0, EMPTY, OneStep(one)).result;
      r.Success? && r.value.finalOutput == output
    ensures var first := Run(rt, 0, EMPTY, OneStep(one));
      var c := Prepare(rt, first.store, OneStep(two).snapshot);
      var r := Run(rt, first.ticks, first.store, OneStep(two)).result;
      && c.Success? && c.value.id == SnapshotId(rt, "t", Obj(map[])) && c.value.value == Obj(map[])
      && r.Success? && r.value.finalOutput == output
  {
    var a, b := OneStep(one), OneStep(two);
    assert a.chain[..1] == b.chain;
    ReboundRunObserves(rt, 0, EMPTY, a, [], b, rt, Run(rt, 0, EMPTY, a).ticks);
  }

  lemma {:induction false} OneStepRun(rt: Runtime, command: string, output: string)
    requires JsonLaws(rt) && DigestLaws(rt)
    requires CommandRegularity(command) != Contract && PureCommand(rt, command)
    requires rt.exec(0, command, rt.marshal(Obj(map[]))) == Some(output)
    ensures var r := Run(rt, 0, EMPTY, OneStep(command)).result;
      r.Success? && r.value.finalOutput == output
  {
    var wf := OneStep(command);
    FreshAccepts(rt, wf);
    InlineRunIsPlain(rt, 0, EMPTY, wf);
    OneStepPlain(rt, command, SnapshotId(rt, "t", Obj(map[])));
  }

  /** A run that succeeds with another output than the fold is not transparent. */
  lemma {:induction false} StaleIsNotTransparent(rt: Runtime, ticks: nat, st: Store, wf: Workflow, id: string, output: string)
    requires var c := Prepare(rt, st, wf.snapshot);
      c.Success? && c.value.id == id
      && var plain, r := PlainRun(rt, wf, id, c.value.value), Run(rt, ticks, st, wf).result;
      plain.Success? && plain.value.finalOutput != output && r.Success? && r.value.finalOutput == output
    ensures !Transparent(rt, ticks, st, wf)
  {
  }

  lemma {:induction false} FreshAccepts(rt: Runtime, wf: Workflow)
    requires wf.snapshot.source.Inline? && |wf.chain| == 1
    ensures Accepts(rt, EMPTY, wf)
  {
    var v, id := InlineValue(wf.snapshot), InlineId(rt, wf.snapshot);
    var t := Thread(map[], id, []);
    assert Honest(rt, wf, id, v, wf.chain[1..], PlainStep(rt, wf, id, v, wf.chain[0], t).thread, map[]);
  }
}
