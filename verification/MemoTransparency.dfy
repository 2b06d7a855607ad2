/** The memo is invisible: a run equals the memo-free, store-free fold of its chain. */
module MemoTransparency {
  import opened Basics
  import opened Runtime
  import opened StoreModel
  import opened Spine
  import opened Workflows
  import opened EngineSpec

  // ---- The memo-free fold ----

  datatype Thread = Thread(outputs: map<string, string>, prev: string, entries: seq<ReplayRow>)

  datatype PlainProgress = PlainProgress(thread: Thread, fault: Option<Fault>)

  /** The job of a step when the snapshot content is v. */
  ghost function PlainJob(rt: Runtime, wf: Workflow, v: Json, name: string, outputs: map<string, string>): Result<Job> {
    StepJob(rt, wf, name, Success(Content(v, "", "")), outputs)
  }

  ghost function PlainStep(rt: Runtime, wf: Workflow, id: string, v: Json, name: string, t: Thread): PlainProgress {
    var job := PlainJob(rt, wf, v, name, t.outputs);
    if job.Failure? then PlainProgress(t, Some(job.fault))
    else
      var out := rt.exec(0, job.value.command, job.value.input);
      if out.None? then PlainProgress(t, Some(ExecFailed))
      else
        var key := MemoKey(id, name, rt.digest(job.value.input));
        var row := MakeRow(rt, key, MemoValue(rt.digest(out.value), out.value), false, t.prev);
        PlainProgress(Thread(t.outputs[name := out.value], row.link, t.entries + [row]), None)
  }

  ghost function PlainSteps(rt: Runtime, wf: Workflow, id: string, v: Json, names: seq<string>, t: Thread): PlainProgress
    decreases |names|
  {
    if names == [] then PlainProgress(t, None)
    else
      var p := PlainStep(rt, wf, id, v, names[0], t);
      if p.fault.Some? then p else PlainSteps(rt, wf, id, v, names[1..], p.thread)
  }

  ghost function PlainRun(rt: Runtime, wf: Workflow, id: string, v: Json): Result<RunResult> {
    if !DominosOk(wf.dominos) then Failure(BadDomino)
    else if wf.chain == [] then Failure(EmptyChain)
    else if !ChainOk(wf.chain) then Failure(BadChain)
    else
      var p := PlainSteps(rt, wf, id, v, wf.chain, Thread(map[], id, []));
      if p.fault.Some? then Failure(p.fault.value)
      else
        var t := p.thread;
        Success(RunResult(id, t.entries, OutputOf(t.outputs, wf.chain[|wf.chain| - 1]), |t.entries|, 0, t.prev))
  }

  lemma {:induction false} PlainStepsAppend(rt: Runtime, wf: Workflow, id: string, v: Json, a: seq<string>, b: seq<string>, t: Thread)
    ensures var p := PlainSteps(rt, wf, id, v, a, t);
            PlainSteps(rt, wf, id, v, a + b, t) ==
            if p.fault.Some? then p else PlainSteps(rt, wf, id, v, b, p.thread)
    decreases |a|
  {
    if a == [] {
      assert a + b == b;
    } else {
      assert (a + b)[1..] == a[1..] + b;
      var p := PlainStep(rt, wf, id, v, a[0], t);
      if p.fault.None? {
        PlainStepsAppend(rt, wf, id, v, a[1..], b, p.thread);
      }
    }
  }

  // ---- What an observer sees of a run ----

  function Forget(rows: seq<ReplayRow>): seq<ReplayRow> {
    seq(|rows|, i requires 0 <= i < |rows| => rows[i].(reused := false))
  }

  /** Equal up to which steps were reused. */
  ghost predicate SameObservation(a: Result<RunResult>, b: Result<RunResult>) {
    match (a, b)
    case (Success(x), Success(y)) =>
      && x.snapshotId == y.snapshotId && x.finalOutput == y.finalOutput && x.headLink == y.headLink
      && Forget(x.entries) == Forget(y.entries)
    case (Failure(f), Failure(g)) => f == g
    case _ => false
  }

  ghost predicate Lockstep(c: Cursor, t: Thread) {
    c.outputs == t.outputs && c.prev == t.prev && Forget(c.entries) == t.entries
  }

  /** In this store the content of the snapshot is v. */
  ghost predicate Holds(rt: Runtime, st: Store, snap: Snapshot, id: string, v: Json) {
    var c := PreferStore(rt, st, snap, id);
    c.Success? && c.value.value == v
  }

  // ---- Honest memos ----

  /** A memo entry for this job, if there is one, is what evaluating the job gives. */
  ghost predicate HonestHit(rt: Runtime, memo: map<MemoKey, MemoValue>, key: MemoKey, job: Job) {
    key in memo ==>
      && rt.exec(0, job.command, job.input) == Some(memo[key].output)
      && memo[key].outputHash == rt.digest(memo[key].output)
  }

  /** The memo is honest on every job that the memo-free fold meets. */
  ghost predicate Honest(rt: Runtime, wf: Workflow, id: string, v: Json, names: seq<string>, t: Thread, memo: map<MemoKey, MemoValue>)
    decreases |names|
  {
    names == [] ||
    (var job := PlainJob(rt, wf, v, names[0], t.outputs);
     job.Failure? ||
     (&& HonestHit(rt, memo, MemoKey(id, names[0], rt.digest(job.value.input)), job.value)
      && (var p := PlainStep(rt, wf, id, v, names[0], t);
          p.fault.Some? || Honest(rt, wf, id, v, names[1..], p.thread, memo))))
  }

  ghost predicate SameFor(a: map<MemoKey, MemoValue>, b: map<MemoKey, MemoValue>, names: seq<string>) {
    forall k: MemoKey :: k.dominoId in names ==> (k in a <==> k in b) && (k in a ==> a[k] == b[k])
  }

  /** One step: the memoised and the plain one stay together, and the memo gains at most this job. */
  lemma {:induction false} StepAgrees(rt: Runtime, wf: Workflow, id: string, v: Json, name: string, c: Cursor, t: Thread)
    requires Pure(rt, wf.dominos) && Lockstep(c, t) && Holds(rt, c.store, wf.snapshot, id, v)
    requires var job := PlainJob(rt, wf, v, name, t.outputs);
      job.Success? ==> HonestHit(rt, c.store.memo, MemoKey(id, name, rt.digest(job.value.input)), job.value)
    ensures var p, q := Step(rt, wf, id, name, c), PlainStep(rt, wf, id, v, name, t);
      && p.fault == q.fault && Lockstep(p.cursor, q.thread)
      && Holds(rt, p.cursor.store, wf.snapshot, id, v)
      && MemoGains(rt, c.store.memo, p.cursor.store.memo, id, name, PlainJob(rt, wf, v, name, t.outputs))
  {
    var p, q := Step(rt, wf, id, name, c), PlainStep(rt, wf, id, v, name, t);
    var job := StepJob(rt, wf, name, PreferStore(rt, c.store, wf.snapshot, id), c.outputs);
    assert job == PlainJob(rt, wf, v, name, t.outputs);
    if job.Success? && q.fault.None? {
      var row := Memoised(rt, c.ticks, c.store, id, name, job.value, c.prev).result.value;
      assert Forget(c.entries + [row]) == Forget(c.entries) + Forget([row]);
    }
  }

  ghost predicate MemoGains(rt: Runtime, before: map<MemoKey, MemoValue>, after: map<MemoKey, MemoValue>, id: string, name: string, job: Result<Job>) {
    after == before ||
    (&& job.Success?
     && var out := rt.exec(0, job.value.command, job.value.input);
     && out.Some?
     && after == before[MemoKey(id, name, rt.digest(job.value.input)) := MemoValue(rt.digest(out.value), out.value)])
  }

  /** The whole chain, from a memo that is honest on it. */
  lemma {:induction false} StepsAgree(rt: Runtime, wf: Workflow, id: string, v: Json, names: seq<string>, c: Cursor, t: Thread, memo: map<MemoKey, MemoValue>)
    requires Pure(rt, wf.dominos) && Lockstep(c, t) && Holds(rt, c.store, wf.snapshot, id, v)
    requires Distinct(names) && SameFor(c.store.memo, memo, names)
    requires Honest(rt, wf, id, v, names, t, memo)
    ensures var p, q := Steps(rt, wf, id, names, c), PlainSteps(rt, wf, id, v, names, t);
      p.fault == q.fault && Lockstep(p.cursor, q.thread)
    decreases |names|
  {
    if names != [] {
      StepAgrees(rt, wf, id, v, names[0], c, t);
      var p, q := Step(rt, wf, id, names[0], c), PlainStep(rt, wf, id, v, names[0], t);
      if p.fault.None? {
        assert forall n :: n in names[1..] ==> n in names && n != names[0];
        StepsAgree(rt, wf, id, v, names[1..], p.cursor, q.thread, memo);
      }
    }
  }

  // ---- Valid memos ----

  /** Every domino of the workflow has the command that its name is bound to. */
  ghost predicate Bound(wf: Workflow, bind: map<string, string>) {
    forall d :: d in wf.dominos ==> d.name in bind && bind[d.name] == d.command
  }

  ghost predicate IsPreimage(rt: Runtime, command: string, input: string, key: MemoKey, value: MemoValue) {
    && rt.digest(input) == key.inputHash
    && rt.exec(0, command, input) == Some(value.output)
    && value.outputHash == rt.digest(value.output)
  }

  /** Memo integrity: each entry came from the bound command, on one of the inputs met so far. */
  ghost predicate MemoValid(rt: Runtime, bind: map<string, string>, met: set<string>, memo: map<MemoKey, MemoValue>) {
    forall k :: k in memo ==>
      k.dominoId in bind && exists input :: input in met && IsPreimage(rt, bind[k.dominoId], input, k, memo[k])
  }

  /** The inputs that the memo-free fold meets. */
  ghost function PlainInputs(rt: Runtime, wf: Workflow, id: string, v: Json, names: seq<string>, t: Thread): set<string>
    decreases |names|
  {
    if names == [] then {}
    else
      var job := PlainJob(rt, wf, v, names[0], t.outputs);
      var p := PlainStep(rt, wf, id, v, names[0], t);
      (if job.Success? then {job.value.input} else {}) +
      (if p.fault.Some? then {} else PlainInputs(rt, wf, id, v, names[1..], p.thread))
  }

  lemma {:induction false} ValidIsHonest(rt: Runtime, wf: Workflow, bind: map<string, string>, met: set<string>, id: string, v: Json, names: seq<string>, t: Thread, memo: map<MemoKey, MemoValue>)
    requires Bound(wf, bind) && MemoValid(rt, bind, met, memo)
    requires CollisionFree(rt.digest, met + PlainInputs(rt, wf, id, v, names, t))
    ensures Honest(rt, wf, id, v, names, t, memo)
    decreases |names|
  {
    if names != [] {
      var job := PlainJob(rt, wf, v, names[0], t.outputs);
      if job.Success? {
        var key := MemoKey(id, names[0], rt.digest(job.value.input));
        if key in memo {
          var input :| input in met && IsPreimage(rt, bind[key.dominoId], input, key, memo[key]);
          assert input == job.value.input;
        }
        var p := PlainStep(rt, wf, id, v, names[0], t);
        if p.fault.None? {
          ValidIsHonest(rt, wf, bind, met, id, v, names[1..], p.thread, memo);
        }
      }
    }
  }

  /** However far the chain gets, the memo it leaves is valid. */
  lemma {:induction false} StepsKeepValid(rt: Runtime, wf: Workflow, bind: map<string, string>, met: set<string>, id: string, v: Json, names: seq<string>, c: Cursor, t: Thread)
    requires Pure(rt, wf.dominos) && Lockstep(c, t) && Holds(rt, c.store, wf.snapshot, id, v)
    requires Bound(wf, bind) && MemoValid(rt, bind, met, c.store.memo)
    requires CollisionFree(rt.digest, met + PlainInputs(rt, wf, id, v, names, t))
    ensures MemoValid(rt, bind, met + PlainInputs(rt, wf, id, v, names, t), Steps(rt, wf, id, names, c).cursor.store.memo)
    decreases |names|
  {
    if names != [] {
      ValidIsHonest(rt, wf, bind, met, id, v, names, t, c.store.memo);
      StepAgrees(rt, wf, id, v, names[0], c, t);
      var p, q := Step(rt, wf, id, names[0], c), PlainStep(rt, wf, id, v, names[0], t);
      var job := PlainJob(rt, wf, v, names[0], t.outputs);
      var met' := met + if job.Success? then {job.value.input} else {};
      StepKeepsValid(rt, wf, bind, met, id, names[0], job, c.store.memo, p.cursor.store.memo);
      var all := met + PlainInputs(rt, wf, id, v, names, t);
      if p.fault.None? {
        assert met' + PlainInputs(rt, wf, id, v, names[1..], q.thread) == all;
        StepsKeepValid(rt, wf, bind, met', id, v, names[1..], p.cursor, q.thread);
      } else {
        assert met' == all;
      }
    }
  }

  lemma {:induction false} StepKeepsValid(rt: Runtime, wf: Workflow, bind: map<string, string>, met: set<string>, id: string, name: string, job: Result<Job>, before: map<MemoKey, MemoValue>, after: map<MemoKey, MemoValue>)
    requires Bound(wf, bind) && MemoValid(rt, bind, met, before) && MemoGains(rt, before, after, id, name, job)
    requires job.Success? ==> name in bind && job.value.command == bind[name]
    ensures MemoValid(rt, bind, met + (if job.Success? then {job.value.input} else {}), after)
  {
    var met' := met + if job.Success? then {job.value.input} else {};
    forall k | k in after
      ensures k.dominoId in bind && exists input :: input in met' && IsPreimage(rt, bind[k.dominoId], input, k, after[k])
    {
      if k in before && after[k] == before[k] {
        var input :| input in met && IsPreimage(rt, bind[k.dominoId], input, k, before[k]);
        assert input in met';
      } else {
        assert IsPreimage(rt, bind[k.dominoId], job.value.input, k, after[k]);
      }
    }
  }

  // ---- Runs ----

  lemma {:induction false} SnapshotIdLength(rt: Runtime, timeSlice: string, v: Json)
    requires DigestLaws(rt)
    ensures |SnapshotId(rt, timeSlice, v)| == SNAPSHOT_ID_HEX_LEN
  {
  }

  /** Once Run has saved the snapshot, every later resolution finds the content it started from. */
  lemma {:induction false} ContentAfterSave(rt: Runtime, st: Store, snap: Snapshot)
    requires JsonLaws(rt) && DigestLaws(rt)
    requires Prepare(rt, st, snap).Success?
    ensures var c := Prepare(rt, st, snap).value;
      var saved := SaveSnapshot(st, c.id, SnapshotRow(snap.timeSlice, c.data, true));
      && |c.id| == SNAPSHOT_ID_HEX_LEN && c.data != "" && rt.unmarshal(c.data) == Some(c.value)
      && (saved.Success? ==>
            && Holds(rt, saved.value, snap, c.id, c.value)
            && GetSnapshot(saved.value, c.id) == Some(SnapshotRow(snap.timeSlice, c.data, true)))
  {
    var c := Prepare(rt, st, snap).value;
    SnapshotIdLength(rt, snap.timeSlice, c.value);
    MarshalText(rt, c.value);
  }

  /** The inputs that a run meets in the memo-free fold. */
  ghost function RunInputs(rt: Runtime, st: Store, wf: Workflow): set<string> {
    var c := Prepare(rt, st, wf.snapshot);
    if c.Failure? then {}
    else PlainInputs(rt, wf, c.value.id, c.value.value, wf.chain, Thread(map[], c.value.id, []))
  }

  /** The run gives what the fold gives; a sealed row with other content refuses it and nothing is written. */
  ghost predicate Transparent(rt: Runtime, ticks: nat, st: Store, wf: Workflow) {
    var c := Prepare(rt, st, wf.snapshot);
    var o := Run(rt, ticks, st, wf);
    if c.Failure? then o == Outcome(st, ticks, Failure(c.fault))
    else if RefusesSealedMutation(GetSnapshot(st, c.value.id), SnapshotRow(wf.snapshot.timeSlice, c.value.data, true))
    then o == Outcome(st, ticks, Failure(SealedOverwrite))
    else SameObservation(o.result, PlainRun(rt, wf, c.value.id, c.value.value))
  }

  /** The loop over the chain is reached. */
  ghost predicate Checked(wf: Workflow) {
    DominosOk(wf.dominos) && wf.chain != [] && ChainOk(wf.chain)
  }

  /** Each memo entry that the lookups of the fold would hit is what evaluating the step gives. */
  ghost predicate HonestFor(rt: Runtime, st: Store, wf: Workflow) {
    var c := Prepare(rt, st, wf.snapshot);
    c.Success? && Checked(wf) ==>
      Honest(rt, wf, c.value.id, c.value.value, wf.chain, Thread(map[], c.value.id, []), st.memo)
  }

  /** Transparency from honesty alone, for instance on a store whose memo is empty. */
  lemma {:induction false} HonestRunIsTransparent(rt: Runtime, ticks: nat, st: Store, wf: Workflow)
    requires JsonLaws(rt) && DigestLaws(rt) && Pure(rt, wf.dominos)
    requires HonestFor(rt, st, wf)
    ensures Transparent(rt, ticks, st, wf)
  {
    var prepared := Prepare(rt, st, wf.snapshot);
    if prepared.Success? {
      var c := prepared.value;
      ContentAfterSave(rt, st, wf.snapshot);
      var saved := SaveSnapshot(st, c.id, SnapshotRow(wf.snapshot.timeSlice, c.data, true));
      if saved.Success? && Checked(wf) {
        var start := Cursor(saved.value, ticks, map[], c.id, []);
        StepsAgree(rt, wf, c.id, c.value, wf.chain, start, Thread(map[], c.id, []), st.memo);
        var q := PlainSteps(rt, wf, c.id, c.value, wf.chain, Thread(map[], c.id, []));
        ForgetTwice(Steps(rt, wf, c.id, wf.chain, start).cursor.entries);
      }
    }
  }

  /** The snapshot content and ID of an inline snapshot without status. */
  function InlineValue(snap: Snapshot): Json
    requires snap.source.Inline?
  {
    Obj(snap.source.fields)
  }

  function InlineId(rt: Runtime, snap: Snapshot): string
    requires snap.source.Inline?
  {
    SnapshotId(rt, snap.timeSlice, InlineValue(snap))
  }

  /** The store does not hold other content sealed under the ID, and its memo is honest on the chain. */
  ghost predicate Accepts(rt: Runtime, st: Store, wf: Workflow)
    requires wf.snapshot.source.Inline?
  {
    var v, id := InlineValue(wf.snapshot), InlineId(rt, wf.snapshot);
    && !RefusesSealedMutation(GetSnapshot(st, id), SnapshotRow(wf.snapshot.timeSlice, rt.marshal(v), true))
    && Honest(rt, wf, id, v, wf.chain, Thread(map[], id, []), st.memo)
  }

  /** Transparency for a sealed inline snapshot, where nothing needs to be read from the store first. */
  lemma {:induction false} InlineRunIsPlain(rt: Runtime, ticks: nat, st: Store, wf: Workflow)
    requires JsonLaws(rt) && DigestLaws(rt) && Pure(rt, wf.dominos)
    requires wf.snapshot.sealed && wf.snapshot.source.Inline? && wf.snapshot.statusId == ""
    requires Accepts(rt, st, wf)
    ensures var a, b := Run(rt, ticks, st, wf).result, PlainRun(rt, wf, InlineId(rt, wf.snapshot), InlineValue(wf.snapshot));
      SameObservation(a, b) && (a.Success? ==> |a.value.entries| == |b.value.entries|)
  {
    var v := InlineValue(wf.snapshot);
    assert Prepare(rt, st, wf.snapshot) == Success(Content(v, rt.marshal(v), InlineId(rt, wf.snapshot)));
    HonestRunIsTransparent(rt, ticks, st, wf);
    var a, b := Run(rt, ticks, st, wf).result, PlainRun(rt, wf, InlineId(rt, wf.snapshot), v);
    assert SameObservation(a, b);
    if a.Success? {
      assert |a.value.entries| == |Forget(a.value.entries)| == |Forget(b.value.entries)| == |b.value.entries|;
    }
  }

  lemma {:induction false} ForgetTwice(rows: seq<ReplayRow>)
    ensures Forget(Forget(rows)) == Forget(rows)
  {
  }

  /** Memo transparency, and validity of the memo that is left, also when the run fails midway. */
  lemma {:induction false} RunIsTransparent(rt: Runtime, ticks: nat, st: Store, wf: Workflow, bind: map<string, string>, met: set<string>)
    requires JsonLaws(rt) && DigestLaws(rt) && Pure(rt, wf.dominos)
    requires Bound(wf, bind) && MemoValid(rt, bind, met, st.memo)
    requires CollisionFree(rt.digest, met + RunInputs(rt, st, wf))
    ensures Transparent(rt, ticks, st, wf)
    ensures MemoValid(rt, bind, met + RunInputs(rt, st, wf), Run(rt, ticks, st, wf).store.memo)
  {
    var prepared := Prepare(rt, st, wf.snapshot);
    MemoValidGrows(rt, bind, met, met + RunInputs(rt, st, wf), st.memo);
    if prepared.Success? {
      var c := prepared.value;
      var start := Thread(map[], c.id, []);
      ValidIsHonest(rt, wf, bind, met, c.id, c.value, wf.chain, start, st.memo);
      ContentAfterSave(rt, st, wf.snapshot);
      var saved := SaveSnapshot(st, c.id, SnapshotRow(wf.snapshot.timeSlice, c.data, true));
      if saved.Success? && Checked(wf) {
        StepsKeepValid(rt, wf, bind, met, c.id, c.value, wf.chain, Cursor(saved.value, ticks, map[], c.id, []), start);
      }
    }
    HonestRunIsTransparent(rt, ticks, st, wf);
  }

  lemma {:induction false} MemoValidGrows(rt: Runtime, bind: map<string, string>, a: set<string>, b: set<string>, memo: map<MemoKey, MemoValue>)
    requires a <= b && MemoValid(rt, bind, a, memo)
    ensures MemoValid(rt, bind, b, memo)
  {
    forall k | k in memo
      ensures exists input :: input in b && IsPreimage(rt, bind[k.dominoId], input, k, memo[k])
    {
      var input :| input in a && IsPreimage(rt, bind[k.dominoId], input, k, memo[k]);
      assert input in b;
    }
  }

  // ---- Histories of runs on one store ----

  ghost function HistoryInputs(rt: Runtime, ticks: nat, st: Store, wfs: seq<Workflow>): set<string>
    decreases |wfs|
  {
    if wfs == [] then {}
    else
      var o := Run(rt, ticks, st, wfs[0]);
      RunInputs(rt, st, wfs[0]) + HistoryInputs(rt, o.ticks, o.store, wfs[1..])
  }

  ghost predicate AllTransparent(rt: Runtime, ticks: nat, st: Store, wfs: seq<Workflow>)
    decreases |wfs|
  {
    wfs == [] ||
    (var o := Run(rt, ticks, st, wfs[0]);
     Transparent(rt, ticks, st, wfs[0]) && AllTransparent(rt, o.ticks, o.store, wfs[1..]))
  }

  /** Any sequence of runs, successful or not, of workflows that agree on what each name runs. */
  lemma {:induction false} HistoryIsTransparent(rt: Runtime, ticks: nat, st: Store, wfs: seq<Workflow>, bind: map<string, string>, met: set<string>)
    requires JsonLaws(rt) && DigestLaws(rt)
    requires forall wf :: wf in wfs ==> Bound(wf, bind) && Pure(rt, wf.dominos)
    requires MemoValid(rt, bind, met, st.memo)
    requires CollisionFree(rt.digest, met + HistoryInputs(rt, ticks, st, wfs))
    ensures AllTransparent(rt, ticks, st, wfs)
    decreases |wfs|
  {
    if wfs != [] {
      var wf := wfs[0];
      var o := Run(rt, ticks, st, wf);
      RunIsTransparent(rt, ticks, st, wf, bind, met);
      var met' := met + RunInputs(rt, st, wf);
      assert met' + HistoryInputs(rt, o.ticks, o.store, wfs[1..]) == met + HistoryInputs(rt, ticks, st, wfs);
      HistoryIsTransparent(rt, o.ticks, o.store, wfs[1..], bind, met');
    }
  }
}
