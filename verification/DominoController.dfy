/**
Standalone dominos: the controller runs each one by itself, once the dominos it depends on are done, on
their outputs in the shared store and from the head of the snapshot's spine.
*/
module DominoSpec {
  import opened Basics
  import opened Runtime
  import opened StoreModel
  import opened Workflows
  import opened EngineSpec

  datatype DominoPhase = New | Pending | Completed | Cached | Error
  {
    predicate Done() {
      Completed? || Cached?
    }
  }

  /** The shared store, the evaluation counter, and the phase of every domino resource that exists. */
  datatype Cluster = Cluster(store: Store, ticks: nat, phases: map<string, DominoPhase>)

  /** The outputs of the dependencies, or None while one of them is not done. */
  function Dependencies(st: Store, id: string, deps: seq<string>, phases: map<string, DominoPhase>): Result<Option<map<string, string>>> {
    if deps == [] then Success(Some(map[]))
    else
      var n := |deps| - 1;
      var before := Dependencies(st, id, deps[..n], phases);
      if before.Failure? || before.value.None? then before
      else if deps[n] !in phases then Failure(NotFound)
      else if !phases[deps[n]].Done() then Success(None)
      else
        var latest := LatestFields(st, id, deps[n]);
        if latest.None? then Failure(NotFound)
        else Success(Some(before.value.value[deps[n] := latest.value.1.output]))
  }

  function WithPhase(k: Cluster, name: string, phase: DominoPhase): Cluster {
    k.(phases := k.phases[name := phase])
  }

  /** sealed is the phase of the snapshot resource; its status ID is the one in snap. */
  function Reconcile(rt: Runtime, k: Cluster, snap: Snapshot, sealed: bool, julia: bool, d: Domino): Cluster
  {
    if d.name !in k.phases || k.phases[d.name].Done() then k
    else if !sealed || snap.statusId == "" then WithPhase(k, d.name, Pending)
    else if HasPrefix(d.command, "julia:") && !julia then WithPhase(k, d.name, Pending)
    else
      var id := snap.statusId;
      var prior := Dependencies(k.store, id, d.dependsOn, k.phases);
      if prior.Failure? then WithPhase(k, d.name, Error)
      else if prior.value.None? then WithPhase(k, d.name, Pending)
      else
        var o := RunSingleFrom(rt, k.ticks, k.store, id, snap, d, prior.value.value, SpineHead(Rows(k.store, id), id));
        var phase := if o.result.Failure? then Error else if o.result.value.reused then Cached else Completed;
        Cluster(o.store, o.ticks, k.phases[d.name := phase])
  }
}

module DominoController {
  import opened Basics
  import opened Runtime
  import opened StoreModel
  import opened Workflows
  import opened EngineImpl
  import Spec = DominoSpec
  import opened DominoSpec

  class DominoReconciler {
    const engine: Engine
    const julia: bool  // whether the operator has a Julia runtime
    var phases: map<string, DominoPhase>

    constructor (engine: Engine, julia: bool, names: set<string>)
      ensures this.engine == engine && this.julia == julia
      ensures phases == map name | name in names :: New
    {
      this.engine, this.julia := engine, julia;
      phases := map name | name in names :: New;
    }

    ghost predicate Valid()
      reads this, engine, engine.store
    {
      engine.store.Valid()
    }

    ghost function State(): Cluster
      reads this, engine, engine.store
    {
      Cluster(engine.store.State(), engine.ticks, phases)
    }

    method LoadDependencyOutputs(d: Domino, id: string) returns (prior: Result<Option<map<string, string>>>)
      requires Valid()
      ensures prior == Dependencies(engine.store.State(), id, d.dependsOn, phases)
    {
      var outputs: map<string, string> := map[];
      for i := 0 to |d.dependsOn|
        invariant Dependencies(engine.store.State(), id, d.dependsOn[..i], phases) == Success(Some(outputs))
      {
        var dep := d.dependsOn[i];
        assert d.dependsOn[..i + 1][..i] == d.dependsOn[..i];
        if dep !in phases {
          DependenciesStop(engine.store.State(), id, d.dependsOn, i + 1, phases);
          return Failure(NotFound);
        }
        if !phases[dep].Done() {
          DependenciesStop(engine.store.State(), id, d.dependsOn, i + 1, phases);
          return Success(None);
        }
        var latest := engine.store.GetLatestResult(id, dep);
        if latest.None? {
          DependenciesStop(engine.store.State(), id, d.dependsOn, i + 1, phases);
          return Failure(NotFound);
        }
        outputs := outputs[dep := latest.value.1.output];
      }
      assert d.dependsOn[..|d.dependsOn|] == d.dependsOn;
      return Success(Some(outputs));
    }

    method Reconcile(snap: Snapshot, sealed: bool, d: Domino)
      requires Valid()
      modifies this, engine, engine.store
      ensures Valid()
      ensures State() == Spec.Reconcile(engine.rt, old(State()), snap, sealed, julia, d)
    {
      if d.name !in phases {
        return;
      }
      if phases[d.name].Done() {
        return;
      }
      if !sealed || snap.statusId == "" {
        phases := phases[d.name := Pending];
        return;
      }
      if HasPrefix(d.command, "julia:") && !julia {
        phases := phases[d.name := Pending];
        return;
      }
      var prior := LoadDependencyOutputs(d, snap.statusId);
      if prior.Failure? {
        phases := phases[d.name := Error];
        return;
      }
      if prior.value.None? {
        phases := phases[d.name := Pending];
        return;
      }
      var row := engine.RunNext(snap.statusId, snap, d, prior.value.value);
      phases := phases[d.name := if row.Failure? then Error else if row.value.reused then Cached else Completed];
    }
  }

  /** The loop over the dependencies ends at the first one that is missing or not done. */
  lemma {:induction false} DependenciesStop(st: Store, id: string, deps: seq<string>, n: nat, phases: map<string, DominoPhase>)
    requires n <= |deps|
    requires var r := Dependencies(st, id, deps[..n], phases);
      r.Failure? || r.value.None?
    ensures Dependencies(st, id, deps, phases) == Dependencies(st, id, deps[..n], phases)
    decreases |deps| - n
  {
    if n == |deps| {
      assert deps[..n] == deps;
    } else {
      assert deps[..n + 1][..n] == deps[..n];
      DependenciesStop(st, id, deps, n + 1, phases);
    }
  }
}

module DominoTheorems {
  import opened Basics
  import opened Runtime
  import opened StoreModel
  import opened Workflows
  import opened EngineSpec
  import opened MemoTransparency
  import opened Pinning
  import opened Exactness
  import opened SnapshotIdentity
  import opened StepInputs
  import opened DominoSpec

  // ---- Dependencies ----

  ghost predicate IsReady(st: Store, id: string, dep: string, phases: map<string, DominoPhase>) {
    dep in phases && phases[dep].Done() && LatestResult(st, id, dep).Some?
  }

  ghost predicate AreOutputs(st: Store, id: string, deps: seq<string>, prior: map<string, string>) {
    && prior.Keys == Elements(deps)
    && forall dep :: dep in deps ==> LatestResult(st, id, dep).Some? && LatestResult(st, id, dep).value.output == prior[dep]
  }

  /** The outputs are given exactly when every dependency is done and has a result: the latest one of each. */
  lemma {:induction false} DependenciesAreOutputs(st: Store, id: string, deps: seq<string>, phases: map<string, DominoPhase>)
    ensures var r := Dependencies(st, id, deps, phases);
      && (r.Success? && r.value.Some? <==> forall dep :: dep in deps ==> IsReady(st, id, dep, phases))
      && (r.Success? && r.value.Some? ==> AreOutputs(st, id, deps, r.value.value))
      && (r.Success? && r.value.None? ==> exists dep :: dep in deps && dep in phases && !phases[dep].Done())
  {
    if deps != [] {
      var n := |deps| - 1;
      DependenciesAreOutputs(st, id, deps[..n], phases);
      assert deps == deps[..n] + [deps[n]];
      assert IsReady(st, id, deps[n], phases) ==> LatestFields(st, id, deps[n]).Some?;
    }
  }

  // ---- One reconcile is one step of the chain ----

  /** A step by itself, in place of the step of a chain whose checks pass. */
  lemma {:induction false} SingleIsStep(rt: Runtime, wf: Workflow, id: string, name: string, d: Domino, c: Cursor)
    requires FindDomino(wf.dominos, name) == Some(d)
    requires wf.deterministic ==> AllowDeterministic(d.command, wf.sandbox)
    requires ReadsAllowed(wf.chain, name, DeclaredReads(d))
    requires wf.snapshot.sealed && id != "" && c.prev != ""
    ensures var o := RunSingleFrom(rt, c.ticks, c.store, id, wf.snapshot, d, c.outputs, c.prev);
      Step(rt, wf, id, name, c) == Progress(
        if o.result.Failure? then c.(store := o.store, ticks := o.ticks)
        else Cursor(o.store, o.ticks, c.outputs[name := o.result.value.output], o.result.value.link, c.entries + [o.result.value]),
        FaultOf(o.result))
  {
  }

  /** A domino of the chain that can run standalone: it depends on earlier steps, and on all that it reads. */
  ghost predicate WiredAt(wf: Workflow, i: nat)
    requires i < |wf.chain|
  {
    var found := FindDomino(wf.dominos, wf.chain[i]);
    && found.Some?
    && (forall dep :: dep in found.value.dependsOn ==> dep in wf.chain[..i])
    && (forall input :: input in found.value.inputs && input.fromDomino != "" ==> input.fromDomino in found.value.dependsOn)
    && (wf.deterministic ==> AllowDeterministic(found.value.command, wf.sandbox))
  }

  ghost predicate Wired(wf: Workflow) {
    forall i: nat :: i < |wf.chain| ==> WiredAt(wf, i)
  }

  lemma {:induction false} WiredReadsAllowed(wf: Workflow, i: nat)
    requires ChainOk(wf.chain) && i < |wf.chain| && WiredAt(wf, i)
    ensures ReadsAllowed(wf.chain, wf.chain[i], DeclaredReads(FindDomino(wf.dominos, wf.chain[i]).value))
  {
    var d := FindDomino(wf.dominos, wf.chain[i]).value;
    forall dep | dep in d.dependsOn
      ensures IsEarlier(wf.chain, d.name, dep)
    {
      var j :| 0 <= j < i && wf.chain[..i][j] == dep;
      assert wf.chain[j] == dep;
    }
    ReadsAllowedIsEarlier(wf.chain, d);
  }

  /** The cluster stands where the loop over the chain stands: same store, same head, and outputs in the log. */
  ghost predicate Matches(id: string, c: Cursor, k: Cluster) {
    && c.store == k.store && c.ticks == k.ticks
    && c.prev != "" && c.prev == SpineHead(Rows(k.store, id), id)
    && forall name :: name in c.outputs ==> IsDone(k, id, name, c.outputs[name])
  }

  /** The domino is done, and its latest result has this output. */
  ghost predicate IsDone(k: Cluster, id: string, name: string, output: string) {
    IsReady(k.store, id, name, k.phases) && LatestResult(k.store, id, name).value.output == output
  }

  lemma {:induction false} SameParts(rt: Runtime, inputs: seq<Input>, v: Json, a: map<string, string>, b: map<string, string>)
    requires forall input :: input in inputs && input.fromDomino != "" ==>
               (input.fromDomino in a <==> input.fromDomino in b) && (input.fromDomino in a ==> a[input.fromDomino] == b[input.fromDomino])
    ensures Parts(rt, inputs, v, a) == Parts(rt, inputs, v, b)
  {
    if inputs != [] {
      var n := |inputs| - 1;
      SameParts(rt, inputs[..n], v, a, b);
      assert inputs[n] in inputs;
    }
  }

  /** The outputs of the dependencies serve as well as the outputs of all earlier steps. */
  lemma {:induction false} PriorServes(rt: Runtime, ticks: nat, st: Store, id: string, snap: Snapshot, d: Domino, a: map<string, string>, b: map<string, string>, prev: string)
    requires snap.statusId in {"", id}
    requires a.Keys == Elements(d.dependsOn) && forall dep :: dep in a ==> dep in b && a[dep] == b[dep]
    requires forall input :: input in d.inputs && input.fromDomino != "" ==> input.fromDomino in d.dependsOn
    ensures RunSingleFrom(rt, ticks, st, id, snap.(statusId := id), d, a, prev) == RunSingleFrom(rt, ticks, st, id, snap, d, b, prev)
  {
    var content := PreferStore(rt, st, snap, id);
    assert PreferStore(rt, st, snap.(statusId := id), id) == content;
    if content.Success? {
      SameParts(rt, d.inputs, content.value.value, a, b);
    }
  }

  /** A new row is the latest result of its domino, and leaves those of the others. */
  lemma {:induction false} LatestAfter(a: Store, b: Store, id: string, row: ReplayRow)
    requires b.log == a.log + [row] && row.snapshotId == id && row.link != ""
    ensures forall name :: LatestResult(b, id, name) == if name == row.dominoId then Some(row) else LatestResult(a, id, name)
    ensures SpineHead(Rows(b, id), id) == row.link
  {
    RowsAppend(a, b, [row], id, id);
    forall name
      ensures LatestResult(b, id, name) == if name == row.dominoId then Some(row) else LatestResult(a, id, name)
    {
      LastRowAppend(Rows(a, id), [row], name);
      assert [row][..0] == [];
    }
  }

  /** Where the standalone dominos of a chain run: their snapshot, sealed under its ID, and Julia at hand. */
  ghost predicate CanRun(wf: Workflow, id: string, julia: bool) {
    && ChainOk(wf.chain) && Wired(wf) && wf.snapshot.sealed && id != "" && wf.snapshot.statusId in {"", id}
    && NeedsNoJulia(wf, julia)
  }

  ghost predicate NeedsNoJulia(wf: Workflow, julia: bool) {
    julia || forall d :: d in wf.dominos ==> !HasPrefix(d.command, "julia:")
  }

  lemma {:induction false} AcceptedCanRun(rt: Runtime, st: Store, wf: Workflow, julia: bool)
    requires JsonLaws(rt) && DigestLaws(rt) && AcceptsSnapshot(rt, st, wf)
    requires ChainOk(wf.chain) && Wired(wf) && NeedsNoJulia(wf, julia)
    ensures CanRun(wf, RunContent(rt, st, wf).id, julia)
  {
    ContentAfterSave(rt, st, wf.snapshot);
    var v := PreparedIsContent(rt, st, wf.snapshot);
    PreparesContent(rt, st, wf.snapshot, v);
  }

  ghost function ReconcileName(rt: Runtime, k: Cluster, wf: Workflow, id: string, julia: bool, name: string): Cluster {
    var found := FindDomino(wf.dominos, name);
    if found.None? then k else Reconcile(rt, k, wf.snapshot.(statusId := id), true, julia, found.value)
  }

  /** The cluster follows the loop: it matches the cursor, and the first i dominos of the chain are done and no others. */
  ghost predicate Follows(wf: Workflow, id: string, i: nat, c: Cursor, k: Cluster)
    requires i <= |wf.chain|
  {
    && Matches(id, c, k)
    && (forall j :: 0 <= j < i ==> wf.chain[j] in c.outputs)
    && (forall j :: i <= j < |wf.chain| ==> IsOpen(k, wf.chain[j]))
  }

  predicate IsOpen(k: Cluster, name: string) {
    name in k.phases && !k.phases[name].Done()
  }

  predicate HasPhase(k: Cluster, name: string, phase: DominoPhase) {
    name in k.phases && k.phases[name] == phase
  }

  /** The domino of the i-th step. */
  ghost function DominoAt(wf: Workflow, i: nat): (d: Domino)
    requires i < |wf.chain| && WiredAt(wf, i)
    ensures d.name == wf.chain[i]
  {
    FindDomino(wf.dominos, wf.chain[i]).value
  }

  ghost function SingleAt(rt: Runtime, wf: Workflow, id: string, d: Domino, c: Cursor): Outcome<ReplayRow> {
    RunSingleFrom(rt, c.ticks, c.store, id, wf.snapshot, d, c.outputs, c.prev)
  }

  function PhaseOf(r: Result<ReplayRow>): DominoPhase {
    if r.Failure? then Error else if r.value.reused then Cached else Completed
  }

  /** What the reconcile of the next domino of the chain runs. */
  lemma {:induction false} ReconcileRuns(rt: Runtime, wf: Workflow, id: string, julia: bool, i: nat, c: Cursor, k: Cluster)
    requires CanRun(wf, id, julia) && i < |wf.chain| && Follows(wf, id, i, c, k) && WiredAt(wf, i)
    ensures var d := DominoAt(wf, i);
      var o := SingleAt(rt, wf, id, d, c);
      ReconcileName(rt, k, wf, id, julia, wf.chain[i]) == Cluster(o.store, o.ticks, k.phases[d.name := PhaseOf(o.result)])
  {
    var d := DominoAt(wf, i);
    assert IsOpen(k, wf.chain[i]);
    DependenciesAreOutputs(k.store, id, d.dependsOn, k.phases);
    var prior := Dependencies(k.store, id, d.dependsOn, k.phases).value.value;
    forall dep | dep in prior
      ensures dep in c.outputs && prior[dep] == c.outputs[dep]
    {
      assert dep in d.dependsOn;
    }
    PriorServes(rt, c.ticks, c.store, id, wf.snapshot, d, prior, c.outputs, c.prev);
  }

  /** The cluster after the step that appended row. */
  ghost predicate Recorded(id: string, name: string, c: Cursor, k: Cluster, row: ReplayRow, c': Cursor, k': Cluster) {
    && row.snapshotId == id && row.dominoId == name && row.link != ""
    && c'.outputs == c.outputs[name := row.output] && c'.prev == row.link
    && c'.store == k'.store && c'.ticks == k'.ticks && c'.store.log == c.store.log + [row]
    && k'.phases == k.phases[name := if row.reused then Cached else Completed]
  }

  lemma {:induction false} MatchesNext(id: string, name: string, c: Cursor, k: Cluster, row: ReplayRow, c': Cursor, k': Cluster)
    requires Matches(id, c, k) && Recorded(id, name, c, k, row, c', k')
    ensures Matches(id, c', k')
  {
    LatestAfter(c.store, c'.store, id, row);
    forall other | other in c'.outputs
      ensures IsDone(k', id, other, c'.outputs[other])
    {
      assert other != name ==> IsDone(k, id, other, c.outputs[other]);
    }
  }

  lemma {:induction false} FollowsNext(wf: Workflow, id: string, i: nat, c: Cursor, k: Cluster, row: ReplayRow, c': Cursor, k': Cluster)
    requires ChainOk(wf.chain) && i < |wf.chain| && Follows(wf, id, i, c, k)
    requires Recorded(id, wf.chain[i], c, k, row, c', k')
    ensures Follows(wf, id, i + 1, c', k')
  {
    MatchesNext(id, wf.chain[i], c, k, row, c', k');
    forall j | i + 1 <= j < |wf.chain|
      ensures IsOpen(k', wf.chain[j])
    {
      assert IsOpen(k, wf.chain[j]);
    }
  }

  /** The reconcile of the next domino does to the store what the loop over the chain does, or both fail. */
  lemma {:induction false} ReconcileIsStep(rt: Runtime, wf: Workflow, id: string, julia: bool, i: nat, c: Cursor, k: Cluster)
    requires DigestLaws(rt) && CanRun(wf, id, julia) && i < |wf.chain| && Follows(wf, id, i, c, k)
    ensures var p := Step(rt, wf, id, wf.chain[i], c);
      var k' := ReconcileName(rt, k, wf, id, julia, wf.chain[i]);
      && k'.store == p.cursor.store && k'.ticks == p.cursor.ticks
      && if p.fault.Some? then HasPhase(k', wf.chain[i], Error) else Follows(wf, id, i + 1, p.cursor, k')
  {
    assert WiredAt(wf, i);
    var d := DominoAt(wf, i);
    WiredReadsAllowed(wf, i);
    SingleIsStep(rt, wf, id, wf.chain[i], d, c);
    ReconcileRuns(rt, wf, id, julia, i, c, k);
    var o := SingleAt(rt, wf, id, d, c);
    if o.result.Success? {
      SingleAppends(rt, wf, id, d, c);
      FollowsNext(wf, id, i, c, k, o.result.value, Step(rt, wf, id, wf.chain[i], c).cursor, ReconcileName(rt, k, wf, id, julia, wf.chain[i]));
    }
  }

  lemma {:induction false} SingleAppends(rt: Runtime, wf: Workflow, id: string, d: Domino, c: Cursor)
    requires DigestLaws(rt) && SingleAt(rt, wf, id, d, c).result.Success?
    ensures var o := SingleAt(rt, wf, id, d, c);
      var row := o.result.value;
      o.store.log == c.store.log + [row] && row.snapshotId == id && row.dominoId == d.name && row.link != ""
  {
    var o := SingleAt(rt, wf, id, d, c);
    assert |o.result.value.link| == 64;
  }

  ghost function ReconcileNames(rt: Runtime, k: Cluster, wf: Workflow, id: string, julia: bool, names: seq<string>): Cluster
    decreases |names|
  {
    if names == [] then k
    else ReconcileNames(rt, ReconcileName(rt, k, wf, id, julia, names[0]), wf, id, julia, names[1..])
  }

  lemma {:induction false} ReconcileFirst(rt: Runtime, k: Cluster, wf: Workflow, id: string, julia: bool, i: nat, n: nat)
    requires i < n <= |wf.chain|
    ensures ReconcileNames(rt, k, wf, id, julia, wf.chain[i..n]) ==
            ReconcileNames(rt, ReconcileName(rt, k, wf, id, julia, wf.chain[i]), wf, id, julia, wf.chain[i + 1..n])
  {
    assert wf.chain[i..n][1..] == wf.chain[i + 1..n];
  }

  lemma {:induction false} StepsFirst(rt: Runtime, wf: Workflow, id: string, i: nat, c: Cursor)
    requires i < |wf.chain|
    ensures var p := Step(rt, wf, id, wf.chain[i], c);
      Steps(rt, wf, id, wf.chain[i..], c) == if p.fault.Some? then p else Steps(rt, wf, id, wf.chain[i + 1..], p.cursor)
  {
    assert wf.chain[i..][1..] == wf.chain[i + 1..];
  }

  /** The cluster stands where the loop ended: after the step that failed, or after the last one. */
  ghost predicate EndsLike(wf: Workflow, id: string, n: nat, p: Progress, k: Cluster)
    requires n <= |wf.chain|
  {
    && k.store == p.cursor.store && k.ticks == p.cursor.ticks
    && if p.fault.Some? then n > 0 && HasPhase(k, wf.chain[n - 1], Error) else n == |wf.chain| && Follows(wf, id, n, p.cursor, k)
  }

  lemma {:induction false} AlongNone(rt: Runtime, wf: Workflow, id: string, julia: bool, c: Cursor, k: Cluster)
    requires Follows(wf, id, |wf.chain|, c, k)
    ensures var n := |wf.chain|;
      EndsLike(wf, id, n, Steps(rt, wf, id, wf.chain[n..], c), ReconcileNames(rt, k, wf, id, julia, wf.chain[n..n]))
  {
  }

  lemma {:induction false} AlongStops(rt: Runtime, wf: Workflow, id: string, julia: bool, i: nat, c: Cursor, k: Cluster)
    requires DigestLaws(rt) && CanRun(wf, id, julia) && i < |wf.chain| && Follows(wf, id, i, c, k)
    requires Step(rt, wf, id, wf.chain[i], c).fault.Some?
    ensures EndsLike(wf, id, i + 1, Steps(rt, wf, id, wf.chain[i..], c), ReconcileNames(rt, k, wf, id, julia, wf.chain[i..i + 1]))
  {
    ReconcileIsStep(rt, wf, id, julia, i, c, k);
    ReconcileFirst(rt, k, wf, id, julia, i, i + 1);
  }

  /** The reconciles up to step n, the first one that fails or the last one, leave the store of the loop. */
  lemma {:induction false} ReconcilesAlong(rt: Runtime, wf: Workflow, id: string, julia: bool, i: nat, c: Cursor, k: Cluster) returns (n: nat)
    requires DigestLaws(rt) && CanRun(wf, id, julia) && i <= |wf.chain| && Follows(wf, id, i, c, k)
    ensures i <= n <= |wf.chain|
    ensures EndsLike(wf, id, n, Steps(rt, wf, id, wf.chain[i..], c), ReconcileNames(rt, k, wf, id, julia, wf.chain[i..n]))
    decreases |wf.chain| - i
  {
    if i == |wf.chain| {
      n := i;
      AlongNone(rt, wf, id, julia, c, k);
    } else if Step(rt, wf, id, wf.chain[i], c).fault.Some? {
      n := i + 1;
      AlongStops(rt, wf, id, julia, i, c, k);
    } else {
      ReconcileIsStep(rt, wf, id, julia, i, c, k);
      StepsFirst(rt, wf, id, i, c);
      n := ReconcilesAlong(rt, wf, id, julia, i + 1, Step(rt, wf, id, wf.chain[i], c).cursor, ReconcileName(rt, k, wf, id, julia, wf.chain[i]));
      ReconcileFirst(rt, k, wf, id, julia, i, n);
    }
  }

  /**
  Standalone dominos, reconciled in chain order on a store where the snapshot is sealed and its log is
  empty, write what one run of the workflow writes, up to the first step that fails.
  */
  lemma {:induction false} StandaloneIsRun(rt: Runtime, ticks: nat, st: Store, wf: Workflow, julia: bool, phases: map<string, DominoPhase>)
    returns (n: nat)
    requires JsonLaws(rt) && DigestLaws(rt) && AcceptsSnapshot(rt, st, wf) && Checked(wf)
    requires Wired(wf) && NeedsNoJulia(wf, julia)
    requires Rows(st, RunContent(rt, st, wf).id) == []
    requires forall name :: name in wf.chain ==> name in phases && !phases[name].Done()
    ensures var c := RunContent(rt, st, wf);
      var o := Run(rt, ticks, st, wf);
      var saved := SaveSnapshot(st, c.id, SnapshotRow(wf.snapshot.timeSlice, c.data, true));
      && saved.Success? && 0 < n <= |wf.chain|
      && var k := ReconcileNames(rt, Cluster(saved.value, ticks, phases), wf, c.id, julia, wf.chain[..n]);
      && k.store == o.store && k.ticks == o.ticks
      && if o.result.Failure? then HasPhase(k, wf.chain[n - 1], Error)
         else n == |wf.chain| && AllDone(wf, c.id, k, o.result.value)
  {
    var c := RunContent(rt, st, wf);
    AcceptedCanRun(rt, st, wf, julia);
    var saved := SaveSnapshot(st, c.id, SnapshotRow(wf.snapshot.timeSlice, c.data, true)).value;
    assert Rows(saved, c.id) == Rows(st, c.id);
    n := ChainReconciles(rt, ticks, saved, wf, c.id, julia, phases);
  }

  /** Every domino of the chain is done, the last one with the final output, and the log ends in the head link. */
  ghost predicate AllDone(wf: Workflow, id: string, k: Cluster, r: RunResult)
    requires wf.chain != []
  {
    && (forall name :: name in wf.chain ==> IsReady(k.store, id, name, k.phases))
    && IsDone(k, id, wf.chain[|wf.chain| - 1], r.finalOutput)
    && SpineHead(Rows(k.store, id), id) == r.headLink
  }

  lemma {:induction false} ChainReconciles(rt: Runtime, ticks: nat, st: Store, wf: Workflow, id: string, julia: bool, phases: map<string, DominoPhase>)
    returns (n: nat)
    requires DigestLaws(rt) && Checked(wf) && CanRun(wf, id, julia) && Rows(st, id) == []
    requires forall name :: name in wf.chain ==> name in phases && !phases[name].Done()
    ensures 0 < n <= |wf.chain|
    ensures var o := RunChain(rt, ticks, st, wf, id);
      var k := ReconcileNames(rt, Cluster(st, ticks, phases), wf, id, julia, wf.chain[..n]);
      && k.store == o.store && k.ticks == o.ticks
      && if o.result.Failure? then HasPhase(k, wf.chain[n - 1], Error)
         else n == |wf.chain| && AllDone(wf, id, k, o.result.value)
  {
    var start := Cursor(st, ticks, map[], id, []);
    assert wf.chain[0..] == wf.chain && wf.chain[..0] == [];
    n := ReconcilesAlong(rt, wf, id, julia, 0, start, Cluster(st, ticks, phases));
    assert wf.chain[0..n] == wf.chain[..n];
    var p := Steps(rt, wf, id, wf.chain, start);
    RunChainFrom(rt, ticks, st, wf, id, p);
    if p.fault.None? {
      AllFollow(wf, id, p.cursor, ReconcileNames(rt, Cluster(st, ticks, phases), wf, id, julia, wf.chain[..n]));
    }
  }

  lemma {:induction false} AllFollow(wf: Workflow, id: string, c: Cursor, k: Cluster)
    requires wf.chain != [] && Follows(wf, id, |wf.chain|, c, k)
    ensures AllDone(wf, id, k, FinishAt(id, wf.chain[|wf.chain| - 1], c))
  {
    forall name | name in wf.chain
      ensures name in c.outputs && IsDone(k, id, name, c.outputs[name])
    {
      var j :| 0 <= j < |wf.chain| && wf.chain[j] == name;
    }
    assert wf.chain[|wf.chain| - 1] in wf.chain;
  }

  // ---- Inputs that are not dependencies ----

  ghost predicate Undeclared(d: Domino) {
    exists i :: 0 <= i < |d.inputs| && d.inputs[i].fromDomino != "" && d.inputs[i].fromDomino !in d.dependsOn
  }

  /** The command never fails. */
  ghost predicate Total(rt: Runtime, command: string) {
    forall t: nat, x: string :: rt.exec(t, command, x).Some?
  }

  /**
  A chain lets a step read any earlier output; a standalone domino sees those of its dependencies only.
  Once they are ready, it fails on a missing output exactly when an input is not declared as a dependency.
  */
  lemma {:induction false} UndeclaredInputFails(rt: Runtime, k: Cluster, snap: Snapshot, julia: bool, d: Domino, v: Json)
    requires JsonLaws(rt) && snap.sealed && snap.statusId != "" && ContentIs(rt, k.store, snap, v)
    requires d.name in k.phases && !k.phases[d.name].Done() && (julia || !HasPrefix(d.command, "julia:"))
    requires forall dep :: dep in d.dependsOn ==> IsReady(k.store, snap.statusId, dep, k.phases)
    ensures var k' := Reconcile(rt, k, snap, true, julia, d);
      if Undeclared(d) then k' == WithPhase(k, d.name, Error)
      else
        || IsReady(k'.store, snap.statusId, d.name, k'.phases)
        || (!Total(rt, d.command) && k' == WithPhase(k, d.name, Error).(ticks := k.ticks + 1))
  {
    var id := snap.statusId;
    DependenciesAreOutputs(k.store, id, d.dependsOn, k.phases);
    var prior := Dependencies(k.store, id, d.dependsOn, k.phases).value.value;
    assert snap.(statusId := id) == snap;
    var head := SpineHead(Rows(k.store, id), id);
    var vals, x := SingleStepDid(rt, k.ticks, k.store, id, snap, d, prior, head, v);
    assert Undeclared(d) <==> Lacks(d.inputs, prior);
    var o := RunSingleFrom(rt, k.ticks, k.store, id, snap, d, prior, head);
    if o.result.Success? {
      AppendedIsLatest(k.store, o.store, id, o.result.value);
    }
  }

  lemma {:induction false} AppendedIsLatest(a: Store, b: Store, id: string, row: ReplayRow)
    requires b.log == a.log + [row] && row.snapshotId == id
    ensures LatestResult(b, id, row.dominoId) == Some(row)
  {
    RowsAppend(a, b, [row], id, id);
    LastRowAppend(Rows(a, id), [row], row.dominoId);
    assert [row][..0] == [];
  }

  // ---- Any order ----

  /** A domino that is done has a result, and so have its dependencies. */
  ghost predicate Causal(wf: Workflow, id: string, k: Cluster) {
    forall d :: d in wf.dominos && d.name in k.phases && k.phases[d.name].Done() ==>
      forall name :: name in [d.name] + d.dependsOn ==> IsReady(k.store, id, name, k.phases)
  }

  /** Nothing is lost from cluster k to cluster k'. */
  ghost predicate Keeps(id: string, k: Cluster, k': Cluster) {
    && k'.store.snapshots == k.store.snapshots && k'.phases.Keys == k.phases.Keys
    && forall name :: IsReady(k.store, id, name, k.phases) ==> IsReady(k'.store, id, name, k'.phases)
  }

  /** A reconcile that does not get through changes no result: only the phase of a domino that was not done. */
  ghost predicate Stalls(k: Cluster, d: Domino, k': Cluster) {
    && k'.store == k.store
    && (k'.phases == k.phases
        || (IsOpen(k, d.name) && IsOpen(k', d.name) && k'.phases == k.phases[d.name := k'.phases[d.name]]))
  }

  /** A reconcile that gets through appends one row. */
  ghost predicate GetsThrough(id: string, k: Cluster, d: Domino, k': Cluster, row: ReplayRow) {
    && IsOpen(k, d.name)
    && (forall dep :: dep in d.dependsOn ==> IsReady(k.store, id, dep, k.phases))
    && row.snapshotId == id && row.dominoId == d.name && row.link != ""
    && k'.store.log == k.store.log + [row] && k'.store.snapshots == k.store.snapshots
    && k'.phases == k.phases[d.name := if row.reused then Cached else Completed]
  }

  lemma {:induction false} ReconcileEnds(rt: Runtime, k: Cluster, snap: Snapshot, julia: bool, d: Domino) returns (row: ReplayRow)
    requires DigestLaws(rt) && snap.statusId != ""
    ensures var k' := Reconcile(rt, k, snap, true, julia, d);
      Stalls(k, d, k') || GetsThrough(snap.statusId, k, d, k', row)
  {
    var id := snap.statusId;
    row :| true;
    if IsOpen(k, d.name) && (julia || !HasPrefix(d.command, "julia:")) {
      DependenciesAreOutputs(k.store, id, d.dependsOn, k.phases);
      var prior := Dependencies(k.store, id, d.dependsOn, k.phases);
      if prior.Success? && prior.value.Some? {
        row := SingleEnds(rt, k, snap, d, prior.value.value);
      }
    }
  }

  lemma {:induction false} SingleEnds(rt: Runtime, k: Cluster, snap: Snapshot, d: Domino, prior: map<string, string>) returns (row: ReplayRow)
    requires DigestLaws(rt) && IsOpen(k, d.name)
    requires forall dep :: dep in d.dependsOn ==> IsReady(k.store, snap.statusId, dep, k.phases)
    ensures var id := snap.statusId;
      var o := RunSingleFrom(rt, k.ticks, k.store, id, snap, d, prior, SpineHead(Rows(k.store, id), id));
      var k' := Cluster(o.store, o.ticks, k.phases[d.name := PhaseOf(o.result)]);
      Stalls(k, d, k') || GetsThrough(id, k, d, k', row)
  {
    var id := snap.statusId;
    var o := RunSingleFrom(rt, k.ticks, k.store, id, snap, d, prior, SpineHead(Rows(k.store, id), id));
    row :| true;
    if o.result.Success? {
      row := o.result.value;
      assert |row.link| == 64;
    }
  }

  ghost predicate BecomesDone(id: string, k: Cluster, d: Domino, k': Cluster, name: string) {
    name == d.name && forall n :: n in [name] + d.dependsOn ==> IsReady(k'.store, id, n, k'.phases)
  }

  lemma {:induction false} ReconcileKeeps(rt: Runtime, k: Cluster, snap: Snapshot, julia: bool, d: Domino)
    requires DigestLaws(rt) && snap.statusId != ""
    ensures var k' := Reconcile(rt, k, snap, true, julia, d);
      && Keeps(snap.statusId, k, k')
      && forall name :: name in k.phases && k'.phases[name].Done() ==>
           k.phases[name].Done() || BecomesDone(snap.statusId, k, d, k', name)
  {
    var k' := Reconcile(rt, k, snap, true, julia, d);
    var row := ReconcileEnds(rt, k, snap, julia, d);
    if GetsThrough(snap.statusId, k, d, k', row) {
      ThroughKeeps(snap.statusId, k, d, k', row);
    }
  }

  lemma {:induction false} ThroughKeeps(id: string, k: Cluster, d: Domino, k': Cluster, row: ReplayRow)
    requires GetsThrough(id, k, d, k', row)
    ensures Keeps(id, k, k') && BecomesDone(id, k, d, k', d.name)
  {
    LatestAfter(k.store, k'.store, id, row);
  }

  /** Whatever dominos are reconciled, in whatever order, none is done before its dependencies. */
  lemma {:induction false} AnyOrderIsCausal(rt: Runtime, k: Cluster, wf: Workflow, id: string, julia: bool, names: seq<string>)
    requires DigestLaws(rt) && DominosOk(wf.dominos) && id != "" && Causal(wf, id, k)
    ensures var k' := ReconcileNames(rt, k, wf, id, julia, names);
      Causal(wf, id, k') && Keeps(id, k, k')
    decreases |names|
  {
    if names != [] {
      NameKeepsCausal(rt, k, wf, id, julia, names[0]);
      AnyOrderIsCausal(rt, ReconcileName(rt, k, wf, id, julia, names[0]), wf, id, julia, names[1..]);
    }
  }

  lemma {:induction false} NameKeepsCausal(rt: Runtime, k: Cluster, wf: Workflow, id: string, julia: bool, name: string)
    requires DigestLaws(rt) && DominosOk(wf.dominos) && id != "" && Causal(wf, id, k)
    ensures var k' := ReconcileName(rt, k, wf, id, julia, name);
      Causal(wf, id, k') && Keeps(id, k, k')
  {
    var found := FindDomino(wf.dominos, name);
    if found.Some? {
      var k' := ReconcileName(rt, k, wf, id, julia, name);
      ReconcileKeeps(rt, k, wf.snapshot.(statusId := id), julia, found.value);
      forall d | d in wf.dominos && d.name in k'.phases && k'.phases[d.name].Done()
        ensures forall n :: n in [d.name] + d.dependsOn ==> IsReady(k'.store, id, n, k'.phases)
      {
        var j :| 0 <= j < |wf.dominos| && wf.dominos[j] == d;
        FindDominoUnique(wf.dominos, j);
      }
    }
  }

  // ---- Rounds ----

  /** The content of the snapshot can be read, and no command of the chain fails. */
  ghost predicate Healthy(rt: Runtime, wf: Workflow, id: string, k: Cluster) {
    && (exists v :: ContentIs(rt, k.store, wf.snapshot.(statusId := id), v))
    && (forall d :: d in wf.dominos ==> Total(rt, d.command))
    && (forall name :: name in wf.chain ==> name in k.phases)
  }

  ghost predicate ReadyUpTo(wf: Workflow, id: string, i: nat, k: Cluster) {
    forall j :: 0 <= j < i && j < |wf.chain| ==> IsReady(k.store, id, wf.chain[j], k.phases)
  }

  /** The reconcile of a domino whose dependencies are ready makes it ready. */
  lemma {:induction false} NextIsReady(rt: Runtime, k: Cluster, wf: Workflow, id: string, julia: bool, i: nat)
    requires JsonLaws(rt) && CanRun(wf, id, julia) && i < |wf.chain| && Causal(wf, id, k) && Healthy(rt, wf, id, k) && ReadyUpTo(wf, id, i, k)
    ensures var k' := ReconcileName(rt, k, wf, id, julia, wf.chain[i]);
      IsReady(k'.store, id, wf.chain[i], k'.phases)
  {
    assert WiredAt(wf, i);
    var d := DominoAt(wf, i);
    var v :| ContentIs(rt, k.store, wf.snapshot.(statusId := id), v);
    assert d.name in wf.chain;
    if k.phases[d.name].Done() {
      assert d.name in [d.name] + d.dependsOn;
    } else {
      UndeclaredInputFails(rt, k, wf.snapshot.(statusId := id), julia, d, v);
      assert forall j :: 0 <= j < |d.inputs| ==> d.inputs[j] in d.inputs;
    }
  }

  /** A round that reconciles the next domino, among others in any order, makes it ready. */
  lemma {:induction false} RoundAdvances(rt: Runtime, k: Cluster, wf: Workflow, id: string, julia: bool, i: nat, names: seq<string>)
    requires JsonLaws(rt) && DigestLaws(rt) && DominosOk(wf.dominos) && CanRun(wf, id, julia)
    requires i < |wf.chain| && Causal(wf, id, k) && Healthy(rt, wf, id, k) && ReadyUpTo(wf, id, i, k)
    requires wf.chain[i] in names
    ensures ReadyUpTo(wf, id, i + 1, ReconcileNames(rt, k, wf, id, julia, names))
    decreases |names|
  {
    var k1 := ReconcileName(rt, k, wf, id, julia, names[0]);
    NameKeepsCausal(rt, k, wf, id, julia, names[0]);
    if names[0] == wf.chain[i] {
      NextIsReady(rt, k, wf, id, julia, i);
      AnyOrderIsCausal(rt, k1, wf, id, julia, names[1..]);
    } else {
      HealthyStays(rt, wf, id, k, k1);
      RoundAdvances(rt, k1, wf, id, julia, i, names[1..]);
    }
  }

  lemma {:induction false} HealthyStays(rt: Runtime, wf: Workflow, id: string, k: Cluster, k': Cluster)
    requires Healthy(rt, wf, id, k) && Keeps(id, k, k')
    ensures Healthy(rt, wf, id, k')
  {
    var v :| ContentIs(rt, k.store, wf.snapshot.(statusId := id), v);
    assert ContentIs(rt, k'.store, wf.snapshot.(statusId := id), v);
  }

  ghost function ReconcileRounds(rt: Runtime, k: Cluster, wf: Workflow, id: string, julia: bool, rounds: seq<seq<string>>): Cluster
    decreases |rounds|
  {
    if rounds == [] then k
    else ReconcileRounds(rt, ReconcileNames(rt, k, wf, id, julia, rounds[0]), wf, id, julia, rounds[1..])
  }

  /**
  As many rounds as the chain is long, each reconciling every domino in an order of its own, bring every
  domino to a result: no order can block the dependencies.
  */
  lemma {:induction false} AnyRoundsFinish(rt: Runtime, k: Cluster, wf: Workflow, id: string, julia: bool, i: nat, rounds: seq<seq<string>>)
    requires JsonLaws(rt) && DigestLaws(rt) && DominosOk(wf.dominos) && CanRun(wf, id, julia)
    requires Causal(wf, id, k) && Healthy(rt, wf, id, k) && ReadyUpTo(wf, id, i, k)
    requires forall round :: round in rounds ==> Elements(wf.chain) <= Elements(round)
    requires i + |rounds| >= |wf.chain|
    ensures ReadyUpTo(wf, id, |wf.chain|, ReconcileRounds(rt, k, wf, id, julia, rounds))
    decreases |rounds|
  {
    if rounds != [] {
      var k1 := ReconcileNames(rt, k, wf, id, julia, rounds[0]);
      AnyOrderIsCausal(rt, k, wf, id, julia, rounds[0]);
      HealthyStays(rt, wf, id, k, k1);
      if i < |wf.chain| {
        assert wf.chain[i] in Elements(rounds[0]);
        RoundAdvances(rt, k, wf, id, julia, i, rounds[0]);
      }
      AnyRoundsFinish(rt, k1, wf, id, julia, i + 1, rounds[1..]);
    }
  }
}
