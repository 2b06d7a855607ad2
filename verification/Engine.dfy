/**
The memoising chain interpreter. `Run` and `RunSingleFrom` below are functions of the store; the
methods of class `Engine` compute them on a SQL store.
*/
module EngineSpec {
  import opened Basics
  import opened Runtime
  import opened StoreModel
  import opened Spine
  import opened Workflows

  /** The store and the evaluation counter after an operation, and what it returned. */
  datatype Outcome<T> = Outcome(store: Store, ticks: nat, result: Result<T>)

  datatype RunResult = RunResult(
    snapshotId: string,
    entries: seq<ReplayRow>,
    finalOutput: string,
    evaluations: nat,
    reuses: nat,
    headLink: string)

  // ---- Snapshot content, store first ----

  /** The payload of a sealed, non-empty stored snapshot. */
  function LoadData(st: Store, id: string): Option<string> {
    var row := GetSnapshot(st, id);
    if id != "" && row.Some? && row.value.sealed && row.value.data != "" then Some(row.value.data) else None
  }

  function ResolveSource(rt: Runtime, source: Source): Result<Json> {
    match source
    case Inline(fields) => Success(Obj(fields))
    case External(address) =>
      var fetched := rt.fetch(address);
      if fetched.Some? then Success(fetched.value) else Failure(SourceUnresolved)
    case NoSource => Failure(SourceUnresolved)
  }

  datatype Content = Content(value: Json, data: string, id: string)

  function ResolveId(snap: Snapshot, id: string): string {
    if snap.statusId != "" then snap.statusId else id
  }

  /** ResolveEngineContentPreferStore, once the store has been asked for the data of the resolved ID. */
  function ResolveContent(rt: Runtime, loaded: Option<string>, snap: Snapshot, id: string): Result<Content> {
    if loaded.Some? then
      var parsed := rt.unmarshal(loaded.value);
      if parsed.Some? then Success(Content(parsed.value, loaded.value, ResolveId(snap, id))) else Failure(CorruptSnapshot)
    else
      var resolved := ResolveSource(rt, snap.source);
      if resolved.Success? then Success(Content(resolved.value, rt.marshal(resolved.value), ResolveId(snap, id)))
      else Failure(resolved.fault)
  }

  function PreferStore(rt: Runtime, st: Store, snap: Snapshot, id: string): Result<Content> {
    ResolveContent(rt, LoadData(st, ResolveId(snap, id)), snap, id)
  }

  /** Sealed snapshot content, under a snapshot ID that is computed from it or checked against it. */
  function Identify(rt: Runtime, snap: Snapshot, content: Result<Content>): Result<Content> {
    if content.Failure? then content
    else
      var c := content.value;
      var want := SnapshotId(rt, snap.timeSlice, c.value);
      if c.id == "" then Success(c.(id := want))
      else if c.id == want then Success(c)
      else Failure(ContentMismatch)
  }

  function Prepare(rt: Runtime, st: Store, snap: Snapshot): Result<Content> {
    if !snap.sealed then Failure(NotSealed) else Identify(rt, snap, PreferStore(rt, st, snap, ""))
  }

  // ---- Inputs of a step ----

  /** The value of a prior output: its JSON value, or the text itself as a string. */
  function OutputValue(rt: Runtime, text: string): Json {
    var parsed := rt.unmarshal(text);
    if parsed.Some? then parsed.value else Str(text)
  }

  function InputParts(rt: Runtime, input: Input, content: Json, outputs: map<string, string>): Result<seq<Json>> {
    if input.fromDomino != "" && input.fromDomino !in outputs then Failure(OutputMissing)
    else
      var fromDomino := if input.fromDomino != "" then [OutputValue(rt, outputs[input.fromDomino])] else [];
      if input.fromSnapshot == "" then Success(fromDomino)
      else
        var parsed := rt.unmarshal(rt.marshal(content));
        if parsed.Some? then Success(fromDomino + [parsed.value]) else Failure(CorruptSnapshot)
  }

  function Parts(rt: Runtime, inputs: seq<Input>, content: Json, outputs: map<string, string>): Result<seq<Json>> {
    if inputs == [] then Success([])
    else
      var n := |inputs| - 1;
      var before := Parts(rt, inputs[..n], content, outputs);
      if before.Failure? then before
      else
        var last := InputParts(rt, inputs[n], content, outputs);
        if last.Failure? then last else Success(before.value + last.value)
  }

  /** One part is passed bare, several as an array; a nil slice marshals to null. */
  function Combine(rt: Runtime, parts: seq<Json>): string {
    if |parts| == 1 then rt.marshal(parts[0])
    else if parts == [] then rt.marshal(Null)
    else rt.marshal(Arr(parts))
  }

  function ResolveInputs(rt: Runtime, d: Domino, content: Result<Content>, outputs: map<string, string>): Result<string> {
    if content.Failure? then Failure(content.fault)
    else if d.inputs == [] then Success(rt.marshal(content.value.value))
    else
      var parts := Parts(rt, d.inputs, content.value.value, outputs);
      if parts.Failure? then Failure(parts.fault) else Success(Combine(rt, parts.value))
  }

  /** What a step evaluates, once every check has passed. */
  datatype Job = Job(command: string, input: string)

  ghost function StepJob(rt: Runtime, wf: Workflow, name: string, content: Result<Content>, outputs: map<string, string>): Result<Job> {
    var found := FindDomino(wf.dominos, name);
    if found.None? then Failure(UnknownDomino)
    else
      var d := found.value;
      if wf.deterministic && !AllowDeterministic(d.command, wf.sandbox) then Failure(NotDeterministic)
      else if !ReadsAllowed(wf.chain, name, DeclaredReads(d)) then Failure(ForbiddenRead)
      else
        var input := ResolveInputs(rt, d, content, outputs);
        if input.Failure? then Failure(input.fault) else Success(Job(d.command, input.value))
  }

  // ---- One memoised step ----

  function MakeRow(rt: Runtime, key: MemoKey, value: MemoValue, reused: bool, prev: string): ReplayRow {
    ReplayRow(key.snapshotId, key.dominoId, key.inputHash, value.outputHash, value.output, reused, prev,
              Link(rt.digest, prev, key.inputHash, value.outputHash))
  }

  function Record(st: Store, ticks: nat, row: ReplayRow): Outcome<ReplayRow> {
    var saved := SaveResult(st, row);
    Outcome(Committed(st, saved), ticks, if saved.Success? then Success(row) else Failure(saved.fault))
  }

  /** Look the job up, evaluate it on a miss, link the row to prev and save it. */
  function Memoised(rt: Runtime, ticks: nat, st: Store, id: string, name: string, job: Job, prev: string): Outcome<ReplayRow> {
    var key := MemoKey(id, name, rt.digest(job.input));
    if key in st.memo then
      Record(st, ticks, MakeRow(rt, key, st.memo[key], true, prev))
    else
      var out := rt.exec(ticks, job.command, job.input);
      if out.None? then Outcome(st, ticks + 1, Failure(ExecFailed))
      else Record(st, ticks + 1, MakeRow(rt, key, MemoValue(rt.digest(out.value), out.value), false, prev))
  }

  // ---- The chain ----

  /** The variables of the loop over the chain. */
  datatype Cursor = Cursor(store: Store, ticks: nat, outputs: map<string, string>, prev: string, entries: seq<ReplayRow>)

  datatype Progress = Progress(cursor: Cursor, fault: Option<Fault>)

  ghost function Step(rt: Runtime, wf: Workflow, id: string, name: string, c: Cursor): Progress {
    var job := StepJob(rt, wf, name, PreferStore(rt, c.store, wf.snapshot, id), c.outputs);
    if job.Failure? then Progress(c, Some(job.fault))
    else
      var o := Memoised(rt, c.ticks, c.store, id, name, job.value, c.prev);
      if o.result.Failure? then Progress(c.(store := o.store, ticks := o.ticks), Some(o.result.fault))
      else
        var row := o.result.value;
        Progress(Cursor(o.store, o.ticks, c.outputs[name := row.output], row.link, c.entries + [row]), None)
  }

  ghost function Steps(rt: Runtime, wf: Workflow, id: string, names: seq<string>, c: Cursor): Progress
    decreases |names|
  {
    if names == [] then Progress(c, None)
    else
      var p := Step(rt, wf, id, names[0], c);
      if p.fault.Some? then p else Steps(rt, wf, id, names[1..], p.cursor)
  }

  function CountReused(entries: seq<ReplayRow>): nat {
    if entries == [] then 0
    else CountReused(entries[..|entries| - 1]) + if entries[|entries| - 1].reused then 1 else 0
  }

  lemma {:induction false} CountReusedBound(entries: seq<ReplayRow>)
    ensures CountReused(entries) <= |entries|
  {
    if entries != [] {
      CountReusedBound(entries[..|entries| - 1]);
    }
  }

  /** A Go map yields "" for a missing key. */
  function OutputOf(outputs: map<string, string>, name: string): string {
    if name in outputs then outputs[name] else ""
  }

  function Finish(id: string, output: string, entries: seq<ReplayRow>, headLink: string): RunResult {
    CountReusedBound(entries);
    var reuses := CountReused(entries);
    RunResult(id, entries, output, |entries| - reuses, reuses, headLink)
  }

  /** The result of a run that came through the chain. */
  function FinishAt(id: string, last: string, c: Cursor): RunResult {
    Finish(id, OutputOf(c.outputs, last), c.entries, c.prev)
  }

  ghost function RunChain(rt: Runtime, ticks: nat, st: Store, wf: Workflow, id: string): Outcome<RunResult> {
    if !DominosOk(wf.dominos) then Outcome(st, ticks, Failure(BadDomino))
    else if wf.chain == [] then Outcome(st, ticks, Failure(EmptyChain))
    else if !ChainOk(wf.chain) then Outcome(st, ticks, Failure(BadChain))
    else
      var p := Steps(rt, wf, id, wf.chain, Cursor(st, ticks, map[], id, []));
      Outcome(p.cursor.store, p.cursor.ticks,
              if p.fault.Some? then Failure(p.fault.value)
              else Success(FinishAt(id, wf.chain[|wf.chain| - 1], p.cursor)))
  }

  lemma {:induction false} RunChainFrom(rt: Runtime, ticks: nat, st: Store, wf: Workflow, id: string, p: Progress)
    requires DominosOk(wf.dominos) && wf.chain != [] && ChainOk(wf.chain)
    requires p == Steps(rt, wf, id, wf.chain, Cursor(st, ticks, map[], id, []))
    ensures RunChain(rt, ticks, st, wf, id) ==
            Outcome(p.cursor.store, p.cursor.ticks,
                    if p.fault.Some? then Failure(p.fault.value)
                    else Success(FinishAt(id, wf.chain[|wf.chain| - 1], p.cursor)))
  {
  }

  ghost function Run(rt: Runtime, ticks: nat, st: Store, wf: Workflow): Outcome<RunResult> {
    var content := Prepare(rt, st, wf.snapshot);
    if content.Failure? then Outcome(st, ticks, Failure(content.fault))
    else
      var saved := SaveSnapshot(st, content.value.id, SnapshotRow(wf.snapshot.timeSlice, content.value.data, true));
      if saved.Failure? then Outcome(st, ticks, Failure(saved.fault))
      else RunChain(rt, ticks, saved.value, wf, content.value.id)
  }

  /** One step outside a workflow. It does not save the snapshot and does not check the causal order. */
  function RunSingleFrom(
    rt: Runtime, ticks: nat, st: Store, id: string, snap: Snapshot, d: Domino, prior: map<string, string>, prevLink: string)
    : Outcome<ReplayRow>
  {
    if !snap.sealed then Outcome(st, ticks, Failure(NotSealed))
    else if id == "" then Outcome(st, ticks, Failure(MissingSnapshotId))
    else
      var input := ResolveInputs(rt, d, PreferStore(rt, st, snap, id), prior);
      if input.Failure? then Outcome(st, ticks, Failure(input.fault))
      else Memoised(rt, ticks, st, id, d.name, Job(d.command, input.value), if prevLink == "" then id else prevLink)
  }
}

module EngineImpl {
  import opened Basics
  import opened Runtime
  import opened StoreModel
  import opened SqlBackend
  import opened Workflows
  import Spec = EngineSpec
  import opened EngineSpec

  class Engine {
    const rt: Runtime
    const store: SqlStore
    var ticks: nat  // evaluations so far

    constructor (rt: Runtime, store: SqlStore)
      ensures this.rt == rt && this.store == store && ticks == 0
    {
      this.rt, this.store, ticks := rt, store, 0;
    }

    method LoadDataPreferStore(id: string) returns (data: Option<string>)
      requires store.Valid()
      ensures data == LoadData(store.State(), id)
    {
      if id == "" {
        return None;
      }
      var row := store.GetSnapshotData(id);
      if row.None? || !row.value.1 || row.value.0 == "" {
        return None;
      }
      return Some(row.value.0);
    }

    method ResolvePreferStore(snap: Snapshot, id: string) returns (content: Result<Content>)
      requires store.Valid()
      ensures content == PreferStore(rt, store.State(), snap, id)
    {
      var loaded := LoadDataPreferStore(ResolveId(snap, id));
      content := ResolveContent(rt, loaded, snap, id);
    }

    method ResolveInputs(d: Domino, snap: Snapshot, id: string, prior: map<string, string>) returns (input: Result<string>)
      requires store.Valid()
      ensures input == Spec.ResolveInputs(rt, d, PreferStore(rt, store.State(), snap, id), prior)
    {
      var content := ResolvePreferStore(snap, id);
      if content.Failure? {
        return Failure(content.fault);
      }
      if |d.inputs| == 0 {
        return Success(rt.marshal(content.value.value));
      }
      var parts := CollectParts(d.inputs, content.value.value, prior);
      if parts.Failure? {
        return Failure(parts.fault);
      }
      return Success(Combine(rt, parts.value));
    }

    /** The loop over the inputs of a domino. */
    method CollectParts(inputs: seq<Input>, content: Json, prior: map<string, string>) returns (res: Result<seq<Json>>)
      ensures res == Parts(rt, inputs, content, prior)
    {
      var parts: seq<Json> := [];
      for i := 0 to |inputs|
        invariant Parts(rt, inputs[..i], content, prior) == Success(parts)
      {
        assert inputs[..i + 1][..i] == inputs[..i];
        var more := InputParts(rt, inputs[i], content, prior);
        if more.Failure? {
          PartsFail(rt, inputs, i + 1, content, prior);
          return Failure(more.fault);
        }
        parts := parts + more.value;
      }
      assert inputs[..|inputs|] == inputs;
      return Success(parts);
    }

    method Memoise(id: string, name: string, job: Job, prev: string) returns (row: Result<ReplayRow>)
      requires store.Valid()
      modifies this, store
      ensures store.Valid()
      ensures Outcome(store.State(), ticks, row) == Memoised(rt, old(ticks), old(store.State()), id, name, job, prev)
    {
      var key := MemoKey(id, name, rt.digest(job.input));
      var found := store.LookupMemo(key);
      var value: MemoValue;
      if found.Some? {
        value := found.value;
      } else {
        var out := rt.exec(ticks, job.command, job.input);
        ticks := ticks + 1;
        if out.None? {
          return Failure(ExecFailed);
        }
        value := MemoValue(rt.digest(out.value), out.value);
      }
      var entry := MakeRow(rt, key, value, found.Some?, prev);
      var err := store.SaveResult(entry);
      row := Unless(err, entry);
    }

    /** The checks and the input of one step of the chain. */
    method PlanStep(wf: Workflow, index: map<string, Domino>, id: string, name: string, outputs: map<string, string>)
      returns (job: Result<Job>)
      requires store.Valid()
      requires forall n :: FindDomino(wf.dominos, n) == if n in index then Some(index[n]) else None
      ensures job == StepJob(rt, wf, name, PreferStore(rt, store.State(), wf.snapshot, id), outputs)
    {
      if name !in index {
        return Failure(UnknownDomino);
      }
      var d := index[name];
      if wf.deterministic && !AllowDeterministic(d.command, wf.sandbox) {
        return Failure(NotDeterministic);
      }
      var allowed := AllowedReads(wf.chain, name, DeclaredReads(d));
      if !allowed {
        return Failure(ForbiddenRead);
      }
      var input := ResolveInputs(d, wf.snapshot, id, outputs);
      if input.Failure? {
        return Failure(input.fault);
      }
      return Success(Job(d.command, input.value));
    }

    method Run(wf: Workflow) returns (res: Result<RunResult>)
      requires store.Valid()
      modifies this, store
      ensures store.Valid()
      ensures Outcome(store.State(), ticks, res) == Spec.Run(rt, old(ticks), old(store.State()), wf)
    {
      if !wf.snapshot.sealed {
        return Failure(NotSealed);
      }
      var resolved := ResolvePreferStore(wf.snapshot, "");
      var content := Identify(rt, wf.snapshot, resolved);
      if content.Failure? {
        return Failure(content.fault);
      }
      var id := content.value.id;
      var err := store.SaveSnapshot(id, SnapshotRow(wf.snapshot.timeSlice, content.value.data, true));
      if err.Some? {
        return Failure(err.value);
      }
      var index := IndexDominos(wf.dominos);
      if index.None? {
        return Failure(BadDomino);
      }
      if |wf.chain| == 0 {
        return Failure(EmptyChain);
      }
      var unique := UniqueNames(wf.chain);
      if !unique {
        return Failure(BadChain);
      }
      res := RunNames(wf, index.value, id);
    }

    /** One iteration of the loop over the chain, for the first of the remaining names. */
    method RunStep(wf: Workflow, index: map<string, Domino>, id: string, name: string, outputs: map<string, string>, prev: string,
                   ghost names: seq<string>, ghost entries: seq<ReplayRow>)
      returns (row: Result<ReplayRow>)
      requires store.Valid()
      requires forall n :: FindDomino(wf.dominos, n) == if n in index then Some(index[n]) else None
      requires names != [] && names[0] == name
      modifies this, store
      ensures store.Valid()
      ensures Steps(rt, wf, id, names, Cursor(old(store.State()), old(ticks), outputs, prev, entries)) ==
              if row.Success? then
                Steps(rt, wf, id, names[1..], Cursor(store.State(), ticks, outputs[name := row.value.output],
                                                     row.value.link, entries + [row.value]))
              else Progress(Cursor(store.State(), ticks, outputs, prev, entries), Some(row.fault))
    {
      var job := PlanStep(wf, index, id, name, outputs);
      if job.Failure? {
        return Failure(job.fault);
      }
      row := Memoise(id, name, job.value, prev);
    }

    /** The loop over the chain. */
    method RunLoop(wf: Workflow, index: map<string, Domino>, id: string)
      returns (fault: Option<Fault>, outputs: map<string, string>, prev: string, entries: seq<ReplayRow>)
      requires store.Valid()
      requires forall n :: FindDomino(wf.dominos, n) == if n in index then Some(index[n]) else None
      modifies this, store
      ensures store.Valid()
      ensures Steps(rt, wf, id, wf.chain, Cursor(old(store.State()), old(ticks), map[], id, [])) ==
              Progress(Cursor(store.State(), ticks, outputs, prev, entries), fault)
    {
      fault, outputs, prev, entries := None, map[], id, [];
      ghost var names := wf.chain;
      for i := 0 to |wf.chain|
        invariant store.Valid() && names == wf.chain[i..]
        invariant Steps(rt, wf, id, wf.chain, Cursor(old(store.State()), old(ticks), map[], id, [])) ==
                  Steps(rt, wf, id, names, Cursor(store.State(), ticks, outputs, prev, entries))
      {
        var row := RunStep(wf, index, id, wf.chain[i], outputs, prev, names, entries);
        if row.Failure? {
          fault := Some(row.fault);
          return;
        }
        outputs := outputs[wf.chain[i] := row.value.output];
        prev := row.value.link;
        entries := entries + [row.value];
        names := names[1..];
      }
    }

    method RunNames(wf: Workflow, index: map<string, Domino>, id: string) returns (res: Result<RunResult>)
      requires store.Valid() && wf.chain != []
      requires forall n :: FindDomino(wf.dominos, n) == if n in index then Some(index[n]) else None
      modifies this, store
      ensures store.Valid()
      ensures var p := Steps(rt, wf, id, wf.chain, Cursor(old(store.State()), old(ticks), map[], id, []));
        && store.State() == p.cursor.store && ticks == p.cursor.ticks
        && res == if p.fault.Some? then Failure(p.fault.value)
                  else Success(FinishAt(id, wf.chain[|wf.chain| - 1], p.cursor))
    {
      var fault, outputs, prev, entries := RunLoop(wf, index, id);
      if fault.Some? {
        return Failure(fault.value);
      }
      return Success(Finish(id, OutputOf(outputs, wf.chain[|wf.chain| - 1]), entries, prev));
    }

    method RunSingleFrom(id: string, snap: Snapshot, d: Domino, prior: map<string, string>, prevLink: string)
      returns (row: Result<ReplayRow>)
      requires store.Valid()
      modifies this, store
      ensures store.Valid()
      ensures Outcome(store.State(), ticks, row) ==
              Spec.RunSingleFrom(rt, old(ticks), old(store.State()), id, snap, d, prior, prevLink)
    {
      if !snap.sealed {
        return Failure(NotSealed);
      }
      if id == "" {
        return Failure(MissingSnapshotId);
      }
      var input := ResolveInputs(d, snap, id, prior);
      if input.Failure? {
        return Failure(input.fault);
      }
      row := Memoise(id, d.name, Job(d.command, input.value), if prevLink == "" then id else prevLink);
    }

    /** The domino controller: continue the worldline of the snapshot at its spine head. */
    method RunNext(id: string, snap: Snapshot, d: Domino, prior: map<string, string>) returns (row: Result<ReplayRow>)
      requires store.Valid()
      modifies this, store
      ensures store.Valid()
      ensures Outcome(store.State(), ticks, row) ==
              Spec.RunSingleFrom(rt, old(ticks), old(store.State()), id, snap, d, prior,
                                 SpineHead(Rows(old(store.State()), id), id))
    {
      var rows := store.ListReplay(id);
      row := RunSingleFrom(id, snap, d, prior, SpineHead(rows, id));
    }
  }

  /** A failing input fails the whole resolution. */
  lemma {:induction false} PartsFail(rt: Runtime, inputs: seq<Input>, n: nat, content: Json, outputs: map<string, string>)
    requires n <= |inputs| && Parts(rt, inputs[..n], content, outputs).Failure?
    ensures Parts(rt, inputs, content, outputs) == Parts(rt, inputs[..n], content, outputs)
    decreases |inputs| - n
  {
    if n == |inputs| {
      assert inputs[..n] == inputs;
    } else {
      assert inputs[..n + 1][..n] == inputs[..n];
      PartsFail(rt, inputs, n + 1, content, outputs);
    }
  }
}
