/** What a step evaluates: the values of its declared inputs, in order, once every check has passed. */
module StepInputs {
  import opened Basics
  import opened Runtime
  import opened StoreModel
  import opened Spine
  import opened Workflows
  import opened EngineSpec
  import opened MemoTransparency
  import opened Pinning
  import opened SnapshotIdentity

  // ---- The input text ----

  /** The value of an output: what its JSON text denotes, or the text itself where it is not JSON. */
  ghost predicate ReadsAs(rt: Runtime, text: string, w: Json) {
    rt.unmarshal(text) == Some(w) || (rt.unmarshal(text).None? && w == Str(text))
  }

  /** The values that one input contributes: that of the prior output, then the snapshot content. */
  ghost predicate Contributes(rt: Runtime, input: Input, v: Json, outputs: map<string, string>, vals: seq<Json>) {
    var n := if input.fromDomino != "" then 1 else 0;
    && |vals| == n + (if input.fromSnapshot != "" then 1 else 0)
    && (input.fromDomino != "" ==> input.fromDomino in outputs && ReadsAs(rt, outputs[input.fromDomino], vals[0]))
    && (input.fromSnapshot != "" ==> vals[n] == v)
  }

  ghost predicate AllContribute(rt: Runtime, inputs: seq<Input>, v: Json, outputs: map<string, string>, vals: seq<seq<Json>>) {
    |vals| == |inputs| && forall i :: 0 <= i < |inputs| ==> Contributes(rt, inputs[i], v, outputs, vals[i])
  }

  /** A prior output that an input asks for is missing. */
  ghost predicate Lacks(inputs: seq<Input>, outputs: map<string, string>) {
    exists i :: 0 <= i < |inputs| && inputs[i].fromDomino != "" && inputs[i].fromDomino !in outputs
  }

  /** A single value bare, several as an array, none as null. */
  function Packed(values: seq<Json>): Json {
    if |values| == 1 then values[0] else if values == [] then Null else Arr(values)
  }

  lemma {:induction false} OnePart(rt: Runtime, input: Input, v: Json, outputs: map<string, string>) returns (vals: seq<Json>)
    requires JsonLaws(rt)
    ensures var p := InputParts(rt, input, v, outputs);
      if Lacks([input], outputs) then p == Failure(OutputMissing)
      else p == Success(vals) && Contributes(rt, input, v, outputs, vals)
  {
    var p := InputParts(rt, input, v, outputs);
    assert [input][0] == input;
    assert rt.unmarshal(rt.marshal(v)) == Some(v);
    vals := if p.Success? then p.value else [];
  }

  lemma {:induction false} LacksInit(inputs: seq<Input>, outputs: map<string, string>)
    requires inputs != []
    ensures var n := |inputs| - 1;
      Lacks(inputs, outputs) <==> Lacks(inputs[..n], outputs) || Lacks([inputs[n]], outputs)
  {
    var n := |inputs| - 1;
    if Lacks(inputs[..n], outputs) {
      var i :| 0 <= i < n && inputs[..n][i].fromDomino != "" && inputs[..n][i].fromDomino !in outputs;
      assert inputs[i] == inputs[..n][i];
    }
    if Lacks([inputs[n]], outputs) {
      assert inputs[n] == [inputs[n]][0];
    }
    if Lacks(inputs, outputs) {
      var i :| 0 <= i < |inputs| && inputs[i].fromDomino != "" && inputs[i].fromDomino !in outputs;
      if i < n {
        assert inputs[..n][i] == inputs[i];
      } else {
        assert [inputs[n]][0] == inputs[i];
      }
    }
  }

  /** The parts are what the inputs contribute, in order; a missing output is the only error. */
  lemma {:induction false} PartsAreContributions(rt: Runtime, inputs: seq<Input>, v: Json, outputs: map<string, string>)
    returns (vals: seq<seq<Json>>)
    requires JsonLaws(rt)
    ensures var p := Parts(rt, inputs, v, outputs);
      if Lacks(inputs, outputs) then p == Failure(OutputMissing)
      else p == Success(Flatten(vals)) && AllContribute(rt, inputs, v, outputs, vals)
    decreases |inputs|
  {
    vals := [];
    if inputs != [] {
      var n := |inputs| - 1;
      var init := PartsAreContributions(rt, inputs[..n], v, outputs);
      var last := OnePart(rt, inputs[n], v, outputs);
      LacksInit(inputs, outputs);
      vals := init + [last];
      assert vals[..|vals| - 1] == init;
      if !Lacks(inputs, outputs) {
        ContributeNext(rt, inputs, v, outputs, init, last);
      }
    }
  }

  lemma {:induction false} ContributeNext(rt: Runtime, inputs: seq<Input>, v: Json, outputs: map<string, string>, init: seq<seq<Json>>, last: seq<Json>)
    requires inputs != []
    requires AllContribute(rt, inputs[..|inputs| - 1], v, outputs, init) && Contributes(rt, inputs[|inputs| - 1], v, outputs, last)
    ensures AllContribute(rt, inputs, v, outputs, init + [last])
  {
    var n := |inputs| - 1;
    forall i | 0 <= i < |inputs|
      ensures Contributes(rt, inputs[i], v, outputs, (init + [last])[i])
    {
      if i < n {
        assert inputs[..n][i] == inputs[i];
      }
    }
  }

  /** x is the text of the input of a step: the content where none is declared, and else its inputs packed. */
  ghost predicate InputIs(rt: Runtime, d: Domino, v: Json, outputs: map<string, string>, vals: seq<seq<Json>>, x: string) {
    if d.inputs == [] then x == rt.marshal(v)
    else AllContribute(rt, d.inputs, v, outputs, vals) && x == rt.marshal(Packed(Flatten(vals)))
  }

  /** The input of a step on content v, or the one error there is. */
  lemma {:induction false} InputIsPacked(rt: Runtime, d: Domino, content: Result<Content>, outputs: map<string, string>)
    returns (vals: seq<seq<Json>>)
    requires JsonLaws(rt) && content.Success?
    ensures var input := ResolveInputs(rt, d, content, outputs);
      if Lacks(d.inputs, outputs) then input == Failure(OutputMissing)
      else input.Success? && InputIs(rt, d, content.value.value, outputs, vals, input.value)
  {
    vals := PartsAreContributions(rt, d.inputs, content.value.value, outputs);
  }

  // ---- One step by itself ----

  /** The snapshot as a step under this ID looks it up: a status ID comes first. */
  function Addressing(snap: Snapshot, id: string): Snapshot {
    if snap.statusId == "" then snap.(statusId := id) else snap
  }

  /** The row and the store after a step that gave x as input to the command of d, or found x in the memo. */
  ghost predicate StepDid(rt: Runtime, ticks: nat, st: Store, id: string, d: Domino, x: string, prev: string, o: Outcome<ReplayRow>) {
    var key := MemoKey(id, d.name, rt.digest(x));
    var out := rt.exec(ticks, d.command, x);
    if key !in st.memo && out.None? then o == Outcome(st, ticks + 1, Failure(ExecFailed))
    else
      && o.result.Success?
      && var row := o.result.value;
      && row.Key() == key && row.prevLink == prev
      && row.link == rt.digest(prev + ":" + row.inputHash + ":" + row.outputHash)
      && row.reused == (key in st.memo)
      && row.Value() == (if key in st.memo then st.memo[key] else MemoValue(rt.digest(out.value), out.value))
      && o.store == Store(st.snapshots, st.memo[key := row.Value()], st.log + [row])
      && o.ticks == (if key in st.memo then ticks else ticks + 1)
  }

  lemma {:induction false} MemoisedDid(rt: Runtime, ticks: nat, st: Store, id: string, d: Domino, x: string, prev: string)
    ensures StepDid(rt, ticks, st, id, d, x, prev, Memoised(rt, ticks, st, id, d.name, Job(d.command, x), prev))
  {
    var key := MemoKey(id, d.name, rt.digest(x));
    assert key in st.memo ==> st.memo[key := st.memo[key]] == st.memo;
  }

  /**
  A single step on a sealed snapshot whose content is v: it fails exactly where an output is missing or
  the command fails, and else it evaluates its packed inputs, or finds them in the memo, and records that.
  */
  lemma {:induction false} SingleStepDid(rt: Runtime, ticks: nat, st: Store, id: string, snap: Snapshot, d: Domino, prior: map<string, string>, prevLink: string, v: Json)
    returns (vals: seq<seq<Json>>, x: string)
    requires JsonLaws(rt) && snap.sealed && id != ""
    requires ContentIs(rt, st, Addressing(snap, id), v)
    ensures var o := RunSingleFrom(rt, ticks, st, id, snap, d, prior, prevLink);
      if Lacks(d.inputs, prior) then o == Outcome(st, ticks, Failure(OutputMissing))
      else InputIs(rt, d, v, prior, vals, x) && StepDid(rt, ticks, st, id, d, x, if prevLink == "" then id else prevLink, o)
  {
    var content := PreferStore(rt, st, snap, id);
    ContentUnder(rt, st, snap, id, v);
    vals := InputIsPacked(rt, d, content, prior);
    var input := ResolveInputs(rt, d, content, prior);
    x := if input.Success? then input.value else "";
    MemoisedDid(rt, ticks, st, id, d, x, if prevLink == "" then id else prevLink);
    SingleIsMemoised(rt, ticks, st, id, snap, d, prior, prevLink, input);
  }

  lemma {:induction false} ContentUnder(rt: Runtime, st: Store, snap: Snapshot, id: string, v: Json)
    requires ContentIs(rt, st, Addressing(snap, id), v)
    ensures var c := PreferStore(rt, st, snap, id);
      c.Success? && c.value.value == v
  {
  }

  lemma {:induction false} SingleIsMemoised(rt: Runtime, ticks: nat, st: Store, id: string, snap: Snapshot, d: Domino, prior: map<string, string>, prevLink: string, input: Result<string>)
    requires snap.sealed && id != "" && input == ResolveInputs(rt, d, PreferStore(rt, st, snap, id), prior)
    ensures RunSingleFrom(rt, ticks, st, id, snap, d, prior, prevLink) ==
            if input.Failure? then Outcome(st, ticks, Failure(input.fault))
            else Memoised(rt, ticks, st, id, d.name, Job(d.command, input.value), if prevLink == "" then id else prevLink)
  {
  }

  /** A step whose one input is the output of p gives the text of p's value to its command. */
  lemma {:induction false} OnlyInputIsEvaluated(rt: Runtime, ticks: nat, st: Store, id: string, snap: Snapshot, d: Domino, prior: map<string, string>, prevLink: string, v: Json, p: string)
    requires JsonLaws(rt) && snap.sealed && id != ""
    requires ContentIs(rt, st, Addressing(snap, id), v)
    requires d.inputs == [Input(p, "")] && p != "" && p in prior
    ensures var parsed := rt.unmarshal(prior[p]);
      var x := rt.marshal(if parsed.Some? then parsed.value else Str(prior[p]));
      StepDid(rt, ticks, st, id, d, x, if prevLink == "" then id else prevLink,
              RunSingleFrom(rt, ticks, st, id, snap, d, prior, prevLink))
  {
    var vals, x := SingleStepDid(rt, ticks, st, id, snap, d, prior, prevLink, v);
    assert vals[..0] == [] && Flatten(vals[..0]) == [];
    assert d.inputs[0] == Input(p, "");
    assert Flatten(vals) == vals[0];
  }

  // ---- The checks of a step in a chain ----

  /** The gate: contract-grade commands need a sandbox without network on a read-only root. */
  predicate Admitted(wf: Workflow, command: string) {
    || !wf.deterministic
    || "builtin:" <= command || "julia:" <= command
    || (wf.sandbox.networkNone && wf.sandbox.readOnlyRoot)
  }

  /** Every domino that d reads is an earlier step of the chain; "snapshot" and "" stand for the snapshot. */
  ghost predicate ReadsEarlier(chain: seq<string>, d: Domino) {
    && (forall input :: input in d.inputs ==> IsEarlier(chain, d.name, input.fromDomino))
    && (forall dep :: dep in d.dependsOn ==> IsEarlier(chain, d.name, dep))
  }

  ghost predicate IsEarlier(chain: seq<string>, name: string, read: string) {
    read in {"", "snapshot"} || exists i, j :: 0 <= i < j < |chain| && chain[i] == read && chain[j] == name
  }

  lemma {:induction false} InputReadsMembers(inputs: seq<Input>)
    ensures forall r :: r in InputReads(inputs) <==> r != "" && exists input :: input in inputs && input.fromDomino == r
  {
    if inputs != [] {
      InputReadsMembers(inputs[1..]);
      assert inputs == [inputs[0]] + inputs[1..];
    }
  }

  lemma {:induction false} CausalIsEarlier(chain: seq<string>, name: string, read: string)
    requires Distinct(chain) && name in chain
    ensures InCausalPast(chain, name, read) <==> IsEarlier(chain, name, read)
  {
    if InCausalPast(chain, name, read) && read !in {"", "snapshot"} {
      assert chain[IndexOf(chain, read)] == read && chain[IndexOf(chain, name)] == name;
    }
    if IsEarlier(chain, name, read) && read !in {"", "snapshot"} {
      var i, j :| 0 <= i < j < |chain| && chain[i] == read && chain[j] == name;
      IndexOfDistinct(chain, i);
      IndexOfDistinct(chain, j);
    }
  }

  lemma {:induction false} ReadsAllowedIsEarlier(chain: seq<string>, d: Domino)
    requires Distinct(chain) && d.name in chain
    ensures ReadsAllowed(chain, d.name, DeclaredReads(d)) <==> ReadsEarlier(chain, d)
  {
    InputReadsMembers(d.inputs);
    forall read
      ensures InCausalPast(chain, d.name, read) <==> IsEarlier(chain, d.name, read)
    {
      CausalIsEarlier(chain, d.name, read);
    }
    if ReadsAllowed(chain, d.name, DeclaredReads(d)) {
      forall input | input in d.inputs
        ensures IsEarlier(chain, d.name, input.fromDomino)
      {
        assert input.fromDomino != "" ==> input.fromDomino in DeclaredReads(d);
      }
      forall dep | dep in d.dependsOn
        ensures IsEarlier(chain, d.name, dep)
      {
        assert dep in DeclaredReads(d);
      }
    }
    if ReadsEarlier(chain, d) {
      forall r | r in DeclaredReads(d)
        ensures InCausalPast(chain, d.name, r)
      {
        if r in InputReads(d.inputs) {
          var input :| input in d.inputs && input.fromDomino == r;
        } else {
          assert r in d.dependsOn;
        }
      }
    }
  }

  lemma {:induction false} FoundIsNamed(dominos: seq<Domino>, name: string)
    ensures FindDomino(dominos, name).Some? <==> name in Names(dominos)
  {
    var names := Names(dominos);
    forall k | 0 <= k < |dominos|
      ensures dominos[k].name in names
    {
      assert names[k] == dominos[k].name;
    }
    if name in names {
      var k :| 0 <= k < |names| && names[k] == name;
      assert dominos[k] in dominos;
    }
  }

  /**
  A step of a chain, on content v: which check refuses it, and otherwise the command and the input that
  it evaluates.
  */
  lemma {:induction false} StepIsChecked(rt: Runtime, wf: Workflow, v: Json, name: string, outputs: map<string, string>)
    returns (d: Domino, vals: seq<seq<Json>>)
    requires JsonLaws(rt) && DominosOk(wf.dominos) && ChainOk(wf.chain) && name in wf.chain
    ensures var job := PlainJob(rt, wf, v, name, outputs);
      if name !in Names(wf.dominos) then job == Failure(UnknownDomino)
      else
        && d in wf.dominos && d.name == name
        && if !Admitted(wf, d.command) then job == Failure(NotDeterministic)
           else if !ReadsEarlier(wf.chain, d) then job == Failure(ForbiddenRead)
           else if Lacks(d.inputs, outputs) then job == Failure(OutputMissing)
           else job.Success? && job.value.command == d.command && InputIs(rt, d, v, outputs, vals, job.value.input)
  {
    var found := FindDomino(wf.dominos, name);
    FoundIsNamed(wf.dominos, name);
    d := Domino(name, "", [], []);
    vals := [];
    if found.Some? {
      d := found.value;
      ReadsAllowedIsEarlier(wf.chain, d);
      vals := InputIsPacked(rt, d, Success(Content(v, "", "")), outputs);
    }
  }

  // ---- Runs ----

  lemma {:induction false} TraceAt(rt: Runtime, wf: Workflow, id: string, v: Json, names: seq<string>, outputs: map<string, string>, prev: string, rows: seq<ReplayRow>, i: nat)
    requires IsTrace(rt, wf, id, v, names, outputs, prev, rows) && i < |rows|
    ensures i < |names|
    ensures Records(rt, id, names[i], PlainJob(rt, wf, v, names[i], OutputsAfter(outputs, rows[..i])), Head(prev, rows[..i]), rows[i])
    decreases i
  {
    if i > 0 {
      TraceAt(rt, wf, id, v, names[1..], outputs[names[0] := rows[0].output], rows[0].link, rows[1..], i - 1);
      assert rows[..i][1..] == rows[1..][..i - 1];
      assert Head(prev, rows[..i]) == Head(rows[0].link, rows[1..][..i - 1]);
      assert rows[0].dominoId == names[0];
    }
  }

  /**
  Row i of a successful run is of a domino that passed the checks, and its input hash is that of the
  inputs which the domino declares, taken from the content and the rows before it.
  */
  lemma {:induction false} RowsRecordInputs(rt: Runtime, ticks: nat, st: Store, wf: Workflow, i: nat)
    returns (d: Domino, vals: seq<seq<Json>>, x: string)
    requires JsonLaws(rt) && DigestLaws(rt)
    requires Run(rt, ticks, st, wf).result.Success? && i < |wf.chain|
    ensures var c := RunContent(rt, st, wf);
      var rows := Run(rt, ticks, st, wf).result.value.entries;
      && |rows| == |wf.chain| && d in wf.dominos && d.name == wf.chain[i]
      && Admitted(wf, d.command) && ReadsEarlier(wf.chain, d)
      && InputIs(rt, d, c.value, OutputsAfter(map[], rows[..i]), vals, x)
      && rows[i].dominoId == d.name && rows[i].inputHash == rt.digest(x)
  {
    RunEstablishes(rt, ticks, st, wf);
    var c := RunContent(rt, st, wf);
    var rows := Run(rt, ticks, st, wf).result.value.entries;
    TraceAt(rt, wf, c.id, c.value, wf.chain, map[], c.id, rows, i);
    var outputs := OutputsAfter(map[], rows[..i]);
    d, vals := StepIsChecked(rt, wf, c.value, wf.chain[i], outputs);
    x := PlainJob(rt, wf, c.value, wf.chain[i], outputs).value.input;
  }
}
