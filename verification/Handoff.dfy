/**
The container hand-off: one runner per step, each waiting for the output file of the step before.
The init chain runs the same containers one after the other over a single hand-off file.
*/
module Handoff {
  import opened Basics
  import opened Decimal
  import opened Runtime
  import opened Workflows

  datatype ChainStep = ChainStep(name: string, command: string)

  datatype DominoChain = DominoChain(snapshot: Snapshot, steps: seq<ChainStep>)

  // ---- Paths ----

  const SNAPSHOT_FILE := "/kbl/input/snapshot.json"
  const HANDOFF_FILE := "/kbl/handoff/output.json"

  function SlotOutput(i: nat): string {
    "/kbl/handoff/output-" + Dec(i) + ".json"
  }

  function SlotInput(i: nat): string {
    if i == 0 then SNAPSHOT_FILE else SlotOutput(i - 1)
  }

  function InitInput(i: nat): string {
    if i == 0 then SNAPSHOT_FILE else HANDOFF_FILE
  }

  lemma {:induction false} SlotOutputsApart(i: nat, j: nat)
    ensures SlotOutput(i) != SNAPSHOT_FILE
    ensures SlotOutput(i) == SlotOutput(j) ==> i == j
  {
    var p := "/kbl/handoff/output-";
    assert SlotOutput(i)[5] == 'h' && SNAPSHOT_FILE[5] == 'i';
    if SlotOutput(i) == SlotOutput(j) {
      var x := SlotOutput(i)[|p|..];
      assert x == Dec(i) + ['.'] + "json" && x == Dec(j) + ['.'] + "json";
      DecDigits(i);
      DecDigits(j);
      SplitFirst('.', Dec(i), "json", Dec(j), "json");
      DecInjective(i, j);
    }
  }

  // ---- The sequential meaning ----

  /** What a runner writes for an input, if anything: it refuses an empty command. */
  function RunnerOutput(rt: Runtime, tick: nat, command: string, input: string): Option<string> {
    if command == "" then None else rt.exec(tick, command, input)
  }

  /** The outputs of the steps, each fed the output before it, up to the first step that fails. */
  function Fold(rt: Runtime, steps: seq<ChainStep>, input: string): seq<string>
    decreases |steps|
  {
    if steps == [] then []
    else
      var out := RunnerOutput(rt, 0, steps[0].command, input);
      if out.None? then [] else [out.value] + Fold(rt, steps[1..], out.value)
  }

  lemma {:induction false} FoldAt(rt: Runtime, steps: seq<ChainStep>, input: string, i: nat)
    requires i <= |Fold(rt, steps, input)|
    ensures |Fold(rt, steps, input)| <= |steps|
    ensures var outs := Fold(rt, steps, input);
      i < |steps| ==>
        RunnerOutput(rt, 0, steps[i].command, if i == 0 then input else outs[i - 1]) == if i < |outs| then Some(outs[i]) else None
    decreases |steps|
  {
    if steps != [] {
      var out := RunnerOutput(rt, 0, steps[0].command, input);
      if out.Some? {
        FoldAt(rt, steps[1..], out.value, if i == 0 then 0 else i - 1);
      }
    }
  }

  // ---- Runner slots ----

  datatype Runner = Waiting | HasInput(input: string) | HasOutput(output: string) | Exited(ok: bool)

  datatype Pod = Pod(files: map<string, string>, runners: seq<Runner>, ticks: nat)

  function NewPod(dc: DominoChain, text: string): Pod {
    Pod(map[SNAPSHOT_FILE := text], seq(|dc.steps|, _ => Waiting), 0)
  }

  /** One atomic step of the runner in slot i: poll and read, execute, or write and exit. */
  function StepSlot(rt: Runtime, dc: DominoChain, pod: Pod, i: nat): Pod {
    if i >= |pod.runners| || i >= |dc.steps| then pod
    else
      match pod.runners[i]
      case Waiting =>
        if dc.steps[i].command == "" then pod.(runners := pod.runners[i := Exited(false)])
        else if SlotInput(i) in pod.files then pod.(runners := pod.runners[i := HasInput(pod.files[SlotInput(i)])])
        else pod
      case HasInput(input) =>
        var out := rt.exec(pod.ticks, dc.steps[i].command, input);
        pod.(ticks := pod.ticks + 1,
             runners := pod.runners[i := if out.Some? then HasOutput(out.value) else Exited(false)])
      case HasOutput(output) =>
        pod.(files := pod.files[SlotOutput(i) := output], runners := pod.runners[i := Exited(true)])
      case Exited(_) => pod
  }

  /** A schedule names the slot that moves next. */
  function Schedule(rt: Runtime, dc: DominoChain, pod: Pod, slots: seq<nat>): Pod
    decreases |slots|
  {
    if slots == [] then pod else Schedule(rt, dc, StepSlot(rt, dc, pod, slots[0]), slots[1..])
  }

  // ---- Init containers ----

  /** A shared volume. */
  class Volume {
    var files: map<string, string>

    constructor (text: string)
      ensures files == map[SNAPSHOT_FILE := text]
    {
      files := map[SNAPSHOT_FILE := text];
    }

    /** domino-runner. Nobody else writes while an init container runs, so a missing input times out. */
    method Run(rt: Runtime, tick: nat, command: string, inputPath: string, outputPath: string) returns (ok: bool)
      modifies this
      ensures var out := if inputPath !in old(files) then None else RunnerOutput(rt, tick, command, old(files)[inputPath]);
        ok == out.Some? && files == if out.Some? then old(files)[outputPath := out.value] else old(files)
    {
      if command == "" {
        return false;
      }
      if inputPath !in files {
        return false;
      }
      var out := rt.exec(tick, command, files[inputPath]);
      if out.None? {
        return false;
      }
      files := files[outputPath := out.value];
      return true;
    }
  }

  ghost predicate PureSteps(rt: Runtime, steps: seq<ChainStep>) {
    forall s :: s in steps ==> PureCommand(rt, s.command)
  }

  lemma {:induction false} FoldStops(rt: Runtime, steps: seq<ChainStep>, input: string, i: nat, outs: seq<string>)
    requires i < |steps| && |outs| == i && outs <= Fold(rt, steps, input)
    requires RunnerOutput(rt, 0, steps[i].command, if i == 0 then input else outs[i - 1]).None?
    ensures Fold(rt, steps, input) == outs
  {
    FoldAt(rt, steps, input, i);
  }

  /** The init containers in order. The hand-off file ends up with the last output of the fold. */
  method RunInitChain(rt: Runtime, dc: DominoChain, vol: Volume, text: string) returns (done: bool, ghost outs: seq<string>)
    requires PureSteps(rt, dc.steps) && vol.files == map[SNAPSHOT_FILE := text]
    modifies vol
    ensures outs == Fold(rt, dc.steps, text)
    ensures done <==> |outs| == |dc.steps|
    ensures vol.files == if outs == [] then map[SNAPSHOT_FILE := text]
                         else map[SNAPSHOT_FILE := text, HANDOFF_FILE := outs[|outs| - 1]]
  {
    outs := [];
    ghost var all := Fold(rt, dc.steps, text);
    assert SNAPSHOT_FILE != HANDOFF_FILE by {
      assert SNAPSHOT_FILE[5] == 'i' && HANDOFF_FILE[5] == 'h';
    }
    FoldAt(rt, dc.steps, text, 0);
    for i := 0 to |dc.steps|
      invariant |outs| == i && outs <= all
      invariant vol.files == if outs == [] then map[SNAPSHOT_FILE := text]
                             else map[SNAPSHOT_FILE := text, HANDOFF_FILE := outs[|outs| - 1]]
    {
      var s := dc.steps[i];
      assert s in dc.steps && PureCommand(rt, s.command);
      ghost var input := if i == 0 then text else outs[i - 1];
      assert vol.files[InitInput(i)] == input;
      FoldAt(rt, dc.steps, text, i);
      var ok := vol.Run(rt, i, s.command, InitInput(i), HANDOFF_FILE);
      if !ok {
        FoldStops(rt, dc.steps, text, i, outs);
        return false, outs;
      }
      outs := outs + [rt.exec(0, s.command, input).value];
    }
    done := true;
  }

  // ---- Completion as the controller sees it ----

  function SanitizeFrom(name: string, room: nat): string {
    if name == "" || room == 0 then ""
    else
      var c := name[0];
      if 'a' <= c <= 'z' || '0' <= c <= '9' || c == '-' then [c] + SanitizeFrom(name[1..], room - 1)
      else if 'A' <= c <= 'Z' then [(c as int + 32) as char] + SanitizeFrom(name[1..], room - 1)
      else if c == '_' then ['-'] + SanitizeFrom(name[1..], room - 1)
      else SanitizeFrom(name[1..], room)
  }

  function Sanitize(name: string): string {
    var out := SanitizeFrom(name, 20);
    if out == "" then "step" else out
  }

  /** What a name part stands for in a container name: lower case, with dashes for underscores, and nothing else. */
  function NameChars(c: char): string {
    if 'A' <= c <= 'Z' then [(c as int - 'A' as int + 'a' as int) as char]
    else if c == '_' then "-"
    else if c == '-' || 'a' <= c <= 'z' || '0' <= c <= '9' then [c]
    else ""
  }

  function AllNameChars(name: string): string {
    if name == "" then "" else NameChars(name[0]) + AllNameChars(name[1..])
  }

  lemma {:induction false} SanitizeFromIsPrefix(name: string, room: nat)
    ensures SanitizeFrom(name, room) == Prefix(AllNameChars(name), room)
  {
    if name != "" && room > 0 {
      var first, rest := NameChars(name[0]), AllNameChars(name[1..]);
      SanitizeFromIsPrefix(name[1..], if first == "" then room else room - 1);
      if first != "" {
        assert Prefix(first + rest, room) == first + Prefix(rest, room - 1);
      } else {
        assert first + rest == rest;
      }
    }
  }

  /** A sanitized name: the first 20 of the characters that are kept, or "step" where none is. */
  lemma {:induction false} SanitizeKeeps(name: string)
    ensures var kept := AllNameChars(name);
      Sanitize(name) == if kept == "" then "step" else if |kept| <= 20 then kept else kept[..20]
    ensures 0 < |Sanitize(name)| <= 20
    ensures forall c :: c in Sanitize(name) ==> c == '-' || 'a' <= c <= 'z' || '0' <= c <= '9'
  {
    SanitizeFromIsPrefix(name, 20);
    NameCharsAreLegal(name);
    forall c | c in Sanitize(name)
      ensures c == '-' || 'a' <= c <= 'z' || '0' <= c <= '9'
    {
      assert c in AllNameChars(name) || c in "step";
    }
  }

  lemma {:induction false} NameCharsAreLegal(name: string)
    ensures forall c :: c in AllNameChars(name) ==> c == '-' || 'a' <= c <= 'z' || '0' <= c <= '9'
  {
    if name != "" {
      NameCharsAreLegal(name[1..]);
    }
  }

  function SlotName(i: nat, stepName: string): string {
    "slot-" + Dec(i) + "-" + Sanitize(stepName)
  }

  lemma {:induction false} SlotTextsApart(i: nat, a: string, j: nat, b: string)
    requires "slot-" + Dec(i) + "-" + a == "slot-" + Dec(j) + "-" + b
    ensures i == j && a == b
  {
    var x := ("slot-" + Dec(i) + "-" + a)[5..];
    assert x == Dec(i) + ['-'] + a && x == Dec(j) + ['-'] + b;
    DecDigits(i);
    DecDigits(j);
    SplitFirst('-', Dec(i), a, Dec(j), b);
    DecInjective(i, j);
  }

  lemma {:induction false} SlotNamesApart(i: nat, a: string, j: nat, b: string)
    requires SlotName(i, a) == SlotName(j, b)
    ensures i == j && Sanitize(a) == Sanitize(b)
  {
    SlotTextsApart(i, Sanitize(a), j, Sanitize(b));
  }

  /** exitCode is None while the container has not terminated. */
  datatype ContainerStatus = ContainerStatus(name: string, exitCode: Option<int>)

  datatype Verdict = Absent | NotYet | BadExit | Succeeded

  /** The inner loop over the statuses of a pod, for one slot. */
  function Inspect(statuses: seq<ContainerStatus>, name: string, found: bool): Verdict
    decreases |statuses|
  {
    if statuses == [] then (if found then Succeeded else Absent)
    else
      var cs := statuses[0];
      if cs.name != name then Inspect(statuses[1..], name, found)
      else if cs.exitCode.None? then NotYet
      else if cs.exitCode.value != 0 then BadExit
      else Inspect(statuses[1..], name, true)
  }

  function SlotsComplete(statuses: seq<ContainerStatus>, steps: seq<ChainStep>, i: nat): Result<bool>
    requires i <= |steps|
    decreases |steps| - i
  {
    if i == |steps| then Success(true)
    else
      match Inspect(statuses, SlotName(i, steps[i].name), false)
      case BadExit => Failure(ContainerFailed)
      case Succeeded => SlotsComplete(statuses, steps, i + 1)
      case _ => Success(false)
  }

  method OpenKruiseSlotsComplete(podSucceeded: bool, statuses: seq<ContainerStatus>, dc: DominoChain) returns (r: Result<bool>)
    ensures r == if podSucceeded then Success(true)
                 else if |statuses| < |dc.steps| then Success(false)
                 else SlotsComplete(statuses, dc.steps, 0)
  {
    if podSucceeded {
      return Success(true);
    }
    if |statuses| < |dc.steps| {
      return Success(false);
    }
    for i := 0 to |dc.steps|
      invariant SlotsComplete(statuses, dc.steps, 0) == SlotsComplete(statuses, dc.steps, i)
    {
      var name := SlotName(i, dc.steps[i].name);
      var found := false;
      for k := 0 to |statuses|
        invariant Inspect(statuses, name, false) == Inspect(statuses[k..], name, found)
      {
        assert statuses[k..][1..] == statuses[k + 1..];
        var cs := statuses[k];
        if cs.name != name {
          continue;
        }
        found := true;
        if cs.exitCode.None? {
          return Success(false);
        }
        if cs.exitCode.value != 0 {
          return Failure(ContainerFailed);
        }
      }
      if !found {
        return Success(false);
      }
    }
    return Success(true);
  }

  // ---- The engine's view of the chain ----

  function StepDomino(steps: seq<ChainStep>, i: nat): Domino
    requires i < |steps|
  {
    if i == 0 then Domino(steps[i].name, steps[i].command, [], [])
    else Domino(steps[i].name, steps[i].command, [Input(steps[i - 1].name, "")], [steps[i - 1].name])
  }

  /** Only an inline source is copied to the workflow; a path or URI is dropped. */
  function InlineOnly(source: Source): Source {
    if source.Inline? then source else NoSource
  }

  /** dominoChainToWorkflow. */
  function ToWorkflow(dc: DominoChain): Workflow {
    Workflow(dc.snapshot.(statusId := "", source := InlineOnly(dc.snapshot.source)),
             seq(|dc.steps|, i requires 0 <= i < |dc.steps| => StepDomino(dc.steps, i)),
             seq(|dc.steps|, i requires 0 <= i < |dc.steps| => dc.steps[i].name),
             true, Sandbox(false, false))
  }

  method DominoChainToWorkflow(dc: DominoChain) returns (wf: Workflow)
    ensures wf == ToWorkflow(dc)
  {
    var dominos: seq<Domino> := [];
    for i := 0 to |dc.steps|
      invariant |dominos| == i && forall j :: 0 <= j < i ==> dominos[j] == StepDomino(dc.steps, j)
    {
      var d := Domino(dc.steps[i].name, dc.steps[i].command, [], []);
      if i > 0 {
        d := d.(dependsOn := [dc.steps[i - 1].name], inputs := [Input(dc.steps[i - 1].name, "")]);
      }
      dominos := dominos + [d];
    }
    var names: seq<string> := [];
    for i := 0 to |dc.steps|
      invariant |names| == i && forall j :: 0 <= j < i ==> names[j] == dc.steps[j].name
    {
      names := names + [dc.steps[i].name];
    }
    var source := InlineOnly(dc.snapshot.source);
    wf := Workflow(Snapshot(dc.snapshot.timeSlice, source, dc.snapshot.sealed, ""), dominos, names, true, Sandbox(false, false));
  }
}

module HandoffTheorems {
  import opened Basics
  import opened Runtime
  import opened StoreModel
  import opened Workflows
  import opened EngineSpec
  import opened MemoTransparency
  import opened Pinning
  import opened Builtins
  import opened SnapshotIdentity
  import opened StepInputs
  import opened Handoff

  // ---- Every interleaving ----

  /** The files after the first k slots have written. */
  function FilesUpTo(text: string, outs: seq<string>, k: nat): map<string, string>
    requires k <= |outs|
  {
    if k == 0 then map[SNAPSHOT_FILE := text] else FilesUpTo(text, outs, k - 1)[SlotOutput(k - 1) := outs[k - 1]]
  }

  lemma {:induction false} FilesAt(text: string, outs: seq<string>, k: nat, j: nat)
    requires k <= |outs|
    ensures var files := FilesUpTo(text, outs, k);
      && SNAPSHOT_FILE in files && files[SNAPSHOT_FILE] == text
      && (SlotOutput(j) in files <==> j < k)
      && (j < k ==> files[SlotOutput(j)] == outs[j])
  {
    SlotOutputsApart(j, j);
    if k > 0 {
      FilesAt(text, outs, k - 1, j);
      SlotOutputsApart(k - 1, j);
    }
  }

  function StepInput(text: string, outs: seq<string>, i: nat): string
    requires i <= |outs|
  {
    if i == 0 then text else outs[i - 1]
  }

  /** The slot still waits, or it had no command and did not have to. */
  ghost predicate NotStarted(s: ChainStep, r: Runner) {
    r == Waiting || (s.command == "" && r == Exited(false))
  }

  /** Slots before k have written and exited, slots after k have not started, and slot k is at work. */
  ghost predicate Reached(dc: DominoChain, text: string, outs: seq<string>, pod: Pod, k: nat) {
    && |pod.runners| == |dc.steps| && k <= |outs| <= |dc.steps|
    && pod.files == FilesUpTo(text, outs, k)
    && (forall i :: 0 <= i < k ==> pod.runners[i] == Exited(true))
    && (forall i :: k < i < |dc.steps| ==> NotStarted(dc.steps[i], pod.runners[i]))
    && (k < |dc.steps| ==>
          || pod.runners[k] == Waiting
          || (dc.steps[k].command != "" && pod.runners[k] == HasInput(StepInput(text, outs, k)))
          || (k < |outs| && pod.runners[k] == HasOutput(outs[k]))
          || (k == |outs| && pod.runners[k] == Exited(false)))
  }

  /** How far slot k has got: 3 points for a slot that has exited. */
  ghost function Points(pod: Pod, k: nat): nat {
    3 * k + if k >= |pod.runners| then 0
            else match pod.runners[k]
              case Waiting => 0
              case HasInput(_) => 1
              case _ => 2
  }

  /** Nothing more will happen: the chain is through, or slot k has failed. */
  ghost predicate Finished(pod: Pod, k: nat) {
    k >= |pod.runners| || pod.runners[k] == Exited(false)
  }

  /** A slot other than k has exited, or its input is not there yet; all it can do is refuse an empty command. */
  lemma {:induction false} OtherSlotStays(rt: Runtime, dc: DominoChain, text: string, outs: seq<string>, pod: Pod, k: nat, i: nat)
    requires Reached(dc, text, outs, pod, k) && i != k
    ensures var pod' := StepSlot(rt, dc, pod, i);
      && Reached(dc, text, outs, pod', k) && (k < |dc.steps| ==> pod'.runners[k] == pod.runners[k])
      && (i < |dc.steps| && dc.steps[i].command != "" ==> pod' == pod)
  {
    if i < |dc.steps| {
      if i > k {
        FilesAt(text, outs, k, i - 1);
        assert NotStarted(dc.steps[i], pod.runners[i]);
      }
    }
  }

  /** Slot k gets one point further, or fails where the fold stops. */
  lemma {:induction false} ActiveSlotMoves(rt: Runtime, dc: DominoChain, text: string, outs: seq<string>, pod: Pod, k: nat) returns (k': nat)
    requires PureSteps(rt, dc.steps) && Reached(dc, text, outs, pod, k) && !Finished(pod, k)
    requires RunnerOutput(rt, 0, dc.steps[k].command, StepInput(text, outs, k)) == if k < |outs| then Some(outs[k]) else None
    requires k < |outs| && k + 1 < |dc.steps| && dc.steps[k + 1].command == "" ==> |outs| == k + 1
    ensures var pod' := StepSlot(rt, dc, pod, k);
      Reached(dc, text, outs, pod', k') && k <= k' && Points(pod', k') >= Points(pod, k)
      && (Points(pod', k') > Points(pod, k) || Finished(pod', k'))
  {
    var s := dc.steps[k];
    assert s in dc.steps && PureCommand(rt, s.command);
    FilesAt(text, outs, k, if k == 0 then 0 else k - 1);
    k' := if pod.runners[k].HasOutput? then k + 1 else k;
    if k + 1 < |dc.steps| {
      assert NotStarted(dc.steps[k + 1], pod.runners[k + 1]);
    }
  }

  /** Any slot may move: only slot k gets the pod further, and as long as the pod is not finished, it does. */
  lemma {:induction false} SlotMoves(rt: Runtime, dc: DominoChain, text: string, pod: Pod, k: nat, i: nat) returns (k': nat)
    requires PureSteps(rt, dc.steps)
    requires Reached(dc, text, Fold(rt, dc.steps, text), pod, k)
    ensures var pod' := StepSlot(rt, dc, pod, i);
      && Reached(dc, text, Fold(rt, dc.steps, text), pod', k') && k <= k' && Points(pod', k') >= Points(pod, k)
      && (i != k || Finished(pod, k) ==> k' == k && (Finished(pod', k) <==> Finished(pod, k)))
      && (i == k && !Finished(pod, k) ==> Points(pod', k') > Points(pod, k) || Finished(pod', k'))
  {
    var outs := Fold(rt, dc.steps, text);
    k' := k;
    if i != k {
      OtherSlotStays(rt, dc, text, outs, pod, k, i);
    } else if !Finished(pod, k) {
      FoldAt(rt, dc.steps, text, k);
      if k < |outs| {
        FoldAt(rt, dc.steps, text, k + 1);
      }
      k' := ActiveSlotMoves(rt, dc, text, outs, pod, k);
    }
  }

  lemma {:induction false} ScheduleReaches(rt: Runtime, dc: DominoChain, text: string, pod: Pod, k: nat, slots: seq<nat>) returns (k': nat)
    requires PureSteps(rt, dc.steps)
    requires Reached(dc, text, Fold(rt, dc.steps, text), pod, k)
    ensures Reached(dc, text, Fold(rt, dc.steps, text), Schedule(rt, dc, pod, slots), k') && k <= k'
    ensures Points(Schedule(rt, dc, pod, slots), k') >= Points(pod, k)
    ensures Finished(pod, k) ==> Finished(Schedule(rt, dc, pod, slots), k') && k' == k
    ensures !Finished(pod, k) && k in slots ==>
      Points(Schedule(rt, dc, pod, slots), k') > Points(pod, k) || Finished(Schedule(rt, dc, pod, slots), k')
    decreases |slots|
  {
    if slots == [] {
      k' := k;
    } else {
      var next := StepSlot(rt, dc, pod, slots[0]);
      var m := SlotMoves(rt, dc, text, pod, k, slots[0]);
      assert Points(next, m) >= Points(pod, k);
      k' := ScheduleReaches(rt, dc, text, next, m, slots[1..]);
      assert slots == [slots[0]] + slots[1..];
    }
  }

  lemma {:induction false} NewPodReached(rt: Runtime, dc: DominoChain, text: string)
    ensures Reached(dc, text, Fold(rt, dc.steps, text), NewPod(dc, text), 0)
  {
    FoldAt(rt, dc.steps, text, 0);
  }

  /** Whatever the schedule, the outputs written are a prefix of the sequential outputs, and only grow. */
  lemma {:induction false} OutputsArePrefix(rt: Runtime, dc: DominoChain, text: string, before: seq<nat>, after: seq<nat>) returns (k: nat, k': nat)
    requires PureSteps(rt, dc.steps)
    ensures var outs := Fold(rt, dc.steps, text);
      var early := Schedule(rt, dc, NewPod(dc, text), before);
      && k <= k' <= |outs|
      && early.files == FilesUpTo(text, outs, k)
      && Schedule(rt, dc, early, after).files == FilesUpTo(text, outs, k')
  {
    NewPodReached(rt, dc, text);
    k := ScheduleReaches(rt, dc, text, NewPod(dc, text), 0, before);
    k' := ScheduleReaches(rt, dc, text, Schedule(rt, dc, NewPod(dc, text), before), k, after);
  }

  /** No deadlock: a pod that is not finished has a slot whose step changes it. */
  lemma {:induction false} SomeSlotCanMove(rt: Runtime, dc: DominoChain, text: string, slots: seq<nat>) returns (k: nat)
    requires PureSteps(rt, dc.steps)
    ensures var pod := Schedule(rt, dc, NewPod(dc, text), slots);
      && Reached(dc, text, Fold(rt, dc.steps, text), pod, k)
      && (Finished(pod, k) || StepSlot(rt, dc, pod, k) != pod)
  {
    NewPodReached(rt, dc, text);
    k := ScheduleReaches(rt, dc, text, NewPod(dc, text), 0, slots);
    var _ := SlotMoves(rt, dc, text, Schedule(rt, dc, NewPod(dc, text), slots), k, k);
  }

  // ---- Fair schedules finish ----

  /** A round lets every slot move at least once, in any order. */
  predicate IsRound(n: nat, round: seq<nat>) {
    forall i :: 0 <= i < n ==> i in round
  }

  function Rounds(rt: Runtime, dc: DominoChain, pod: Pod, rounds: seq<seq<nat>>): Pod
    decreases |rounds|
  {
    if rounds == [] then pod else Rounds(rt, dc, Schedule(rt, dc, pod, rounds[0]), rounds[1..])
  }

  lemma {:induction false} RoundsFinish(rt: Runtime, dc: DominoChain, text: string, pod: Pod, k: nat, rounds: seq<seq<nat>>) returns (k': nat)
    requires PureSteps(rt, dc.steps)
    requires Reached(dc, text, Fold(rt, dc.steps, text), pod, k)
    requires forall r :: r in rounds ==> IsRound(|dc.steps|, r)
    requires Finished(pod, k) || Points(pod, k) + |rounds| >= 3 * |dc.steps|
    ensures Reached(dc, text, Fold(rt, dc.steps, text), Rounds(rt, dc, pod, rounds), k')
    ensures Finished(Rounds(rt, dc, pod, rounds), k')
    decreases |rounds|
  {
    if rounds == [] {
      k' := k;
    } else {
      assert rounds[0] in rounds;
      var next := Schedule(rt, dc, pod, rounds[0]);
      var m := ScheduleReaches(rt, dc, text, pod, k, rounds[0]);
      k' := RoundsFinish(rt, dc, text, next, m, rounds[1..]);
    }
  }

  /** The outcome of a pod: which slots exited well, and the final output file. */
  ghost predicate OutcomeIs(rt: Runtime, dc: DominoChain, text: string, pod: Pod) {
    var outs := Fold(rt, dc.steps, text);
    && |pod.runners| == |dc.steps|
    && (forall i :: 0 <= i < |outs| ==> i < |dc.steps| && pod.runners[i] == Exited(true))
    && (|outs| < |dc.steps| ==> pod.runners[|outs|] == Exited(false))
    && pod.files == FilesUpTo(text, outs, |outs|)
  }

  /** Interleaving independence: every schedule with enough rounds has the outcome of the sequential fold. */
  lemma {:induction false} EveryFairScheduleAgrees(rt: Runtime, dc: DominoChain, text: string, rounds: seq<seq<nat>>)
    requires PureSteps(rt, dc.steps)
    requires forall r :: r in rounds ==> IsRound(|dc.steps|, r)
    requires |rounds| >= 3 * |dc.steps|
    ensures OutcomeIs(rt, dc, text, Rounds(rt, dc, NewPod(dc, text), rounds))
  {
    NewPodReached(rt, dc, text);
    var k := RoundsFinish(rt, dc, text, NewPod(dc, text), 0, rounds);
  }

  // ---- What the controller reads off a pod ----

  function ExitCode(r: Runner): Option<int> {
    if r.Exited? then Some(if r.ok then 0 else 1) else None
  }

  function Report(dc: DominoChain, pod: Pod): seq<ContainerStatus>
    requires |pod.runners| == |dc.steps|
  {
    seq(|dc.steps|, i requires 0 <= i < |dc.steps| =>
      ContainerStatus(SlotName(i, dc.steps[i].name), ExitCode(pod.runners[i])))
  }

  /** The statuses are those of the pod's containers, in any order. */
  ghost predicate Reports(dc: DominoChain, pod: Pod, statuses: seq<ContainerStatus>)
    requires |pod.runners| == |dc.steps|
  {
    multiset(statuses) == multiset(Report(dc, pod))
  }

  lemma {:induction false} ReportAt(dc: DominoChain, pod: Pod, statuses: seq<ContainerStatus>, i: nat)
    requires |pod.runners| == |dc.steps| && i < |dc.steps| && Reports(dc, pod, statuses)
    ensures var name := SlotName(i, dc.steps[i].name);
      && ContainerStatus(name, ExitCode(pod.runners[i])) in statuses
      && forall cs :: cs in statuses && cs.name == name ==> cs.exitCode == ExitCode(pod.runners[i])
  {
    var all := Report(dc, pod);
    var name := SlotName(i, dc.steps[i].name);
    assert all[i] in multiset(all);
    assert all[i] in multiset(statuses);
    forall cs | cs in statuses && cs.name == name
      ensures cs.exitCode == ExitCode(pod.runners[i])
    {
      assert cs in multiset(all);
      var j :| 0 <= j < |all| && all[j] == cs;
      SlotNamesApart(i, dc.steps[i].name, j, dc.steps[j].name);
    }
  }

  lemma {:induction false} InspectIs(statuses: seq<ContainerStatus>, name: string, found: bool, code: Option<int>)
    requires forall cs :: cs in statuses && cs.name == name ==> cs.exitCode == code
    requires found ==> code == Some(0)
    requires found || exists cs :: cs in statuses && cs.name == name
    ensures Inspect(statuses, name, found) == if code.None? then NotYet else if code.value != 0 then BadExit else Succeeded
    decreases |statuses|
  {
    if statuses != [] {
      assert statuses == [statuses[0]] + statuses[1..];
      if statuses[0].name != name {
        InspectIs(statuses[1..], name, found, code);
      } else if code == Some(0) {
        InspectIs(statuses[1..], name, true, code);
      }
    }
  }

  lemma {:induction false} CompleteFrom(rt: Runtime, dc: DominoChain, text: string, pod: Pod, k: nat, statuses: seq<ContainerStatus>, i: nat)
    requires Reached(dc, text, Fold(rt, dc.steps, text), pod, k) && Reports(dc, pod, statuses) && i <= k
    ensures SlotsComplete(statuses, dc.steps, i) ==
            if k == |dc.steps| then Success(true)
            else if pod.runners[k] == Exited(false) then Failure(ContainerFailed)
            else Success(false)
    decreases k - i
  {
    if i < |dc.steps| {
      var name := SlotName(i, dc.steps[i].name);
      ReportAt(dc, pod, statuses, i);
      InspectIs(statuses, name, false, ExitCode(pod.runners[i]));
      if i < k {
        CompleteFrom(rt, dc, text, pod, k, statuses, i + 1);
      }
    }
  }

  /** Slot i failed, and every slot before it is through. */
  ghost predicate FailedInTurn(pod: Pod, i: nat) {
    i < |pod.runners| && pod.runners[i] == Exited(false) && forall j :: 0 <= j < i ==> pod.runners[j] == Exited(true)
  }

  /**
  The controller sees completion exactly when every slot is through, and failure exactly when a slot
  failed in its turn. With no empty command a slot can only fail in its turn.
  */
  lemma {:induction false} CompletionIsTruthful(rt: Runtime, dc: DominoChain, text: string, slots: seq<nat>, statuses: seq<ContainerStatus>)
    requires PureSteps(rt, dc.steps)
    requires var pod := Schedule(rt, dc, NewPod(dc, text), slots);
      |pod.runners| == |dc.steps| && Reports(dc, pod, statuses)
    ensures var pod := Schedule(rt, dc, NewPod(dc, text), slots);
      var r := SlotsComplete(statuses, dc.steps, 0);
      && (r == Success(true) <==> forall i :: 0 <= i < |pod.runners| ==> pod.runners[i] == Exited(true))
      && (r == Failure(ContainerFailed) <==> exists i: nat :: FailedInTurn(pod, i))
      && (r == Success(true) ==> OutcomeIs(rt, dc, text, pod) && |Fold(rt, dc.steps, text)| == |dc.steps|)
      && ((forall s :: s in dc.steps ==> s.command != "") ==>
            (Exited(false) in pod.runners <==> exists i: nat :: FailedInTurn(pod, i)))
  {
    NewPodReached(rt, dc, text);
    var pod := Schedule(rt, dc, NewPod(dc, text), slots);
    var k := ScheduleReaches(rt, dc, text, NewPod(dc, text), 0, slots);
    CompleteFrom(rt, dc, text, pod, k, statuses, 0);
    OnlyActiveFails(dc, text, Fold(rt, dc.steps, text), pod, k);
  }

  lemma {:induction false} OnlyActiveFails(dc: DominoChain, text: string, outs: seq<string>, pod: Pod, k: nat)
    requires Reached(dc, text, outs, pod, k)
    ensures (exists i: nat :: FailedInTurn(pod, i)) <==> k < |dc.steps| && pod.runners[k] == Exited(false)
    ensures (forall s :: s in dc.steps ==> s.command != "") ==>
      (Exited(false) in pod.runners <==> k < |dc.steps| && pod.runners[k] == Exited(false))
  {
    if k < |dc.steps| && pod.runners[k] == Exited(false) {
      assert FailedInTurn(pod, k);
    }
    if Exited(false) in pod.runners && forall s :: s in dc.steps ==> s.command != "" {
      var i :| 0 <= i < |pod.runners| && pod.runners[i] == Exited(false);
      assert dc.steps[i] in dc.steps;
      assert i > k ==> NotStarted(dc.steps[i], pod.runners[i]);
    }
  }

  /** A slot with an empty command fails before its turn, and the controller does not see it yet. */
  lemma {:induction false} EarlyFailureIsUnseen(rt: Runtime, command: string, text: string)
    ensures var dc := DominoChain(Snapshot("t", Inline(map[]), true, ""), [ChainStep("a", command), ChainStep("b", "")]);
      var pod := Schedule(rt, dc, NewPod(dc, text), [1]);
      && pod.runners == [Waiting, Exited(false)]
      && SlotsComplete(Report(dc, pod), dc.steps, 0) == Success(false)
  {
    var dc := DominoChain(Snapshot("t", Inline(map[]), true, ""), [ChainStep("a", command), ChainStep("b", "")]);
    var start := NewPod(dc, text);
    assert start.runners == [Waiting, Waiting];
    assert [1 as nat][1..] == [];
    var pod := StepSlot(rt, dc, start, 1);
    assert pod.runners == [Waiting, Exited(false)];
    assert Schedule(rt, dc, start, [1]) == Schedule(rt, dc, pod, []) == pod;
    assert Report(dc, pod)[0] == ContainerStatus(SlotName(0, "a"), None);
  }

  // ---- The engine gives the same ----

  /**
  Along the fold from raw, each step is handed JSON text, and does on it what it does on the canonical
  text of the same value.
  */
  ghost predicate ReadsValues(rt: Runtime, steps: seq<ChainStep>, raw: string)
    decreases |steps|
  {
    steps == [] ||
    (&& rt.unmarshal(raw).Some?
     && var out := rt.exec(0, steps[0].command, raw);
     && rt.exec(0, steps[0].command, rt.marshal(rt.unmarshal(raw).value)) == out
     && (out.Some? ==> ReadsValues(rt, steps[1..], out.value)))
  }

  /** JSON text, in which a bare null is not padded: the builtins know it by its text. */
  ghost predicate JsonText(rt: Runtime, x: string) {
    rt.unmarshal(x).Some? && (rt.unmarshal(x) == Some(Null) ==> x == "null")
  }

  /** On JSON text the command depends only on the value, and emits JSON text. */
  ghost predicate JsonCommand(rt: Runtime, command: string) {
    && PureCommand(rt, command)
    && (forall x, y :: JsonText(rt, x) && JsonText(rt, y) && rt.unmarshal(x) == rt.unmarshal(y) ==>
          rt.exec(0, command, x) == rt.exec(0, command, y))
    && (forall x :: JsonText(rt, x) && rt.exec(0, command, x).Some? ==> JsonText(rt, rt.exec(0, command, x).value))
  }

  ghost predicate JsonSteps(rt: Runtime, steps: seq<ChainStep>) {
    forall s :: s in steps ==> JsonCommand(rt, s.command)
  }

  /** Chains of such commands read values only, from any JSON text. */
  lemma {:induction false} JsonStepsReadValues(rt: Runtime, steps: seq<ChainStep>, raw: string)
    requires JsonLaws(rt) && JsonSteps(rt, steps) && JsonText(rt, raw)
    ensures PureSteps(rt, steps) && ReadsValues(rt, steps, raw)
    decreases |steps|
  {
    if steps != [] {
      assert steps[0] in steps && JsonCommand(rt, steps[0].command);
      MarshalIsJsonText(rt, rt.unmarshal(raw).value);
      var out := rt.exec(0, steps[0].command, raw);
      if out.Some? {
        JsonStepsReadValues(rt, steps[1..], out.value);
      }
    }
  }

  lemma {:induction false} MarshalIsJsonText(rt: Runtime, v: Json)
    requires JsonLaws(rt)
    ensures JsonText(rt, rt.marshal(v)) && rt.unmarshal(rt.marshal(v)) == Some(v)
  {
    MarshalText(rt, v);
  }

  lemma {:induction false} IdentityIsJson(rt: Runtime)
    requires JsonLaws(rt) && RunsBuiltins(rt)
    ensures JsonCommand(rt, "builtin:identity")
  {
    forall x | JsonText(rt, x)
      ensures rt.exec(0, "builtin:identity", x) == Some(rt.marshal(rt.unmarshal(x).value))
    {
      MarshalText(rt, rt.unmarshal(x).value);
    }
    forall x | JsonText(rt, x)
      ensures JsonText(rt, rt.exec(0, "builtin:identity", x).value)
    {
      MarshalIsJsonText(rt, rt.unmarshal(x).value);
    }
  }

  lemma {:induction false} CoarsenIsJson(rt: Runtime)
    requires JsonLaws(rt) && RunsBuiltins(rt)
    ensures JsonCommand(rt, "builtin:coarsen")
  {
    forall x | JsonText(rt, x) && rt.exec(0, "builtin:coarsen", x).Some?
      ensures JsonText(rt, rt.exec(0, "builtin:coarsen", x).value)
    {
      if x == "null" {
        MarshalIsJsonText(rt, CoarsenResult(Zero(), 0));
      } else {
        var items := CoarsenItems(rt.unmarshal(x).value);
        MarshalIsJsonText(rt, CoarsenResult(SumOf(items), |items|));
      }
    }
  }

  /** The names are distinct and not empty, and every command passes the purity gate. */
  ghost predicate Runnable(dc: DominoChain) {
    && dc.steps != [] && ChainOk(ToWorkflow(dc).chain)
    && forall s :: s in dc.steps ==> CommandRegularity(s.command) != Contract
  }

  /** Step i is found under its name, passes the gate, and reads only the step before it. */
  ghost predicate Wired(wf: Workflow, steps: seq<ChainStep>, i: nat)
    requires i < |steps|
  {
    var d := StepDomino(steps, i);
    && i < |wf.chain| && wf.chain[i] == steps[i].name && steps[i].name != ""
    && FindDomino(wf.dominos, steps[i].name) == Some(d)
    && AllowDeterministic(d.command, wf.sandbox)
    && ReadsAllowed(wf.chain, d.name, DeclaredReads(d))
  }

  ghost predicate AllWired(wf: Workflow, steps: seq<ChainStep>) {
    |wf.chain| == |steps| && forall i :: 0 <= i < |steps| ==> Wired(wf, steps, i)
  }

  lemma {:induction false} StepIsWired(dc: DominoChain, i: nat)
    requires Runnable(dc) && i < |dc.steps|
    ensures Wired(ToWorkflow(dc), dc.steps, i)
  {
    var wf := ToWorkflow(dc);
    assert dc.steps[i] in dc.steps;
    assert Names(wf.dominos) == wf.chain;
    FindDominoUnique(wf.dominos, i);
    IndexOfDistinct(wf.chain, i);
    assert wf.chain[i] in wf.chain;
    var d := StepDomino(dc.steps, i);
    if i > 0 {
      IndexOfDistinct(wf.chain, i - 1);
      var prev := dc.steps[i - 1].name;
      assert wf.chain[i - 1] == prev && prev in wf.chain;
      assert d.inputs[0].fromDomino == prev != "" && d.inputs[1..] == [];
      assert InputReads(d.inputs) == [prev];
    }
  }

  lemma {:induction false} ChainIsWired(dc: DominoChain)
    requires Runnable(dc)
    ensures AllWired(ToWorkflow(dc), dc.steps) && DominosOk(ToWorkflow(dc).dominos)
  {
    var wf := ToWorkflow(dc);
    forall i | 0 <= i < |dc.steps| ensures Wired(wf, dc.steps, i) {
      StepIsWired(dc, i);
    }
    assert Names(wf.dominos) == wf.chain;
  }

  /** A single domino input gives the JSON value of the output before it. */
  lemma {:induction false} OneInput(rt: Runtime, name: string, v: Json, outputs: map<string, string>)
    requires name != "" && name in outputs
    ensures Parts(rt, [Input(name, "")], v, outputs) == Success([OutputValue(rt, outputs[name])])
  {
    var inputs := [Input(name, "")];
    var none: seq<Json> := [];
    assert inputs[..0] == [];
    assert Parts(rt, inputs[..0], v, outputs) == Success(none);
    assert none + [OutputValue(rt, outputs[name])] == [OutputValue(rt, outputs[name])];
  }

  /** raw is the text before step i: the snapshot, or the output of the step before. */
  ghost predicate Before(rt: Runtime, steps: seq<ChainStep>, v: Json, i: nat, outputs: map<string, string>, raw: string)
    requires i <= |steps|
  {
    if i == 0 then raw == rt.marshal(v)
    else steps[i - 1].name in outputs && outputs[steps[i - 1].name] == raw
  }

  /** The job of step i carries the canonical text of the value before it. */
  lemma {:induction false} JobOfStep(rt: Runtime, wf: Workflow, steps: seq<ChainStep>, v: Json, i: nat, outputs: map<string, string>, raw: string)
    requires JsonLaws(rt) && AllWired(wf, steps) && i < |steps| && Before(rt, steps, v, i, outputs, raw)
    requires rt.unmarshal(raw).Some?
    ensures PlainJob(rt, wf, v, steps[i].name, outputs) == Success(Job(steps[i].command, rt.marshal(rt.unmarshal(raw).value)))
  {
    assert Wired(wf, steps, i);
    if i > 0 {
      assert Wired(wf, steps, i - 1);
      OneInput(rt, steps[i - 1].name, v, outputs);
    }
  }

  /** One step of the engine on the chain does what the runner does on the raw text. */
  lemma {:induction false} EngineStep(rt: Runtime, wf: Workflow, steps: seq<ChainStep>, id: string, v: Json, i: nat, raw: string, t: Thread)
    requires JsonLaws(rt) && AllWired(wf, steps)
    requires i < |steps| && Before(rt, steps, v, i, t.outputs, raw) && ReadsValues(rt, steps[i..], raw)
    ensures var p := PlainStep(rt, wf, id, v, steps[i].name, t);
      var out := rt.exec(0, steps[i].command, raw);
      && p.fault == (if out.None? then Some(ExecFailed) else None)
      && (out.Some? ==> p.thread.outputs == t.outputs[steps[i].name := out.value]
                        && Before(rt, steps, v, i + 1, p.thread.outputs, out.value))
  {
    JobOfStep(rt, wf, steps, v, i, t.outputs, raw);
  }

  function LastOr(outs: seq<string>, raw: string): string {
    if outs == [] then raw else outs[|outs| - 1]
  }

  /** The engine stands after n steps, or failed, as the outputs say. */
  ghost predicate EngineGives(rt: Runtime, steps: seq<ChainStep>, v: Json, p: PlainProgress, outs: seq<string>, n: nat, raw: string) {
    && p.fault == (if |outs| == n then None else Some(ExecFailed))
    && (p.fault.None? ==> Before(rt, steps, v, |steps|, p.thread.outputs, LastOr(outs, raw)))
  }

  lemma {:induction false} EngineGivesCons(rt: Runtime, steps: seq<ChainStep>, v: Json, p: PlainProgress, x: string, outs: seq<string>, n: nat, raw: string)
    requires EngineGives(rt, steps, v, p, outs, n, x)
    ensures EngineGives(rt, steps, v, p, [x] + outs, n + 1, raw)
  {
  }

  /** Both recursions unfolded by one step; t2 is the engine after step i. */
  lemma {:induction false} EngineAdvances(rt: Runtime, wf: Workflow, steps: seq<ChainStep>, id: string, v: Json, i: nat, raw: string, t: Thread) returns (t2: Thread)
    requires i < |steps|
    requires JsonLaws(rt) && AllWired(wf, steps) && steps[i].command != ""
    requires Before(rt, steps, v, i, t.outputs, raw) && ReadsValues(rt, steps[i..], raw)
    ensures var out := rt.exec(0, steps[i].command, raw);
      var p := PlainSteps(rt, wf, id, v, wf.chain[i..], t);
      if out.None? then p.fault == Some(ExecFailed) && Fold(rt, steps[i..], raw) == []
      else
        && p == PlainSteps(rt, wf, id, v, wf.chain[i + 1..], t2)
        && Fold(rt, steps[i..], raw) == [out.value] + Fold(rt, steps[i + 1..], out.value)
        && Before(rt, steps, v, i + 1, t2.outputs, out.value) && ReadsValues(rt, steps[i + 1..], out.value)
  {
    assert Wired(wf, steps, i);
    EngineStep(rt, wf, steps, id, v, i, raw, t);
    t2 := PlainStep(rt, wf, id, v, steps[i].name, t).thread;
    assert wf.chain[i..][0] == steps[i].name && wf.chain[i..][1..] == wf.chain[i + 1..];
    assert steps[i..][0] == steps[i] && steps[i..][1..] == steps[i + 1..];
  }

  /** The engine from step i on, against the fold of the remaining steps. */
  lemma {:induction false} EngineFrom(rt: Runtime, wf: Workflow, steps: seq<ChainStep>, id: string, v: Json, i: nat, raw: string, t: Thread)
    requires JsonLaws(rt) && AllWired(wf, steps) && forall s :: s in steps ==> s.command != ""
    requires steps != [] && i <= |steps| && Before(rt, steps, v, i, t.outputs, raw) && ReadsValues(rt, steps[i..], raw)
    ensures EngineGives(rt, steps, v, PlainSteps(rt, wf, id, v, wf.chain[i..], t), Fold(rt, steps[i..], raw), |steps| - i, raw)
    decreases |steps| - i
  {
    if i < |steps| {
      assert steps[i] in steps;
      var t2 := EngineAdvances(rt, wf, steps, id, v, i, raw, t);
      var out := rt.exec(0, steps[i].command, raw);
      if out.Some? {
        EngineFrom(rt, wf, steps, id, v, i + 1, out.value, t2);
        EngineGivesCons(rt, steps, v, PlainSteps(rt, wf, id, v, wf.chain[i + 1..], t2),
                        out.value, Fold(rt, steps[i + 1..], out.value), |steps| - i - 1, raw);
      }
    }
  }

  /** The outputs of a chain of n steps decide whether it succeeds and what it puts out. */
  ghost predicate RunGives(r: Result<RunResult>, outs: seq<string>, n: nat) {
    if |outs| == n then r.Success? && r.value.finalOutput == LastOr(outs, "") else r == Failure(ExecFailed)
  }

  ghost predicate PodGives(pod: Pod, outs: seq<string>, n: nat) {
    && |pod.runners| == n > 0
    && (pod.runners[n - 1] == Exited(true) <==> |outs| == n)
    && (|outs| == n ==> SlotOutput(n - 1) in pod.files && pod.files[SlotOutput(n - 1)] == LastOr(outs, ""))
  }

  /** The run succeeds exactly when the last slot does, with the same final output. */
  ghost predicate SameOutcome(r: Result<RunResult>, pod: Pod, n: nat) {
    && |pod.runners| == n > 0
    && (r.Success? <==> pod.runners[n - 1] == Exited(true))
    && (r.Success? ==> SlotOutput(n - 1) in pod.files && pod.files[SlotOutput(n - 1)] == r.value.finalOutput)
    && (r.Failure? ==> r.fault == ExecFailed)
  }

  /**
  Containers and engine agree: on the snapshot text that the controller mounts, the pod ends with the
  final output of a run of dominoChainToWorkflow, and it fails exactly when that run fails.
  */
  lemma {:induction false} EngineAgreesWithPod(rt: Runtime, ticks: nat, st: Store, dc: DominoChain, rounds: seq<seq<nat>>)
    requires JsonLaws(rt) && DigestLaws(rt)
    requires dc.snapshot.sealed && dc.snapshot.source.Inline?
    requires Runnable(dc) && PureSteps(rt, dc.steps) && ReadsValues(rt, dc.steps, rt.marshal(InlineValue(dc.snapshot)))
    requires Accepts(rt, st, ToWorkflow(dc))
    requires |rounds| >= 3 * |dc.steps| && forall r :: r in rounds ==> IsRound(|dc.steps|, r)
    ensures SameOutcome(Run(rt, ticks, st, ToWorkflow(dc)).result,
                        Rounds(rt, dc, NewPod(dc, rt.marshal(InlineValue(dc.snapshot))), rounds), |dc.steps|)
  {
    var text := rt.marshal(InlineValue(dc.snapshot));
    PodOutcome(rt, dc, text, rounds);
    RunOutcome(rt, ticks, st, dc);
    BothGive(Run(rt, ticks, st, ToWorkflow(dc)).result, Rounds(rt, dc, NewPod(dc, text), rounds),
             Fold(rt, dc.steps, text), |dc.steps|);
  }

  lemma {:induction false} TranslatedDomino(dc: DominoChain, i: nat, d: Domino)
    requires i < |dc.steps| && DominosOk(ToWorkflow(dc).dominos)
    requires d in ToWorkflow(dc).dominos && d.name == dc.steps[i].name
    ensures d == StepDomino(dc.steps, i)
  {
    var dominos := ToWorkflow(dc).dominos;
    var j :| 0 <= j < |dominos| && dominos[j] == d;
    FindDominoUnique(dominos, i);
    FindDominoUnique(dominos, j);
  }

  /** The ID of a successful run of a translated chain commits to the chain's time slice and inline fields. */
  lemma {:induction false} TranslatedRunCommits(rt: Runtime, ticks: nat, st: Store, dc: DominoChain) returns (x: string)
    requires JsonLaws(rt) && DigestLaws(rt)
    requires Run(rt, ticks, st, ToWorkflow(dc)).result.Success?
    ensures dc.snapshot.sealed && dc.snapshot.source.Inline?
    ensures CommitsTo(rt, Run(rt, ticks, st, ToWorkflow(dc)).result.value.snapshotId, x, dc.snapshot.timeSlice, Obj(dc.snapshot.source.fields))
  {
    var v;
    x, v := RunIdCommits(rt, ticks, st, ToWorkflow(dc));
  }

  /** Every command of such a run passed the purity gate, and each step read the content or the output before it. */
  lemma {:induction false} TranslatedRunReads(rt: Runtime, ticks: nat, st: Store, dc: DominoChain, i: nat)
    requires JsonLaws(rt) && DigestLaws(rt) && i < |dc.steps|
    requires dc.snapshot.source.Inline? && Run(rt, ticks, st, ToWorkflow(dc)).result.Success?
    ensures var rows := Run(rt, ticks, st, ToWorkflow(dc)).result.value.entries;
      && |rows| == |dc.steps| && rows[i].dominoId == dc.steps[i].name
      && ("builtin:" <= dc.steps[i].command || "julia:" <= dc.steps[i].command)
      && ReadsThread(rt, Obj(dc.snapshot.source.fields), rows, i)
  {
    var wf := ToWorkflow(dc);
    RunEstablishes(rt, ticks, st, wf);
    TranslatedContent(rt, st, dc);
    var rows := Run(rt, ticks, st, wf).result.value.entries;
    var d, vals, x := RowsRecordInputs(rt, ticks, st, wf, i);
    TranslatedDomino(dc, i, d);
    if i > 0 {
      var d0, vals0, x0 := RowsRecordInputs(rt, ticks, st, wf, i - 1);
    }
    StepReadsThread(rt, dc, i, Obj(dc.snapshot.source.fields), rows, vals, x);
  }

  /** Row i hashes the content, or the value of the output before it. */
  ghost predicate ReadsThread(rt: Runtime, v: Json, rows: seq<ReplayRow>, i: nat)
    requires i < |rows|
  {
    if i == 0 then rows[0].inputHash == rt.digest(rt.marshal(v))
    else exists w :: ReadsAs(rt, rows[i - 1].output, w) && rows[i].inputHash == rt.digest(rt.marshal(w))
  }

  lemma {:induction false} StepReadsThread(rt: Runtime, dc: DominoChain, i: nat, v: Json, rows: seq<ReplayRow>, vals: seq<seq<Json>>, x: string)
    requires i < |dc.steps| == |rows| && rows[i].inputHash == rt.digest(x)
    requires i > 0 ==> rows[i - 1].dominoId == dc.steps[i - 1].name && dc.steps[i - 1].name in ToWorkflow(dc).chain && ChainOk(ToWorkflow(dc).chain)
    requires InputIs(rt, StepDomino(dc.steps, i), v, OutputsAfter(map[], rows[..i]), vals, x)
    ensures ReadsThread(rt, v, rows, i)
  {
    if i > 0 {
      assert rows[..i][i - 1] == rows[i - 1];
      PriorIsRead(rt, StepDomino(dc.steps, i), v, rows[..i], vals, x);
    }
  }

  lemma {:induction false} TranslatedContent(rt: Runtime, st: Store, dc: DominoChain)
    requires dc.snapshot.source.Inline? && Prepare(rt, st, ToWorkflow(dc).snapshot).Success?
    ensures RunContent(rt, st, ToWorkflow(dc)).value == Obj(dc.snapshot.source.fields)
  {
  }

  /** A domino whose one input is the output of the row before it. */
  lemma {:induction false} PriorIsRead(rt: Runtime, d: Domino, v: Json, rows: seq<ReplayRow>, vals: seq<seq<Json>>, x: string)
    requires rows != [] && d.inputs == [Input(rows[|rows| - 1].dominoId, "")] && rows[|rows| - 1].dominoId != ""
    requires InputIs(rt, d, v, OutputsAfter(map[], rows), vals, x)
    ensures exists w :: ReadsAs(rt, rows[|rows| - 1].output, w) && x == rt.marshal(w)
  {
    OutputsAfterLast(map[], rows);
    assert d.inputs[0] == Input(rows[|rows| - 1].dominoId, "");
    assert vals[..0] == [] && Flatten(vals[..0]) == [];
    assert Flatten(vals) == vals[0];
    assert ReadsAs(rt, rows[|rows| - 1].output, vals[0][0]);
  }

  /** The translation drops a path or URI, so the engine refuses the chain although its pod may run. */
  lemma {:induction false} ExternalChainIsRefused(rt: Runtime, ticks: nat, st: Store, dc: DominoChain)
    requires dc.snapshot.sealed && !dc.snapshot.source.Inline?
    ensures Run(rt, ticks, st, ToWorkflow(dc)) == Outcome(st, ticks, Failure(SourceUnresolved))
  {
  }

  /**
  For any source that the controller can resolve and mount: the pod and the engine's run agree exactly
  when the source is inline.
  */
  lemma {:induction false} AgreeIffInline(rt: Runtime, ticks: nat, st: Store, dc: DominoChain, v: Json, rounds: seq<seq<nat>>)
    requires JsonLaws(rt) && DigestLaws(rt)
    requires dc.snapshot.sealed && ResolveSource(rt, dc.snapshot.source) == Success(v)
    requires Runnable(dc) && PureSteps(rt, dc.steps) && ReadsValues(rt, dc.steps, rt.marshal(v))
    requires dc.snapshot.source.Inline? ==> Accepts(rt, st, ToWorkflow(dc))
    requires |rounds| >= 3 * |dc.steps| && forall r :: r in rounds ==> IsRound(|dc.steps|, r)
    ensures SameOutcome(Run(rt, ticks, st, ToWorkflow(dc)).result, Rounds(rt, dc, NewPod(dc, rt.marshal(v)), rounds), |dc.steps|)
            <==> dc.snapshot.source.Inline?
  {
    if dc.snapshot.source.Inline? {
      EngineAgreesWithPod(rt, ticks, st, dc, rounds);
    } else {
      ExternalChainIsRefused(rt, ticks, st, dc);
    }
  }

  lemma {:induction false} BothGive(r: Result<RunResult>, pod: Pod, outs: seq<string>, n: nat)
    requires RunGives(r, outs, n) && PodGives(pod, outs, n)
    ensures SameOutcome(r, pod, n)
  {
  }

  lemma {:induction false} PodOutcome(rt: Runtime, dc: DominoChain, text: string, rounds: seq<seq<nat>>)
    requires PureSteps(rt, dc.steps) && dc.steps != []
    requires |rounds| >= 3 * |dc.steps| && forall r :: r in rounds ==> IsRound(|dc.steps|, r)
    ensures PodGives(Rounds(rt, dc, NewPod(dc, text), rounds), Fold(rt, dc.steps, text), |dc.steps|)
  {
    var n := |dc.steps|;
    NewPodReached(rt, dc, text);
    var k := RoundsFinish(rt, dc, text, NewPod(dc, text), 0, rounds);
    FilesAt(text, Fold(rt, dc.steps, text), k, n - 1);
  }

  lemma {:induction false} RunOutcome(rt: Runtime, ticks: nat, st: Store, dc: DominoChain)
    requires JsonLaws(rt) && DigestLaws(rt)
    requires dc.snapshot.sealed && dc.snapshot.source.Inline?
    requires Runnable(dc) && PureSteps(rt, dc.steps) && ReadsValues(rt, dc.steps, rt.marshal(InlineValue(dc.snapshot)))
    requires Accepts(rt, st, ToWorkflow(dc))
    ensures RunGives(Run(rt, ticks, st, ToWorkflow(dc)).result,
                     Fold(rt, dc.steps, rt.marshal(InlineValue(dc.snapshot))), |dc.steps|)
  {
    var wf := ToWorkflow(dc);
    WorkflowIsPure(rt, dc);
    EnginePlain(rt, dc);
    InlineRunIsPlain(rt, ticks, st, wf);
    ObservedGives(Run(rt, ticks, st, wf).result, PlainRun(rt, wf, InlineId(rt, wf.snapshot), InlineValue(wf.snapshot)),
                  Fold(rt, dc.steps, rt.marshal(InlineValue(dc.snapshot))), |dc.steps|);
  }

  lemma {:induction false} ObservedGives(a: Result<RunResult>, b: Result<RunResult>, outs: seq<string>, n: nat)
    requires SameObservation(a, b) && RunGives(b, outs, n)
    ensures RunGives(a, outs, n)
  {
  }

  lemma {:induction false} WorkflowIsPure(rt: Runtime, dc: DominoChain)
    requires PureSteps(rt, dc.steps)
    ensures Pure(rt, ToWorkflow(dc).dominos)
  {
    forall d | d in ToWorkflow(dc).dominos
      ensures PureCommand(rt, d.command)
    {
      var i :| 0 <= i < |dc.steps| && d == StepDomino(dc.steps, i);
      assert dc.steps[i] in dc.steps;
    }
  }

  /** The memo-free fold of the engine on the translated chain. */
  lemma {:induction false} EnginePlain(rt: Runtime, dc: DominoChain)
    requires JsonLaws(rt) && dc.snapshot.source.Inline?
    requires Runnable(dc) && ReadsValues(rt, dc.steps, rt.marshal(InlineValue(dc.snapshot)))
    ensures var wf := ToWorkflow(dc);
      RunGives(PlainRun(rt, wf, InlineId(rt, wf.snapshot), InlineValue(wf.snapshot)),
               Fold(rt, dc.steps, rt.marshal(InlineValue(dc.snapshot))), |dc.steps|)
  {
    var wf := ToWorkflow(dc);
    ChainIsWired(dc);
    assert Wired(wf, dc.steps, |dc.steps| - 1);
    WiredPlain(rt, wf, dc.steps, InlineId(rt, wf.snapshot), InlineValue(wf.snapshot));
  }

  lemma {:induction false} WiredPlain(rt: Runtime, wf: Workflow, steps: seq<ChainStep>, id: string, v: Json)
    requires JsonLaws(rt) && ReadsValues(rt, steps, rt.marshal(v)) && steps != []
    requires forall s :: s in steps ==> s.command != ""
    requires AllWired(wf, steps) && DominosOk(wf.dominos) && ChainOk(wf.chain)
    ensures RunGives(PlainRun(rt, wf, id, v), Fold(rt, steps, rt.marshal(v)), |steps|)
  {
    var n := |steps|;
    assert Wired(wf, steps, n - 1);
    assert wf.chain[0..] == wf.chain && steps[0..] == steps;
    EngineFrom(rt, wf, steps, id, v, 0, rt.marshal(v), Thread(map[], id, []));
  }
}
