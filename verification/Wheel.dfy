/**
The Compute Wheel: a reconciler that visits every context for each time slice. Its position lives in
a persisted status; reads and writes may fail, and an environment moves workflows through phases.
Times are whole seconds since the zero time.
*/
module Wheel {
  import opened Basics
  import opened Aggregation

  // ---- Rotation ----

  datatype State = State(slice: int, index: int, rotations: int)

  datatype Advance = Advance(state: State, done: bool)

  function AdvanceAfterCompletion(s: State, n: int, interval: int, maxRotations: int): Advance {
    if n <= 0 then Advance(s, true)
    else if s.index + 1 >= n then
      var next := State(s.slice + interval, 0, s.rotations + 1);
      Advance(next, maxRotations > 0 && next.rotations >= maxRotations)
    else Advance(s.(index := s.index + 1), false)
  }

  // ---- Resources ----

  datatype Phase = NoPhase | Idle | Rotating | Processing | Error

  datatype WorkflowPhase = Pending | Running | Completed | Failed

  datatype Workflow = Workflow(phase: WorkflowPhase, snapshotId: string)

  datatype Slot = Slot(timeSlice: int, context: string, workflow: string, snapshotId: string, completedAt: int)

  /** timeSlice is None while the status has never been initialised. */
  datatype Status = Status(
    phase: Phase,
    timeSlice: Option<int>,
    activeContext: string,
    index: int,
    rotations: int,
    activeWorkflow: string,
    processed: seq<Slot>)

  datatype Start = FromClock | At(time: int) | Unparsable

  /** interval is None when it does not parse; name is WorkflowName for this wheel. */
  datatype WheelSpec = WheelSpec(
    contexts: seq<string>,
    interval: Option<int>,
    start: Start,
    maxRotations: int,
    preProvisionNext: bool,
    windowDepth: int,
    windowArity: int,
    name: (string, int) -> string)

  datatype World = World(status: Status, workflows: map<string, Workflow>)

  const NEW_STATUS := Status(NoPhase, None, "", 0, 0, "", [])

  /** What one reconcile meets: the clock, and which of its calls to the API server fail. */
  datatype Calls = Calls(
    now: nat,
    initWriteFails: bool,
    contextReadFails: bool,
    universeFails: bool,
    workflowReadFails: bool,
    createFails: bool,
    nextFails: bool,
    writeFails: bool)

  // ---- The persisted position ----

  function StateFromStatus(st: Status): State {
    if st.timeSlice.None? then State(0, 0, 0) else State(st.timeSlice.value, st.index, st.rotations)
  }

  function ApplyState(st: Status, s: State, context: string): Status {
    st.(timeSlice := Some(s.slice), index := s.index, rotations := s.rotations, activeContext := context)
  }

  function InitialState(start: Start, interval: int, now: nat): Option<State> {
    match start
    case Unparsable => None
    case At(t) => Some(State(t, 0, 0))
    case FromClock => Some(State(if interval > 0 then now - now % interval else now, 0, 0))
  }

  // ---- One reconcile ----

  predicate SpecOk(spec: WheelSpec) {
    && spec.contexts != []
    && ExplorerWindowOk(|spec.contexts|, spec.windowDepth, spec.windowArity)
    && spec.interval.Some?
    && !spec.start.Unparsable?
  }

  function Write(w: World, st: Status, fails: bool): World {
    if fails then w else w.(status := st)
  }

  function FailWheel(w: World, st: Status, c: Calls): World {
    Write(w, st.(phase := Error), c.writeFails)
  }

  function Reconcile(spec: WheelSpec, w: World, c: Calls): World {
    if spec.contexts == [] || !ExplorerWindowOk(|spec.contexts|, spec.windowDepth, spec.windowArity) || spec.interval.None?
    then FailWheel(w, w.status, c)
    else if w.status.timeSlice.Some? then ReconcileAt(spec, w, StateFromStatus(w.status), c)
    else
      var initial := InitialState(spec.start, spec.interval.value, c.now);
      if initial.None? then FailWheel(w, w.status, c)
      else if c.initWriteFails then w
      else
        var st := ApplyState(w.status, initial.value, spec.contexts[0]).(phase := Rotating);
        ReconcileAt(spec, w.(status := st), initial.value, c)
  }

  /** Reconcile once the position is known and persisted. */
  function ReconcileAt(spec: WheelSpec, w: World, s: State, c: Calls): World
    requires spec.contexts != [] && spec.interval.Some?
  {
    if w.status.phase == Idle && spec.maxRotations > 0 && w.status.rotations >= spec.maxRotations then w
    else if !(0 <= s.index < |spec.contexts|) then FailWheel(w, w.status, c)
    else if c.contextReadFails then w
    else if c.universeFails then FailWheel(w, w.status, c)
    else if c.workflowReadFails then w
    else
      var context := spec.contexts[s.index];
      var name := spec.name(context, s.slice);
      if name !in w.workflows then
        if c.createFails then FailWheel(w, w.status, c)
        else Write(w.(workflows := w.workflows[name := Workflow(Pending, "")]),
                   w.status.(phase := Processing, activeWorkflow := name), c.writeFails)
      else
        var st := w.status.(activeWorkflow := name);
        var w' := if spec.preProvisionNext then PreProvisionNext(spec, w, s, c) else w;
        match w.workflows[name].phase
        case Completed => Write(w', Advanced(spec, st, s, context, name, w.workflows[name], c.now), c.writeFails)
        case Failed => Write(w', st.(phase := Error), c.writeFails)
        case _ => Write(w', st.(phase := Processing), c.writeFails)
  }

  /** The status that advance writes. */
  function Advanced(spec: WheelSpec, st: Status, s: State, context: string, name: string, wf: Workflow, now: nat): Status
    requires spec.contexts != [] && spec.interval.Some?
  {
    var slice := if st.timeSlice.Some? then st.timeSlice.value else 0;
    var recorded := st.(processed := st.processed + [Slot(slice, context, name, wf.snapshotId, now)]);
    var next := AdvanceAfterCompletion(s, |spec.contexts|, spec.interval.value, spec.maxRotations);
    if next.done then ApplyState(recorded, next.state, "").(phase := Idle, activeWorkflow := "")
    else if 0 <= next.state.index < |spec.contexts| then
      ApplyState(recorded, next.state, spec.contexts[next.state.index]).(phase := Rotating, activeWorkflow := "")
    else ApplyState(recorded, next.state, "").(phase := Error)
  }

  /** Create the workflow of the next slot, looked up without a rotation limit. Errors are only logged. */
  function PreProvisionNext(spec: WheelSpec, w: World, s: State, c: Calls): World
    requires spec.contexts != [] && spec.interval.Some?
  {
    var next := AdvanceAfterCompletion(s, |spec.contexts|, spec.interval.value, 0);
    if next.done || !(0 <= next.state.index < |spec.contexts|) || c.nextFails then w
    else
      var name := spec.name(spec.contexts[next.state.index], next.state.slice);
      if name in w.workflows then w else w.(workflows := w.workflows[name := Workflow(Pending, "")])
  }

  // ---- The controller ----

  /** The API server's copy of the wheel status and the workflows. */
  class Controller {
    const spec: WheelSpec
    var status: Status
    var workflows: map<string, Workflow>

    constructor (spec: WheelSpec)
      ensures this.spec == spec && status == NEW_STATUS && workflows == map[]
    {
      this.spec, status, workflows := spec, NEW_STATUS, map[];
    }

    ghost function Now(): World
      reads this
    {
      World(status, workflows)
    }

    method UpdateStatus(st: Status, fails: bool) returns (ok: bool)
      modifies this`status
      ensures ok == !fails && status == if fails then old(status) else st
    {
      if !fails {
        status := st;
      }
      ok := !fails;
    }

    method Fail(st: Status, c: Calls)
      modifies this`status
      ensures Now() == FailWheel(old(Now()), st, c)
    {
      var _ := UpdateStatus(st.(phase := Error), c.writeFails);
    }

    method Step(c: Calls)
      modifies this
      ensures Now() == Reconcile(spec, old(Now()), c)
    {
      var st := status;  // the copy that this reconcile works on
      if |spec.contexts| == 0 {
        Fail(st, c);
        return;
      }
      if !ExplorerWindowOk(|spec.contexts|, spec.windowDepth, spec.windowArity) {
        Fail(st, c);
        return;
      }
      if spec.interval.None? {
        Fail(st, c);
        return;
      }
      var state := StateFromStatus(st);
      if st.timeSlice.None? {
        var initial := InitialState(spec.start, spec.interval.value, c.now);
        if initial.None? {
          Fail(st, c);
          return;
        }
        state := initial.value;
        st := ApplyState(st, state, spec.contexts[0]).(phase := Rotating);
        var ok := UpdateStatus(st, c.initWriteFails);
        if !ok {
          return;
        }
      }
      StepAt(st, state, c);
    }

    method StepAt(st0: Status, state: State, c: Calls)
      requires st0 == status && |spec.contexts| > 0 && spec.interval.Some?
      modifies this
      ensures Now() == ReconcileAt(spec, old(Now()), state, c)
    {
      var st := st0;
      if st.phase == Idle && spec.maxRotations > 0 && st.rotations >= spec.maxRotations {
        return;
      }
      if !(0 <= state.index < |spec.contexts|) {
        Fail(st, c);
        return;
      }
      var context := spec.contexts[state.index];
      if c.contextReadFails {
        return;
      }
      if c.universeFails {
        Fail(st, c);
        return;
      }
      if c.workflowReadFails {
        return;
      }
      var name := spec.name(context, state.slice);
      if name !in workflows {
        if c.createFails {
          Fail(st, c);
          return;
        }
        workflows := workflows[name := Workflow(Pending, "")];
        st := st.(phase := Processing, activeWorkflow := name);
        var _ := UpdateStatus(st, c.writeFails);
        return;
      }
      var existing := workflows[name];
      st := st.(activeWorkflow := name);
      if spec.preProvisionNext {
        PreProvision(state, c);
      }
      match existing.phase
      case Completed =>
        var _ := UpdateStatus(Advanced(spec, st, state, context, name, existing, c.now), c.writeFails);
      case Failed =>
        var _ := UpdateStatus(st.(phase := Error), c.writeFails);
      case _ =>
        var _ := UpdateStatus(st.(phase := Processing), c.writeFails);
    }

    method PreProvision(state: State, c: Calls)
      requires |spec.contexts| > 0 && spec.interval.Some?
      modifies this`workflows
      ensures Now() == PreProvisionNext(spec, old(Now()), state, c)
    {
      var next := AdvanceAfterCompletion(state, |spec.contexts|, spec.interval.value, 0);
      if next.done || !(0 <= next.state.index < |spec.contexts|) || c.nextFails {
        return;
      }
      var name := spec.name(spec.contexts[next.state.index], next.state.slice);
      if name !in workflows {
        workflows := workflows[name := Workflow(Pending, "")];
      }
    }
  }
}

module WheelTheorems {
  import opened Basics
  import opened Aggregation
  import opened Wheel

  // ---- Runs ----

  /** The environment may set or delete any workflow between reconciles. */
  datatype Event = Reconciled(calls: Calls) | WorkflowSet(name: string, workflow: Workflow) | WorkflowDeleted(name: string)

  function Happen(spec: WheelSpec, w: World, e: Event): World {
    match e
    case Reconciled(c) => Reconcile(spec, w, c)
    case WorkflowSet(name, wf) => w.(workflows := w.workflows[name := wf])
    case WorkflowDeleted(name) => w.(workflows := w.workflows - {name})
  }

  function After(spec: WheelSpec, w: World, events: seq<Event>): World
    decreases |events|
  {
    if events == [] then w else After(spec, Happen(spec, w, events[0]), events[1..])
  }

  function CompletedNames(w: World): set<string> {
    set name | name in w.workflows && w.workflows[name].phase == Completed
  }

  /** The names of workflows that were Completed at some point before the end of the run. */
  function SeenCompleted(spec: WheelSpec, w: World, events: seq<Event>): set<string>
    decreases |events|
  {
    if events == [] then {} else CompletedNames(w) + SeenCompleted(spec, Happen(spec, w, events[0]), events[1..])
  }

  // ---- The position ----

  /** The time slice of the j-th slot. */
  function SliceAt(spec: WheelSpec, start: int, j: nat): int
    requires SpecOk(spec)
  {
    start + (j / |spec.contexts|) * spec.interval.value
  }

  function ContextAt(spec: WheelSpec, j: nat): string
    requires SpecOk(spec)
  {
    spec.contexts[j % |spec.contexts|]
  }

  ghost predicate SlotIs(spec: WheelSpec, start: int, j: nat, slot: Slot)
    requires SpecOk(spec)
  {
    && slot.timeSlice == SliceAt(spec, start, j)
    && slot.context == ContextAt(spec, j)
    && slot.workflow == spec.name(ContextAt(spec, j), SliceAt(spec, start, j))
  }

  ghost predicate SlotsAre(spec: WheelSpec, start: int, slots: seq<Slot>)
    requires SpecOk(spec)
  {
    forall j :: 0 <= j < |slots| ==> SlotIs(spec, start, j, slots[j])
  }

  lemma {:induction false} SlotsExtend(spec: WheelSpec, start: int, slots: seq<Slot>, slot: Slot)
    requires SpecOk(spec) && SlotsAre(spec, start, slots) && SlotIs(spec, start, |slots|, slot)
    ensures SlotsAre(spec, start, slots + [slot])
  {
    forall j | 0 <= j < |slots| + 1
      ensures SlotIs(spec, start, j, (slots + [slot])[j])
    {
      assert j < |slots| ==> SlotIs(spec, start, j, slots[j]);
    }
  }

  /** start is where the wheel began, or may begin. */
  ghost predicate StartsAt(spec: WheelSpec, start: int)
    requires SpecOk(spec)
  {
    exists now: nat :: InitialState(spec.start, spec.interval.value, now) == Some(State(start, 0, 0))
  }

  /** The persisted position says exactly how many slots were processed, and these are the first ones. */
  ghost predicate Exact(spec: WheelSpec, start: int, st: Status)
    requires SpecOk(spec)
  {
    var n := |spec.contexts|;
    && 0 <= st.index < n && st.rotations >= 0
    && st.timeSlice == Some(start + st.rotations * spec.interval.value)
    && |st.processed| == st.rotations * n + st.index
    && SlotsAre(spec, start, st.processed)
    && (spec.maxRotations > 0 ==> |st.processed| <= n * spec.maxRotations)
    && (st.phase == Idle <==> spec.maxRotations > 0 && st.rotations == spec.maxRotations)
  }

  ghost predicate Fresh(st: Status) {
    st.timeSlice == None && st.processed == [] && st.index == 0 && st.rotations == 0 && st.phase != Idle
  }

  ghost predicate WheelOk(spec: WheelSpec, st: Status)
    requires SpecOk(spec)
  {
    Fresh(st) || exists start :: StartsAt(spec, start) && Exact(spec, start, st)
  }

  lemma {:induction false} DivMod(n: nat, q: nat, r: nat)
    requires r < n
    ensures (q * n + r) / n == q && (q * n + r) % n == r
  {
    DivideExact(q, n, q * n);
    var x := q * n + r;
    var d, m := x / n, x % n;
    assert (d - q) * n == r - m;
    assert d - q >= 1 ==> (d - q) * n >= n;
    assert d - q <= -1 ==> (d - q) * n + n <= 0;
  }

  /** The active slot of an exact position is the first one not processed yet. */
  lemma {:induction false} ActiveSlot(spec: WheelSpec, start: int, st: Status)
    requires SpecOk(spec) && Exact(spec, start, st)
    ensures var j := |st.processed|;
      st.timeSlice == Some(SliceAt(spec, start, j)) && spec.contexts[st.index] == ContextAt(spec, j)
  {
    DivMod(|spec.contexts|, st.rotations, st.index);
  }

  /** advance records the active slot and moves to the next one. */
  lemma {:induction false} AdvancedIsExact(spec: WheelSpec, start: int, st: Status, wf: Workflow, now: nat)
    requires SpecOk(spec) && Exact(spec, start, st) && st.phase != Idle
    ensures var s := StateFromStatus(st);
      var name := spec.name(spec.contexts[s.index], s.slice);
      var st' := Advanced(spec, st.(activeWorkflow := name), s, spec.contexts[s.index], name, wf, now);
      && Exact(spec, start, st')
      && st'.processed == st.processed + [Slot(s.slice, spec.contexts[s.index], name, wf.snapshotId, now)]
  {
    var s := StateFromStatus(st);
    ActiveSlot(spec, start, st);
    var name := spec.name(spec.contexts[s.index], s.slice);
    SlotsExtend(spec, start, st.processed, Slot(s.slice, spec.contexts[s.index], name, wf.snapshotId, now));
    NextPosition(|spec.contexts|, spec.interval.value, start, st.rotations, st.index, spec.maxRotations);
  }

  /** The counts of the position, one slot further. */
  lemma {:induction false} NextPosition(n: nat, interval: int, start: int, rotations: nat, index: nat, max: int)
    requires index < n
    requires max > 0 ==> rotations * n + index <= n * max && rotations != max
    ensures index + 1 == n ==>
              (rotations + 1) * n == rotations * n + index + 1 &&
              start + (rotations + 1) * interval == start + rotations * interval + interval
    ensures max > 0 ==> rotations < max && rotations * n + index + 1 <= n * max
  {
    MulSuccInt(rotations, n);
    MulSuccInt(rotations, interval);
    if max > 0 {
      RotationsBound(n, rotations, index, max);
    }
  }

  lemma {:induction false} RotationsBound(n: nat, rotations: nat, index: nat, max: nat)
    requires index < n && rotations * n + index <= n * max && rotations != max
    ensures rotations < max && rotations * n + index + 1 <= n * max
  {
    if rotations > max {
      MulLess(max, rotations, n);
      assert false;
    }
    MulLess(rotations, max, n);
  }

  lemma {:induction false} MulLess(a: nat, b: nat, n: nat)
    requires a < b
    ensures a * n + n <= b * n
  {
    assert (b - a - 1) * n >= 0;
    assert b * n == a * n + n + (b - a - 1) * n;
  }

  /** Every reconcile keeps the wheel exact, whichever of its calls fail. */
  lemma {:induction false} ReconcileAtKeepsExact(spec: WheelSpec, start: int, w: World, c: Calls)
    requires SpecOk(spec) && Exact(spec, start, w.status)
    ensures Exact(spec, start, ReconcileAt(spec, w, StateFromStatus(w.status), c).status)
  {
    var s := StateFromStatus(w.status);
    var name := spec.name(spec.contexts[s.index], s.slice);
    if w.status.phase != Idle && name in w.workflows {
      AdvancedIsExact(spec, start, w.status, w.workflows[name], c.now);
    }
  }

  lemma {:induction false} ReconcileKeepsOk(spec: WheelSpec, w: World, c: Calls)
    requires SpecOk(spec) && WheelOk(spec, w.status)
    ensures WheelOk(spec, Reconcile(spec, w, c).status)
  {
    if Fresh(w.status) {
      var initial := InitialState(spec.start, spec.interval.value, c.now).value;
      if !c.initWriteFails {
        var st := ApplyState(w.status, initial, spec.contexts[0]).(phase := Rotating);
        assert StartsAt(spec, initial.slice) && Exact(spec, initial.slice, st);
        ReconcileAtKeepsExact(spec, initial.slice, w.(status := st), c);
      }
    } else {
      var start :| StartsAt(spec, start) && Exact(spec, start, w.status);
      ReconcileAtKeepsExact(spec, start, w, c);
    }
  }

  /** Wheel exactness: any sequence of reconciles, phase changes and failures keeps the position exact. */
  lemma {:induction false} RunKeepsOk(spec: WheelSpec, w: World, events: seq<Event>)
    requires SpecOk(spec) && WheelOk(spec, w.status)
    ensures WheelOk(spec, After(spec, w, events).status)
    decreases |events|
  {
    if events != [] {
      if events[0].Reconciled? {
        ReconcileKeepsOk(spec, w, events[0].calls);
      }
      RunKeepsOk(spec, Happen(spec, w, events[0]), events[1..]);
    }
  }

  /** The first slots, in order; with R rotations to make, Idle means that n * R of them are done. */
  ghost predicate FirstSlots(spec: WheelSpec, start: int, st: Status)
    requires SpecOk(spec)
  {
    && (forall j :: 0 <= j < |st.processed| ==> SlotIs(spec, start, j, st.processed[j]))
    && (st.phase == Idle <==> spec.maxRotations > 0 && |st.processed| == |spec.contexts| * spec.maxRotations)
    && (spec.maxRotations > 0 ==> |st.processed| <= |spec.contexts| * spec.maxRotations)
  }

  /** From a new wheel: slot j is context j mod n at start plus (j div n) intervals. */
  lemma {:induction false} WheelIsExact(spec: WheelSpec, workflows: map<string, Workflow>, events: seq<Event>)
    requires SpecOk(spec)
    ensures var st := After(spec, World(NEW_STATUS, workflows), events).status;
      (st.processed == [] && st.phase != Idle) || exists start :: StartsAt(spec, start) && FirstSlots(spec, start, st)
  {
    RunKeepsOk(spec, World(NEW_STATUS, workflows), events);
    var st := After(spec, World(NEW_STATUS, workflows), events).status;
    if !Fresh(st) {
      var start :| StartsAt(spec, start) && Exact(spec, start, st);
      ExactIsFirst(spec, start, st);
    }
  }

  lemma {:induction false} ExactIsFirst(spec: WheelSpec, start: int, st: Status)
    requires SpecOk(spec) && Exact(spec, start, st)
    ensures FirstSlots(spec, start, st)
  {
    var n := |spec.contexts|;
    if spec.maxRotations > 0 {
      if st.rotations == spec.maxRotations {
        assert st.rotations * n == n * spec.maxRotations;
      } else {
        RotationsBound(n, st.rotations, st.index, spec.maxRotations);
      }
    }
  }

  /** Once idle, a wheel stays as it is. */
  lemma {:induction false} IdleStays(spec: WheelSpec, w: World, events: seq<Event>)
    requires SpecOk(spec) && WheelOk(spec, w.status) && w.status.phase == Idle
    ensures After(spec, w, events).status == w.status
    decreases |events|
  {
    if events != [] {
      IdleStays(spec, Happen(spec, w, events[0]), events[1..]);
    }
  }

  // ---- Slots are recorded once, after completion ----

  /** A reconcile appends at most the active slot, and only when its workflow is Completed. */
  lemma {:induction false} ReconcileRecords(spec: WheelSpec, w: World, c: Calls)
    requires SpecOk(spec) && WheelOk(spec, w.status)
    ensures var p, q := w.status.processed, Reconcile(spec, w, c).status.processed;
      q == p || (q == p + [q[|p|]] && |q| == |p| + 1
                 && q[|p|].workflow in CompletedNames(w) && q[|p|].snapshotId == w.workflows[q[|p|].workflow].snapshotId)
  {
    if Fresh(w.status) {
      var initial := InitialState(spec.start, spec.interval.value, c.now).value;
      var st := ApplyState(w.status, initial, spec.contexts[0]).(phase := Rotating);
      assert StartsAt(spec, initial.slice) && Exact(spec, initial.slice, st);
      RecordsAt(spec, initial.slice, w.(status := st), c);
    } else {
      var start :| StartsAt(spec, start) && Exact(spec, start, w.status);
      RecordsAt(spec, start, w, c);
    }
  }

  lemma {:induction false} RecordsAt(spec: WheelSpec, start: int, w: World, c: Calls)
    requires SpecOk(spec) && Exact(spec, start, w.status)
    ensures var p, q := w.status.processed, ReconcileAt(spec, w, StateFromStatus(w.status), c).status.processed;
      q == p || (q == p + [q[|p|]] && |q| == |p| + 1
                 && q[|p|].workflow in CompletedNames(w) && q[|p|].snapshotId == w.workflows[q[|p|].workflow].snapshotId)
  {
    var s := StateFromStatus(w.status);
    var name := spec.name(spec.contexts[s.index], s.slice);
    if w.status.phase != Idle && name in w.workflows {
      AdvancedIsExact(spec, start, w.status, w.workflows[name], c.now);
    }
  }

  /** Every recorded slot is of a workflow that was seen Completed, and records are never changed. */
  lemma {:induction false} OnlyCompletedIsRecorded(spec: WheelSpec, w: World, events: seq<Event>)
    requires SpecOk(spec) && WheelOk(spec, w.status)
    ensures var p, q := w.status.processed, After(spec, w, events).status.processed;
      p <= q && forall j :: |p| <= j < |q| ==> q[j].workflow in SeenCompleted(spec, w, events)
    decreases |events|
  {
    if events != [] {
      var w' := Happen(spec, w, events[0]);
      if events[0].Reconciled? {
        ReconcileKeepsOk(spec, w, events[0].calls);
        ReconcileRecords(spec, w, events[0].calls);
      }
      OnlyCompletedIsRecorded(spec, w', events[1..]);
    }
  }

  /** With distinct contexts and a positive interval, no slot is recorded twice. */
  lemma {:induction false} SlotsAreDistinct(spec: WheelSpec, start: int, st: Status, i: nat, j: nat)
    requires SpecOk(spec) && Exact(spec, start, st)
    requires Distinct(spec.contexts) && spec.interval.value > 0
    requires i < j < |st.processed|
    ensures (st.processed[i].timeSlice, st.processed[i].context) != (st.processed[j].timeSlice, st.processed[j].context)
  {
    assert SlotIs(spec, start, i, st.processed[i]) && SlotIs(spec, start, j, st.processed[j]);
    PlacesApart(spec, start, i, j);
  }

  lemma {:induction false} PlacesApart(spec: WheelSpec, start: int, i: nat, j: nat)
    requires SpecOk(spec) && Distinct(spec.contexts) && spec.interval.value > 0 && i < j
    ensures SliceAt(spec, start, i) != SliceAt(spec, start, j) || ContextAt(spec, i) != ContextAt(spec, j)
  {
    var n := |spec.contexts|;
    if i % n == j % n {
      QuotientsApart(i, j, n);
      MulLess(i / n, j / n, spec.interval.value);
    } else {
      ContextsApart(spec.contexts, i % n, j % n);
    }
  }

  lemma {:induction false} QuotientsApart(i: nat, j: nat, n: nat)
    requires i < j && n > 0 && i % n == j % n
    ensures i / n < j / n
  {
    assert i == n * (i / n) + i % n && j == n * (j / n) + j % n;
  }

  lemma {:induction false} ContextsApart(contexts: seq<string>, a: nat, b: nat)
    requires Distinct(contexts) && a < |contexts| && b < |contexts| && a != b
    ensures contexts[a] != contexts[b]
  {
  }

  // ---- Progress ----

  predicate NoFailures(c: Calls) {
    !c.initWriteFails && !c.contextReadFails && !c.universeFails && !c.workflowReadFails && !c.createFails
    && !c.nextFails && !c.writeFails
  }

  ghost function ActiveName(spec: WheelSpec, st: Status): string
    requires SpecOk(spec) && 0 <= st.index < |spec.contexts|
  {
    spec.name(spec.contexts[st.index], StateFromStatus(st).slice)
  }

  /** When the active workflow completes, the next undisturbed reconcile records exactly its slot. */
  lemma {:induction false} CompletionAdvances(spec: WheelSpec, start: int, w: World, wf: Workflow, c: Calls)
    requires SpecOk(spec) && Exact(spec, start, w.status) && w.status.phase != Idle
    requires wf.phase == Completed && NoFailures(c)
    ensures var events := [WorkflowSet(ActiveName(spec, w.status), wf), Reconciled(c)];
      var w' := After(spec, w, events);
      Exact(spec, start, w'.status) && |w'.status.processed| == |w.status.processed| + 1
      && w'.status.processed[|w.status.processed|].snapshotId == wf.snapshotId
  {
    var name := ActiveName(spec, w.status);
    var events := [WorkflowSet(name, wf), Reconciled(c)];
    var w1 := Happen(spec, w, events[0]);
    assert events[1..] == [Reconciled(c)] && events[1..][1..] == [];
    assert After(spec, w, events) == After(spec, w1, events[1..]) == After(spec, Happen(spec, w1, events[1]), []);
    AdvancedIsExact(spec, start, w1.status, wf, c.now);
  }

  /** The position a reconcile works at: the persisted one, or the initial one. */
  ghost function PositionAt(spec: WheelSpec, w: World, c: Calls): State
    requires SpecOk(spec)
  {
    if w.status.timeSlice.Some? then StateFromStatus(w.status) else InitialState(spec.start, spec.interval.value, c.now).value
  }

  /** The reconcile meets the active workflow Completed, and none of the calls that it then needs fails. */
  ghost predicate Ready(spec: WheelSpec, w: World, c: Calls)
    requires SpecOk(spec)
  {
    var s := PositionAt(spec, w, c);
    && !c.contextReadFails && !c.universeFails && !c.workflowReadFails && !c.writeFails
    && (w.status.timeSlice.None? ==> !c.initWriteFails)
    && 0 <= s.index < |spec.contexts| && spec.name(spec.contexts[s.index], s.slice) in CompletedNames(w)
  }

  /** How many reconciles of the run were ready. */
  ghost function ReadyCount(spec: WheelSpec, w: World, events: seq<Event>): nat
    requires SpecOk(spec)
    decreases |events|
  {
    if events == [] then 0
    else
      (if events[0].Reconciled? && Ready(spec, w, events[0].calls) then 1 else 0)
      + ReadyCount(spec, Happen(spec, w, events[0]), events[1..])
  }

  /** k slots, but no more than n * R of them when R rotations are to be made. */
  ghost function Capped(spec: WheelSpec, k: nat): nat
    requires SpecOk(spec)
  {
    if spec.maxRotations > 0 && k > |spec.contexts| * spec.maxRotations then |spec.contexts| * spec.maxRotations else k
  }

  lemma {:induction false} IdleIsFull(spec: WheelSpec, st: Status)
    requires SpecOk(spec) && WheelOk(spec, st)
    ensures st.phase == Idle <==> spec.maxRotations > 0 && |st.processed| == |spec.contexts| * spec.maxRotations
    ensures spec.maxRotations > 0 ==> |st.processed| <= |spec.contexts| * spec.maxRotations
  {
    if Fresh(st) {
      assert spec.maxRotations > 0 ==> |spec.contexts| * spec.maxRotations > 0;
    } else {
      var start :| StartsAt(spec, start) && Exact(spec, start, st);
      ExactIsFirst(spec, start, st);
    }
  }

  /** A reconcile records a slot exactly when it is ready and the wheel is not idle. */
  lemma {:induction false} ReadyRecords(spec: WheelSpec, w: World, c: Calls)
    requires SpecOk(spec) && WheelOk(spec, w.status)
    ensures |Reconcile(spec, w, c).status.processed| ==
            |w.status.processed| + if Ready(spec, w, c) && w.status.phase != Idle then 1 else 0
  {
    if !Fresh(w.status) {
      var start :| StartsAt(spec, start) && Exact(spec, start, w.status);
    }
  }

  /** Under any events, the slots recorded are as many as there were ready reconciles, up to n * R. */
  lemma {:induction false} RecordsAreReady(spec: WheelSpec, w: World, events: seq<Event>)
    requires SpecOk(spec) && WheelOk(spec, w.status)
    ensures |After(spec, w, events).status.processed| == Capped(spec, |w.status.processed| + ReadyCount(spec, w, events))
    decreases |events|
  {
    IdleIsFull(spec, w.status);
    if events != [] {
      if events[0].Reconciled? {
        ReconcileKeepsOk(spec, w, events[0].calls);
        ReadyRecords(spec, w, events[0].calls);
      }
      var w' := Happen(spec, w, events[0]);
      RecordsAreReady(spec, w', events[1..]);
    }
  }

  /** A new wheel is Idle exactly when n * R reconciles were ready, in whatever events they were embedded. */
  lemma {:induction false} ReachesIdle(spec: WheelSpec, workflows: map<string, Workflow>, events: seq<Event>)
    requires SpecOk(spec)
    ensures var w := World(NEW_STATUS, workflows);
      var st := After(spec, w, events).status;
      && |st.processed| == Capped(spec, ReadyCount(spec, w, events))
      && (st.phase == Idle <==> spec.maxRotations > 0 && ReadyCount(spec, w, events) >= |spec.contexts| * spec.maxRotations)
  {
    var w := World(NEW_STATUS, workflows);
    RunKeepsOk(spec, w, events);
    RecordsAreReady(spec, w, events);
    IdleIsFull(spec, After(spec, w, events).status);
  }

  function Rounds(spec: WheelSpec, w: World, rounds: seq<seq<Event>>): World
    decreases |rounds|
  {
    if rounds == [] then w else Rounds(spec, After(spec, w, rounds[0]), rounds[1..])
  }

  /** In each round, whatever else happens, some undisturbed reconcile meets the active workflow Completed. */
  ghost predicate FairRounds(spec: WheelSpec, w: World, rounds: seq<seq<Event>>)
    requires SpecOk(spec)
    decreases |rounds|
  {
    rounds == [] || (ReadyCount(spec, w, rounds[0]) >= 1 && FairRounds(spec, After(spec, w, rounds[0]), rounds[1..]))
  }

  /** Workflows that keep completing turn the wheel through all its slots, one or more in each round. */
  lemma {:induction false} FairRoundsFinish(spec: WheelSpec, w: World, rounds: seq<seq<Event>>)
    requires SpecOk(spec) && WheelOk(spec, w.status) && FairRounds(spec, w, rounds)
    requires spec.maxRotations > 0 && |w.status.processed| + |rounds| >= |spec.contexts| * spec.maxRotations
    ensures var st := Rounds(spec, w, rounds).status;
      st.phase == Idle && |st.processed| == |spec.contexts| * spec.maxRotations
    decreases |rounds|
  {
    IdleIsFull(spec, w.status);
    if rounds != [] {
      RunKeepsOk(spec, w, rounds[0]);
      RecordsAreReady(spec, w, rounds[0]);
      var w' := After(spec, w, rounds[0]);
      if w.status.phase == Idle {
        IdleRoundsStay(spec, w, rounds);
      } else {
        FairRoundsFinish(spec, w', rounds[1..]);
      }
    }
  }

  lemma {:induction false} IdleRoundsStay(spec: WheelSpec, w: World, rounds: seq<seq<Event>>)
    requires SpecOk(spec) && WheelOk(spec, w.status) && w.status.phase == Idle
    ensures Rounds(spec, w, rounds).status == w.status
    decreases |rounds|
  {
    if rounds != [] {
      IdleStays(spec, w, rounds[0]);
      IdleRoundsStay(spec, After(spec, w, rounds[0]), rounds[1..]);
    }
  }

  /** With pre-provisioning on, the workflow of the next slot exists by the time the wheel gets there. */
  lemma {:induction false} NextIsProvisioned(spec: WheelSpec, start: int, w: World, c: Calls)
    requires SpecOk(spec) && Exact(spec, start, w.status) && w.status.phase != Idle
    requires spec.preProvisionNext && NoFailures(c)
    requires ActiveName(spec, w.status) in CompletedNames(w)
    ensures var w' := Reconcile(spec, w, c);
      Exact(spec, start, w'.status) && ActiveName(spec, w'.status) in w'.workflows
  {
    AdvancedIsExact(spec, start, w.status, w.workflows[ActiveName(spec, w.status)], c.now);
  }

  /** A wheel whose spec is refused never records a slot. */
  lemma {:induction false} RefusedSpecNeverAdvances(spec: WheelSpec, w: World, events: seq<Event>)
    requires !SpecOk(spec) && w.status.timeSlice == None
    ensures var st := After(spec, w, events).status;
      st.processed == w.status.processed && st.timeSlice == None
    decreases |events|
  {
    if events != [] {
      RefusedSpecNeverAdvances(spec, Happen(spec, w, events[0]), events[1..]);
    }
  }
}
