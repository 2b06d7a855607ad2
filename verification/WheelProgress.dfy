/**
Progress of the wheel. It creates the workflows that it waits for, so an environment that completes
whatever workflows exist, and creates none itself, turns it through all its slots.
*/
module WheelProgress {
  import opened Basics
  import opened Aggregation
  import opened Wheel
  import opened WheelTheorems

  /** The workflow name of the j-th slot. */
  ghost function SlotName(spec: WheelSpec, start: int, j: nat): string
    requires SpecOk(spec)
  {
    spec.name(ContextAt(spec, j), SliceAt(spec, start, j))
  }

  /** The active workflow is that of the first slot not processed yet. */
  lemma {:induction false} ActiveIsSlot(spec: WheelSpec, start: int, st: Status)
    requires SpecOk(spec) && Exact(spec, start, st)
    ensures ActiveName(spec, st) == SlotName(spec, start, |st.processed|)
  {
    ActiveSlot(spec, start, st);
  }

  /**
  The specs that are accepted: some context, a readable interval and start, and, where a window is given, as
  many contexts as it has seats. A new wheel with any other spec reports an error, if it can be written.
  */
  lemma {:induction false} AcceptedSpecs(spec: WheelSpec, w: World, c: Calls)
    ensures SpecOk(spec) <==>
            && spec.contexts != [] && spec.interval.Some? && spec.start != Unparsable
            && ((spec.windowDepth == 0 && spec.windowArity == 0)
                || (spec.windowDepth > 0 && spec.windowArity > 0
                    && |spec.contexts| == |SeatLabels(spec.windowDepth, spec.windowArity)|))
    ensures !SpecOk(spec) && w.status.timeSlice.None? ==>
              Reconcile(spec, w, c) == if c.writeFails then w else w.(status := w.status.(phase := Error))
  {
    SeatsAreDistinct(spec.windowDepth, spec.windowArity);
  }

  // ---- What one undisturbed reconcile does ----

  /** At most the workflow of the next slot was added, pending, and only where pre-provisioning is on. */
  ghost predicate MayAddNext(spec: WheelSpec, start: int, j: nat, before: map<string, Workflow>, after: map<string, Workflow>)
    requires SpecOk(spec)
  {
    var next := SlotName(spec, start, j + 1);
    after == if spec.preProvisionNext && next !in before then before[next := Workflow(Pending, "")] else before
  }

  /** The look-ahead is the slot after the active one, whatever the rotation limit. */
  lemma {:induction false} LookaheadIsNext(spec: WheelSpec, start: int, st: Status)
    requires SpecOk(spec) && Exact(spec, start, st) && st.phase != Idle
    ensures var next := AdvanceAfterCompletion(StateFromStatus(st), |spec.contexts|, spec.interval.value, 0);
      && !next.done && 0 <= next.state.index < |spec.contexts|
      && spec.name(spec.contexts[next.state.index], next.state.slice) == SlotName(spec, start, |st.processed| + 1)
  {
    var wf := Workflow(Completed, "");
    AdvancedIsExact(spec, start, st, wf, 0);
    var s := StateFromStatus(st);
    var name := spec.name(spec.contexts[s.index], s.slice);
    ActiveIsSlot(spec, start, Advanced(spec, st.(activeWorkflow := name), s, spec.contexts[s.index], name, wf, 0));
  }

  lemma {:induction false} PreProvisions(spec: WheelSpec, start: int, w: World, c: Calls)
    requires SpecOk(spec) && Exact(spec, start, w.status) && w.status.phase != Idle && NoFailures(c)
    ensures var w' := if spec.preProvisionNext then PreProvisionNext(spec, w, StateFromStatus(w.status), c) else w;
      w'.status == w.status && MayAddNext(spec, start, |w.status.processed|, w.workflows, w'.workflows)
  {
    LookaheadIsNext(spec, start, w.status);
  }

  /**
  An undisturbed reconcile of a wheel that is not idle: the active workflow is created if it is missing;
  if it is there, its phase decides, and no other workflow changes.
  */
  lemma {:induction false} UndisturbedReconcile(spec: WheelSpec, start: int, w: World, c: Calls)
    requires SpecOk(spec) && Exact(spec, start, w.status) && w.status.phase != Idle && NoFailures(c)
    ensures var j := |w.status.processed|;
      var name := SlotName(spec, start, j);
      var w' := Reconcile(spec, w, c);
      if name !in w.workflows then
        w' == World(w.status.(phase := Processing, activeWorkflow := name), w.workflows[name := Workflow(Pending, "")])
      else
        && MayAddNext(spec, start, j, w.workflows, w'.workflows)
        && match w.workflows[name].phase
           case Completed =>
             Exact(spec, start, w'.status)
             && w'.status.processed == w.status.processed
                  + [Slot(SliceAt(spec, start, j), ContextAt(spec, j), name, w.workflows[name].snapshotId, c.now)]
           case Failed => w'.status == w.status.(phase := Error, activeWorkflow := name)
           case _ => w'.status == w.status.(phase := Processing, activeWorkflow := name)
  {
    ActiveSlot(spec, start, w.status);
    PreProvisions(spec, start, w, c);
    var name := SlotName(spec, start, |w.status.processed|);
    if name in w.workflows {
      AdvancedIsExact(spec, start, w.status, w.workflows[name], c.now);
    }
  }

  /**
  What failing calls cost: a failed read leaves the world as it is, and a failed check or creation is
  reported as an error, if that can be written. The position stays.
  */
  lemma {:induction false} FailedCalls(spec: WheelSpec, start: int, w: World, c: Calls)
    requires SpecOk(spec) && Exact(spec, start, w.status) && w.status.phase != Idle
    requires c.contextReadFails || c.universeFails || c.workflowReadFails
             || (c.createFails && SlotName(spec, start, |w.status.processed|) !in w.workflows)
    ensures Reconcile(spec, w, c) ==
            if c.contextReadFails || (!c.universeFails && c.workflowReadFails) || c.writeFails then w
            else w.(status := w.status.(phase := Error))
  {
    ActiveSlot(spec, start, w.status);
  }

  /** Where a new wheel begins: at the given time, or at the last multiple of the interval. */
  ghost predicate Begins(spec: WheelSpec, now: nat, start: int)
    requires SpecOk(spec)
  {
    match spec.start
    case At(t) => start == t
    case FromClock =>
      if spec.interval.value > 0 then start % spec.interval.value == 0 && start <= now < start + spec.interval.value
      else start == now
    case Unparsable => false
  }

  /** The first reconcile of a new wheel goes on from an exact position that it has stored. */
  lemma {:induction false} FirstReconcile(spec: WheelSpec, w: World, c: Calls) returns (start: int, st: Status)
    requires SpecOk(spec) && Fresh(w.status) && !c.initWriteFails
    ensures StartsAt(spec, start) && Begins(spec, c.now, start)
    ensures Exact(spec, start, st) && st.processed == [] && st.phase == Rotating
    ensures Reconcile(spec, w, c) == Reconcile(spec, w.(status := st), c)
  {
    var initial := InitialState(spec.start, spec.interval.value, c.now).value;
    start := initial.slice;
    st := ApplyState(w.status, initial, spec.contexts[0]).(phase := Rotating);
    if spec.start.FromClock? && spec.interval.value > 0 {
      TruncatedIsMultiple(c.now, spec.interval.value);
    }
  }

  lemma {:induction false} TruncatedIsMultiple(now: nat, interval: nat)
    requires interval > 0
    ensures var start := now - now % interval;
      start % interval == 0 && start <= now < start + interval
  {
    var q := now / interval;
    assert now - now % interval == q * interval + 0;
    DivMod(interval, q, 0);
  }

  /** The starts that are possible: the given time, or with a clock any multiple of the interval. */
  lemma {:induction false} PossibleStarts(spec: WheelSpec, start: int)
    requires SpecOk(spec)
    ensures StartsAt(spec, start) <==> exists now: nat :: Begins(spec, now, start)
  {
    if StartsAt(spec, start) {
      var now: nat :| InitialState(spec.start, spec.interval.value, now) == Some(State(start, 0, 0));
      if spec.start.FromClock? && spec.interval.value > 0 {
        TruncatedIsMultiple(now, spec.interval.value);
      }
      assert Begins(spec, now, start);
    }
    if now: nat :| Begins(spec, now, start) {
      if spec.start.FromClock? && spec.interval.value > 0 {
        MultipleIsTruncated(start, now, spec.interval.value);
        assert InitialState(spec.start, spec.interval.value, now) == Some(State(start, 0, 0));
      } else {
        assert InitialState(spec.start, spec.interval.value, now) == Some(State(start, 0, 0));
      }
    }
  }

  lemma {:induction false} MultipleIsTruncated(start: int, now: nat, interval: nat)
    requires interval > 0 && start % interval == 0 && start <= now < start + interval
    ensures now - now % interval == start
  {
    var q := start / interval;
    assert start == q * interval;
    if q < 0 {
      MulNegative(q, interval);
    }
    DivMod(interval, q, now - start);
  }

  lemma {:induction false} MulNegative(q: int, n: nat)
    requires q < 0
    ensures q * n + n <= 0
  {
    var p: int := -q - 1;
    assert p * n >= 0;
    calc {
      q * n + n;
      (q + 1) * n;
      (-p) * n;
      -(p * n);
    }
  }

  // ---- Orderly runs ----

  /** Besides reconciles, which may fail, only workflows that exist are changed, and none is deleted. */
  predicate Orderly(spec: WheelSpec, w: World, events: seq<Event>)
    decreases |events|
  {
    events == [] ||
    (&& (events[0].Reconciled? || (events[0].WorkflowSet? && events[0].name in w.workflows))
     && Orderly(spec, Happen(spec, w, events[0]), events[1..]))
  }

  lemma {:induction false} ReconcileKeepsNames(spec: WheelSpec, w: World, c: Calls)
    ensures w.workflows.Keys <= Reconcile(spec, w, c).workflows.Keys
  {
  }

  /** Either more than k slots are processed, or exactly k and the workflow of the next one exists. */
  ghost predicate OnSlot(spec: WheelSpec, start: int, k: nat, w: World)
    requires SpecOk(spec)
  {
    && Exact(spec, start, w.status)
    && (|w.status.processed| > k || (|w.status.processed| == k && SlotName(spec, start, k) in w.workflows))
  }

  lemma {:induction false} OrderlyStaysOnSlot(spec: WheelSpec, start: int, k: nat, w: World, events: seq<Event>)
    requires SpecOk(spec) && StartsAt(spec, start) && OnSlot(spec, start, k, w) && Orderly(spec, w, events)
    ensures OnSlot(spec, start, k, After(spec, w, events))
    decreases |events|
  {
    if events != [] {
      var w' := Happen(spec, w, events[0]);
      if events[0].Reconciled? {
        var c := events[0].calls;
        ReconcileAtKeepsExact(spec, start, w, c);
        ReadyRecords(spec, w, c);
        ReconcileKeepsNames(spec, w, c);
      }
      OrderlyStaysOnSlot(spec, start, k, w', events[1..]);
    }
  }

  ghost predicate AllCompleted(w: World) {
    forall name :: name in w.workflows ==> w.workflows[name].phase == Completed
  }

  /** A wheel on a slot whose workflows are all completed records one in its next undisturbed reconcile. */
  lemma {:induction false} CompletedSlotRecords(spec: WheelSpec, start: int, k: nat, w: World, c: Calls)
    requires SpecOk(spec) && StartsAt(spec, start) && OnSlot(spec, start, k, w) && AllCompleted(w) && NoFailures(c)
    requires w.status.phase != Idle
    ensures |Reconcile(spec, w, c).status.processed| > k
  {
    ReadyRecords(spec, w, c);
    ActiveIsSlot(spec, start, w.status);
  }

  /** After an undisturbed reconcile, the wheel is on its next slot: it has recorded one or waits for its workflow. */
  lemma {:induction false} ReconcileTakesSlot(spec: WheelSpec, w: World, c: Calls) returns (start: int)
    requires SpecOk(spec) && WheelOk(spec, w.status) && w.status.phase != Idle && NoFailures(c)
    ensures StartsAt(spec, start) && OnSlot(spec, start, |w.status.processed|, Reconcile(spec, w, c))
  {
    if Fresh(w.status) {
      var st;
      start, st := FirstReconcile(spec, w, c);
      TakesSlotAt(spec, start, w.(status := st), c);
    } else {
      start :| StartsAt(spec, start) && Exact(spec, start, w.status);
      TakesSlotAt(spec, start, w, c);
    }
  }

  lemma {:induction false} TakesSlotAt(spec: WheelSpec, start: int, w: World, c: Calls)
    requires SpecOk(spec) && Exact(spec, start, w.status) && w.status.phase != Idle && NoFailures(c)
    ensures OnSlot(spec, start, |w.status.processed|, Reconcile(spec, w, c))
  {
    UndisturbedReconcile(spec, start, w, c);
    ReconcileAtKeepsExact(spec, start, w, c);
    ReconcileKeepsNames(spec, w, c);
  }

  // ---- Rounds ----

  /** An undisturbed reconcile, then orderly events that leave every workflow completed, and another one. */
  datatype Round = Round(first: Calls, events: seq<Event>, last: Calls)

  function AfterRound(spec: WheelSpec, w: World, r: Round): World {
    Reconcile(spec, After(spec, Reconcile(spec, w, r.first), r.events), r.last)
  }

  function AfterRounds(spec: WheelSpec, w: World, rounds: seq<Round>): World
    decreases |rounds|
  {
    if rounds == [] then w else AfterRounds(spec, AfterRound(spec, w, rounds[0]), rounds[1..])
  }

  ghost predicate GoodRound(spec: WheelSpec, w: World, r: Round) {
    && NoFailures(r.first) && NoFailures(r.last)
    && var w1 := Reconcile(spec, w, r.first);
    Orderly(spec, w1, r.events) && AllCompleted(After(spec, w1, r.events))
  }

  ghost predicate GoodRounds(spec: WheelSpec, w: World, rounds: seq<Round>)
    decreases |rounds|
  {
    rounds == [] || (GoodRound(spec, w, rounds[0]) && GoodRounds(spec, AfterRound(spec, w, rounds[0]), rounds[1..]))
  }

  /** A round is a run, so it keeps the wheel exact and loses no record. */
  lemma {:induction false} RoundIsRun(spec: WheelSpec, w: World, r: Round)
    requires SpecOk(spec) && WheelOk(spec, w.status)
    ensures WheelOk(spec, AfterRound(spec, w, r).status)
    ensures w.status.phase == Idle ==> AfterRound(spec, w, r).status == w.status
  {
    var w1 := Reconcile(spec, w, r.first);
    var w2 := After(spec, w1, r.events);
    ReconcileKeepsOk(spec, w, r.first);
    RunKeepsOk(spec, w1, r.events);
    ReconcileKeepsOk(spec, w2, r.last);
    if w.status.phase == Idle {
      IdleStays(spec, w1, r.events);
    }
  }

  /** Each good round of a wheel that is not idle records at least one slot. */
  lemma {:induction false} RoundRecords(spec: WheelSpec, w: World, r: Round)
    requires SpecOk(spec) && WheelOk(spec, w.status) && w.status.phase != Idle && GoodRound(spec, w, r)
    ensures |AfterRound(spec, w, r).status.processed| > |w.status.processed|
  {
    var k := |w.status.processed|;
    var w1 := Reconcile(spec, w, r.first);
    var w2 := After(spec, w1, r.events);
    var start := ReconcileTakesSlot(spec, w, r.first);
    OrderlyStaysOnSlot(spec, start, k, w1, r.events);
    if w2.status.phase == Idle {
      IdleIsFull(spec, w2.status);
      IdleIsFull(spec, w.status);
    } else {
      CompletedSlotRecords(spec, start, k, w2, r.last);
    }
  }

  /** Good rounds turn the wheel through all its slots, whatever workflows there are at the beginning. */
  lemma {:induction false} GoodRoundsFinish(spec: WheelSpec, w: World, rounds: seq<Round>)
    requires SpecOk(spec) && WheelOk(spec, w.status) && GoodRounds(spec, w, rounds)
    requires spec.maxRotations > 0 && |w.status.processed| + |rounds| >= |spec.contexts| * spec.maxRotations
    ensures var st := AfterRounds(spec, w, rounds).status;
      st.phase == Idle && |st.processed| == |spec.contexts| * spec.maxRotations
    decreases |rounds|
  {
    IdleIsFull(spec, w.status);
    if rounds != [] {
      var w' := AfterRound(spec, w, rounds[0]);
      RoundIsRun(spec, w, rounds[0]);
      if w.status.phase == Idle {
        assert w'.status == w.status;
        IdleThroughRounds(spec, w, rounds);
      } else {
        RoundRecords(spec, w, rounds[0]);
        GoodRoundsFinish(spec, w', rounds[1..]);
      }
    }
  }

  lemma {:induction false} IdleThroughRounds(spec: WheelSpec, w: World, rounds: seq<Round>)
    requires SpecOk(spec) && WheelOk(spec, w.status) && w.status.phase == Idle
    ensures AfterRounds(spec, w, rounds).status == w.status
    decreases |rounds|
  {
    if rounds != [] {
      RoundIsRun(spec, w, rounds[0]);
      IdleThroughRounds(spec, AfterRound(spec, w, rounds[0]), rounds[1..]);
    }
  }

  /** In particular from a new wheel in a world without workflows. */
  lemma {:induction false} NewWheelFinishes(spec: WheelSpec, rounds: seq<Round>)
    requires SpecOk(spec) && spec.maxRotations > 0
    requires GoodRounds(spec, World(NEW_STATUS, map[]), rounds) && |rounds| >= |spec.contexts| * spec.maxRotations
    ensures var w := AfterRounds(spec, World(NEW_STATUS, map[]), rounds);
      w.status.phase == Idle && |w.status.processed| == |spec.contexts| * spec.maxRotations
  {
    GoodRoundsFinish(spec, World(NEW_STATUS, map[]), rounds);
  }

  // ---- The reported status ----

  /** The status names the context of the position, and while Processing its workflow; idle, it names none. */
  predicate Coherent(spec: WheelSpec, st: Status) {
    st.timeSlice.Some? ==>
      && 0 <= st.index < |spec.contexts|
      && st.activeContext == (if st.phase == Idle then "" else spec.contexts[st.index])
      && (st.phase == Idle ==> st.activeWorkflow == "")
      && (st.phase == Processing ==> st.activeWorkflow == spec.name(spec.contexts[st.index], st.timeSlice.value))
  }

  lemma {:induction false} ReconcileKeepsCoherent(spec: WheelSpec, w: World, c: Calls)
    requires SpecOk(spec) && WheelOk(spec, w.status) && Coherent(spec, w.status)
    ensures Coherent(spec, Reconcile(spec, w, c).status)
  {
    if Fresh(w.status) {
      if !c.initWriteFails {
        var initial := InitialState(spec.start, spec.interval.value, c.now).value;
        CoherentAt(spec, w.(status := ApplyState(w.status, initial, spec.contexts[0]).(phase := Rotating)), c);
      }
    } else {
      CoherentAt(spec, w, c);
    }
  }

  lemma {:induction false} CoherentAt(spec: WheelSpec, w: World, c: Calls)
    requires SpecOk(spec) && w.status.timeSlice.Some? && Coherent(spec, w.status)
    requires w.status.phase == Idle ==> spec.maxRotations > 0 && w.status.rotations >= spec.maxRotations
    ensures Coherent(spec, ReconcileAt(spec, w, StateFromStatus(w.status), c).status)
  {
    var s := StateFromStatus(w.status);
    var name := spec.name(spec.contexts[s.index], s.slice);
    if w.status.phase != Idle && name in w.workflows {
      AdvancedIsCoherent(spec, w.status.(activeWorkflow := name), name, w.workflows[name], c.now);
    }
  }

  lemma {:induction false} AdvancedIsCoherent(spec: WheelSpec, st: Status, name: string, wf: Workflow, now: nat)
    requires SpecOk(spec) && st.timeSlice.Some? && 0 <= st.index < |spec.contexts|
    ensures var s := StateFromStatus(st);
      Coherent(spec, Advanced(spec, st, s, spec.contexts[s.index], name, wf, now))
  {
  }

  /** Under any events and failures, from a new wheel. */
  lemma {:induction false} StatusIsCoherent(spec: WheelSpec, w: World, events: seq<Event>)
    requires SpecOk(spec) && WheelOk(spec, w.status) && Coherent(spec, w.status)
    ensures Coherent(spec, After(spec, w, events).status)
    decreases |events|
  {
    if events != [] {
      if events[0].Reconciled? {
        ReconcileKeepsOk(spec, w, events[0].calls);
        ReconcileKeepsCoherent(spec, w, events[0].calls);
      }
      StatusIsCoherent(spec, Happen(spec, w, events[0]), events[1..]);
    }
  }
}
