/** Both backends answer every sequence of calls alike: as the one abstract store does. */
module StoreRefinement {
  import opened Basics
  import opened Runtime
  import opened StoreModel
  import opened Spine
  import opened Workflows
  import opened EngineSpec
  import opened MemoTransparency
  import opened Pinning
  import opened SqlBackend
  import opened FileBackend

  /** A backend call. createdAt and stamp are the two clock readings that the file backend makes. */
  datatype Call =
    | CallSaveSnapshot(id: string, snapshot: SnapshotRow)
    | CallSaveResult(row: ReplayRow, createdAt: nat, stamp: nat)
    | CallGetSnapshot(id: string)
    | CallGetSnapshotData(id: string)
    | CallLookupMemo(key: MemoKey)
    | CallGetLatestResult(id: string, dominoId: string)
    | CallListReplay(id: string)

  datatype Answer =
    | Saved(err: Option<Fault>)
    | GotSnapshot(snapshot: Option<SnapshotRow>)
    | GotData(data: Option<(string, bool)>)
    | GotMemo(memo: Option<MemoValue>)
    | GotLatest(latest: Option<(string, MemoValue)>)
    | GotRows(rows: seq<ReplayRow>)

  function AnswerOf(st: Store, call: Call): Answer {
    match call
    case CallSaveSnapshot(id, row) => Saved(FaultOf(SaveSnapshot(st, id, row)))
    case CallSaveResult(row, _, _) => Saved(FaultOf(SaveResult(st, row)))
    case CallGetSnapshot(id) => GotSnapshot(GetSnapshot(st, id))
    case CallGetSnapshotData(id) => GotData(SnapshotData(st, id))
    case CallLookupMemo(key) => GotMemo(LookupMemo(st, key))
    case CallGetLatestResult(id, dominoId) => GotLatest(LatestFields(st, id, dominoId))
    case CallListReplay(id) => GotRows(Rows(st, id))
  }

  function StateAfter(st: Store, call: Call): Store {
    match call
    case CallSaveSnapshot(id, row) => Apply(st, PutSnapshot(id, row))
    case CallSaveResult(row, _, _) => Apply(st, PutResult(row))
    case _ => st
  }

  function Answers(st: Store, calls: seq<Call>): seq<Answer>
    decreases |calls|
  {
    if calls == [] then [] else [AnswerOf(st, calls[0])] + Answers(StateAfter(st, calls[0]), calls[1..])
  }

  function StateAfterAll(st: Store, calls: seq<Call>): Store
    decreases |calls|
  {
    if calls == [] then st else StateAfterAll(StateAfter(st, calls[0]), calls[1..])
  }

  /** Hex snapshot IDs, domino names that are file names, input hashes of 8 characters or more. */
  predicate IsFileCall(call: Call) {
    match call
    case CallSaveSnapshot(id, _) => IsHex(id)
    case CallSaveResult(row, _, _) => IsFileKey(row.Key())
    case CallGetSnapshot(id) => IsHex(id)
    case CallGetSnapshotData(id) => IsHex(id)
    case CallLookupMemo(key) => IsFileKey(key)
    case CallGetLatestResult(_, _) => true
    case CallListReplay(_) => true
  }

  /** The clock readings of the calls, in order, strictly increase. */
  predicate ClockIncreases(clock: nat, calls: seq<Call>)
    decreases |calls|
  {
    calls == [] ||
    (if calls[0].CallSaveResult?
     then clock < calls[0].createdAt < calls[0].stamp && ClockIncreases(calls[0].stamp, calls[1..])
     else ClockIncreases(clock, calls[1..]))
  }

  method AskSql(s: SqlStore, call: Call) returns (answer: Answer)
    requires s.Valid()
    modifies s
    ensures s.Valid()
    ensures answer == AnswerOf(old(s.State()), call) && s.State() == StateAfter(old(s.State()), call)
  {
    match call
    case CallSaveSnapshot(id, row) => var e := s.SaveSnapshot(id, row); answer := Saved(e);
    case CallSaveResult(row, _, _) => var e := s.SaveResult(row); answer := Saved(e);
    case CallGetSnapshot(id) => var r := s.GetSnapshot(id); answer := GotSnapshot(r);
    case CallGetSnapshotData(id) => var r := s.GetSnapshotData(id); answer := GotData(r);
    case CallLookupMemo(key) => var r := s.LookupMemo(key); answer := GotMemo(r);
    case CallGetLatestResult(id, dominoId) => var r := s.GetLatestResult(id, dominoId); answer := GotLatest(r);
    case CallListReplay(id) => var r := s.ListReplay(id); answer := GotRows(r);
  }

  method AskFiles(f: FileStore, call: Call) returns (answer: Answer)
    requires f.Valid() && IsFileCall(call)
    requires call.CallSaveResult? ==> f.clock < call.createdAt < call.stamp
    modifies f
    ensures f.Valid()
    ensures answer == AnswerOf(old(f.state), call) && f.state == StateAfter(old(f.state), call)
    ensures f.clock <= if call.CallSaveResult? then call.stamp else old(f.clock)
  {
    match call
    case CallSaveSnapshot(id, row) => var e := f.SaveSnapshot(id, row); answer := Saved(e);
    case CallSaveResult(row, createdAt, stamp) => var e := f.SaveResult(row, createdAt, stamp); answer := Saved(e);
    case CallGetSnapshot(id) => var r := f.GetSnapshot(id); answer := GotSnapshot(r);
    case CallGetSnapshotData(id) => var r := f.GetSnapshotData(id); answer := GotData(r);
    case CallLookupMemo(key) => var r := f.LookupMemo(key); answer := GotMemo(r);
    case CallGetLatestResult(id, dominoId) => var r := f.GetLatestResult(id, dominoId); answer := GotLatest(r);
    case CallListReplay(id) => var r := f.ListReplay(id); answer := GotRows(r);
  }

  lemma {:induction false} ClockMayLag(a: nat, b: nat, calls: seq<Call>)
    requires a <= b && ClockIncreases(b, calls)
    ensures ClockIncreases(a, calls)
    decreases |calls|
  {
    if calls != [] && !calls[0].CallSaveResult? {
      ClockMayLag(a, b, calls[1..]);
    }
  }

  lemma {:induction false} AnswersAt(st: Store, calls: seq<Call>, i: nat)
    requires i < |calls|
    ensures Answers(st, calls[..i + 1]) == Answers(st, calls[..i]) + [AnswerOf(StateAfterAll(st, calls[..i]), calls[i])]
    ensures StateAfterAll(st, calls[..i + 1]) == StateAfter(StateAfterAll(st, calls[..i]), calls[i])
    decreases |calls|
  {
    if i == 0 {
      assert calls[..1] == [calls[0]] && calls[..1][1..] == [];
    } else {
      AnswersAt(StateAfter(st, calls[0]), calls[1..], i - 1);
      assert calls[..i + 1][1..] == calls[1..][..i];
      assert calls[..i][1..] == calls[1..][..i - 1];
    }
  }

  /** The two backends, given the same calls, give the same answers. */
  method Compare(s: SqlStore, f: FileStore, calls: seq<Call>) returns (a: seq<Answer>, b: seq<Answer>)
    requires s.Valid() && f.Valid() && s.State() == f.state
    requires forall c :: c in calls ==> IsFileCall(c)
    requires ClockIncreases(f.clock, calls)
    modifies s, f
    ensures a == b == Answers(old(s.State()), calls)
    ensures s.Valid() && f.Valid() && s.State() == f.state == StateAfterAll(old(s.State()), calls)
  {
    ghost var start := s.State();
    a, b := [], [];
    for i := 0 to |calls|
      invariant s.Valid() && f.Valid()
      invariant s.State() == f.state == StateAfterAll(start, calls[..i])
      invariant a == b == Answers(start, calls[..i])
      invariant ClockIncreases(f.clock, calls[i..])
    {
      var x := AskSql(s, calls[i]);
      assert calls[i..][1..] == calls[i + 1..];
      ghost var before := f.clock;
      var y := AskFiles(f, calls[i]);
      ClockMayLag(f.clock, if calls[i].CallSaveResult? then calls[i].stamp else before, calls[i + 1..]);
      AnswersAt(start, calls, i);
      a, b := a + [x], b + [y];
    }
    assert calls[..|calls|] == calls;
  }

  // ---- Runs fit the file backend ----

  lemma {:induction false} TraceFits(rt: Runtime, wf: Workflow, id: string, v: Json, names: seq<string>, outputs: map<string, string>, prev: string, rows: seq<ReplayRow>)
    requires DigestLaws(rt) && id != "" && IsHex(id) && forall n :: n in names ==> IsPlainName(n)
    requires IsTrace(rt, wf, id, v, names, outputs, prev, rows)
    ensures forall r :: r in rows ==> IsFileKey(r.Key())
    decreases |rows|
  {
    if rows != [] {
      assert rows == [rows[0]] + rows[1..];
      assert names[0] in names && IsHex(rows[0].inputHash);
      TraceFits(rt, wf, id, v, names[1..], outputs[names[0] := rows[0].output], rows[0].link, rows[1..]);
    }
  }

  lemma {:induction false} ContentIdIsHex(rt: Runtime, st: Store, snap: Snapshot)
    requires DigestLaws(rt) && Prepare(rt, st, snap).Success?
    ensures var id := Prepare(rt, st, snap).value.id;
      id != "" && IsHex(id)
  {
    var c := Prepare(rt, st, snap).value;
    SnapshotIdIsHex(rt, snap.timeSlice, c.value);
  }

  lemma {:induction false} SnapshotIdIsHex(rt: Runtime, timeSlice: string, v: Json)
    requires DigestLaws(rt)
    ensures var id := SnapshotId(rt, timeSlice, v);
      id != "" && IsHex(id)
  {
    SnapshotIdLength(rt, timeSlice, v);
    var text := rt.digest(rt.marshal(Obj(map["timeSlice" := Str(timeSlice), "data" := v])));
    assert SnapshotId(rt, timeSlice, v) == text[..SNAPSHOT_ID_HEX_LEN];
    assert forall c :: c in text[..SNAPSHOT_ID_HEX_LEN] ==> c in text;
  }

  /** With plain domino names, everything that a run writes is within what Compare asks for. */
  lemma {:induction false} RunFits(rt: Runtime, ticks: nat, st: Store, wf: Workflow)
    requires JsonLaws(rt) && DigestLaws(rt) && Run(rt, ticks, st, wf).result.Success?
    requires forall n :: n in wf.chain ==> IsPlainName(n)
    ensures var r := Run(rt, ticks, st, wf).result.value;
      IsHex(r.snapshotId) && forall e :: e in r.entries ==> IsFileKey(e.Key())
  {
    RunEstablishes(rt, ticks, st, wf);
    var c := RunContent(rt, st, wf);
    ContentIdIsHex(rt, st, wf.snapshot);
    TraceFits(rt, wf, c.id, c.value, wf.chain, map[], c.id, Run(rt, ticks, st, wf).result.value.entries);
  }
}
