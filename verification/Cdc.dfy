/** Change-data-capture: envelopes exported from one store and applied, perhaps redelivered, to another. */
module Cdc {
  import opened Basics
  import opened StoreModel
  import opened SqlBackend

  datatype SnapshotImage = SnapshotImage(snapshotId: string, timeSlice: string, data: string, sealed: bool)

  datatype ResultImage = ResultImage(
    snapshotId: string, dominoId: string, inputHash: string, outputHash: string, output: string, reused: bool)

  /** An after image is known by what decoding it as each of the two row types gives; None is a decoding error. */
  datatype After = Missing | Image(asSnapshot: Option<SnapshotImage>, asResult: Option<ResultImage>)

  datatype Envelope = Envelope(op: string, table: string, after: After)

  const OP_CREATE := "c"
  const OP_DELETE := "d"
  const TABLE_SNAPSHOTS := "snapshots"
  const TABLE_DOMINO_RESULTS := "domino_results"

  /** JSON decoding ignores unknown fields and zeroes missing ones. */
  function SnapshotAfter(row: SnapshotImage): After {
    Image(Some(row), Some(ResultImage(row.snapshotId, "", "", "", "", false)))
  }

  function ResultAfter(row: ResultImage): After {
    Image(Some(SnapshotImage(row.snapshotId, "", "", false)), Some(row))
  }

  function DecodeSnapshot(after: After): Result<SnapshotImage> {
    if after.Missing? then Failure(MissingAfter)
    else if after.asSnapshot.None? then Failure(MalformedAfter)
    else Success(after.asSnapshot.value)
  }

  function DecodeResult(after: After): Result<ResultImage> {
    if after.Missing? then Failure(MissingAfter)
    else if after.asResult.None? then Failure(MalformedAfter)
    else Success(after.asResult.value)
  }

  function ImageRow(row: ResultImage): ReplayRow {
    ReplayRow(row.snapshotId, row.dominoId, row.inputHash, row.outputHash, row.output, row.reused, "", "")
  }

  predicate IsSealed(st: Store, id: string) {
    var row := GetSnapshot(st, id);
    row.Some? && row.value.sealed
  }

  // ---- Applying one envelope ----

  function ApplySnapshot(target: Store, env: Envelope): Result<Store> {
    if env.op == OP_DELETE then Success(target)
    else
      var row := DecodeSnapshot(env.after);
      if row.Failure? then Failure(row.fault)
      else if !row.value.sealed then Failure(UnsealedRow)
      else SaveSnapshot(target, row.value.snapshotId, SnapshotRow(row.value.timeSlice, row.value.data, true))
  }

  function ApplyDominoResult(target: Store, env: Envelope): Result<Store> {
    if env.op == OP_DELETE then Success(target)
    else
      var row := DecodeResult(env.after);
      if row.Failure? then Failure(row.fault)
      else if !IsSealed(target, row.value.snapshotId) then Failure(OrphanResult)
      else SaveResult(target, ImageRow(row.value))
  }

  function ApplyEnvelope(target: Store, env: Envelope): Result<Store> {
    if env.table == TABLE_SNAPSHOTS then ApplySnapshot(target, env)
    else if env.table == TABLE_DOMINO_RESULTS then ApplyDominoResult(target, env)
    else Failure(UnsupportedTable)
  }

  predicate Matches(id: string, env: Envelope) {
    if env.table == TABLE_SNAPSHOTS then
      DecodeSnapshot(env.after).Success? && DecodeSnapshot(env.after).value.snapshotId == id
    else if env.table == TABLE_DOMINO_RESULTS then
      DecodeResult(env.after).Success? && DecodeResult(env.after).value.snapshotId == id
    else false
  }

  // ---- Applying a batch ----

  /** The variables of the loop in ApplyAll. The domino count is the number of dominos seen. */
  datatype Sync = Sync(target: Store, snapshotApplied: bool, seen: set<string>, fault: Option<Fault>)

  function SyncStep(s: Sync, id: string, env: Envelope): Sync {
    if !Matches(id, env) then s
    else
      var applied := ApplyEnvelope(s.target, env);
      if applied.Failure? then s.(fault := Some(applied.fault))
      else if env.table == TABLE_SNAPSHOTS then s.(target := applied.value, snapshotApplied := true)
      else s.(target := applied.value, seen := s.seen + {DecodeResult(env.after).value.dominoId})
  }

  function SyncAll(s: Sync, id: string, envs: seq<Envelope>): Sync
    decreases |envs|
  {
    if envs == [] || s.fault.Some? then s else SyncAll(SyncStep(s, id, envs[0]), id, envs[1..])
  }

  function ApplyBatch(target: Store, id: string, envs: seq<Envelope>): Sync {
    SyncAll(Sync(target, false, {}, None), id, envs)
  }

  predicate IsComplete(s: Sync, required: nat) {
    s.snapshotApplied && (required == 0 || |s.seen| >= required)
  }

  function SyncFromConsumer(target: Store, id: string, consumed: Result<seq<Envelope>>, chain: seq<string>): Sync {
    if consumed.Failure? then Sync(target, false, {}, Some(consumed.fault))
    else
      var s := ApplyBatch(target, id, consumed.value);
      if s.fault.Some? || IsComplete(s, |chain|) then s else s.(fault := Some(IncompleteSync))
  }

  // ---- The methods ----

  method ApplyTo(target: SqlStore, env: Envelope) returns (fault: Option<Fault>)
    requires target.Valid()
    modifies target
    ensures target.Valid()
    ensures fault == FaultOf(ApplyEnvelope(old(target.State()), env))
    ensures target.State() == Committed(old(target.State()), ApplyEnvelope(old(target.State()), env))
  {
    if env.table == TABLE_SNAPSHOTS {
      if env.op == OP_DELETE {
        return None;
      }
      var row := DecodeSnapshot(env.after);
      if row.Failure? {
        return Some(row.fault);
      }
      if !row.value.sealed {
        return Some(UnsealedRow);
      }
      fault := target.SaveSnapshot(row.value.snapshotId, SnapshotRow(row.value.timeSlice, row.value.data, true));
    } else if env.table == TABLE_DOMINO_RESULTS {
      if env.op == OP_DELETE {
        return None;
      }
      var row := DecodeResult(env.after);
      if row.Failure? {
        return Some(row.fault);
      }
      var parent := target.GetSnapshot(row.value.snapshotId);
      if parent.None? || !parent.value.sealed {
        return Some(OrphanResult);
      }
      fault := target.SaveResult(ImageRow(row.value));
    } else {
      fault := Some(UnsupportedTable);
    }
  }

  method ApplyAllTo(target: SqlStore, id: string, envs: seq<Envelope>)
    returns (snapshotApplied: bool, dominoCount: nat, fault: Option<Fault>, ghost seen: set<string>)
    requires target.Valid()
    modifies target
    ensures target.Valid() && dominoCount == |seen|
    ensures Sync(target.State(), snapshotApplied, seen, fault) == ApplyBatch(old(target.State()), id, envs)
  {
    snapshotApplied, dominoCount, fault := false, 0, None;
    var seenDominos: set<string> := {};
    seen := {};
    ghost var start := Sync(target.State(), false, {}, None);
    for i := 0 to |envs|
      invariant target.Valid() && fault.None? && dominoCount == |seenDominos| && seen == seenDominos
      invariant SyncAll(start, id, envs) == SyncAll(Sync(target.State(), snapshotApplied, seenDominos, None), id, envs[i..])
    {
      assert envs[i..][1..] == envs[i + 1..];
      var env := envs[i];
      if !Matches(id, env) {
        continue;
      }
      fault := ApplyTo(target, env);
      if fault.Some? {
        return;
      }
      if env.table == TABLE_SNAPSHOTS {
        snapshotApplied := true;
      } else {
        var domino := DecodeResult(env.after).value.dominoId;
        if domino in seenDominos {
          assert seenDominos + {domino} == seenDominos;
        } else {
          seenDominos := seenDominos + {domino};
          dominoCount := dominoCount + 1;
          seen := seenDominos;
        }
      }
    }
  }

  method SyncConsumer(target: SqlStore, id: string, consumed: Result<seq<Envelope>>, chain: seq<string>) returns (fault: Option<Fault>)
    requires target.Valid()
    modifies target
    ensures target.Valid()
    ensures var s := SyncFromConsumer(old(target.State()), id, consumed, chain);
      fault == s.fault && target.State() == s.target
  {
    if consumed.Failure? {
      return Some(consumed.fault);
    }
    var applied, count, err, _ := ApplyAllTo(target, id, consumed.value);
    if err.Some? {
      return err;
    }
    if !(applied && (|chain| == 0 || count >= |chain|)) {
      return Some(IncompleteSync);
    }
    return None;
  }

  // ---- Export ----

  function ResultEnvelope(id: string, dominoId: string, latest: (string, MemoValue)): Envelope {
    Envelope(OP_CREATE, TABLE_DOMINO_RESULTS,
             ResultAfter(ResultImage(id, dominoId, latest.0, latest.1.outputHash, latest.1.output, false)))
  }

  function SnapshotEnvelope(id: string, row: SnapshotRow): Envelope {
    Envelope(OP_CREATE, TABLE_SNAPSHOTS, SnapshotAfter(SnapshotImage(id, row.timeSlice, row.data, row.sealed)))
  }

  function ExportResults(source: Store, id: string, chain: seq<string>): Result<seq<Envelope>> {
    if chain == [] then Success([])
    else
      var n := |chain| - 1;
      var before := ExportResults(source, id, chain[..n]);
      var latest := LatestFields(source, id, chain[n]);
      if before.Failure? then before
      else if latest.None? then Failure(NotFound)
      else Success(before.value + [ResultEnvelope(id, chain[n], latest.value)])
  }

  function Export(source: Store, id: string, chain: seq<string>): Result<seq<Envelope>> {
    var row := GetSnapshot(source, id);
    if row.None? then Failure(NotFound)
    else if !row.value.sealed then Failure(NotSealed)
    else
      var results := ExportResults(source, id, chain);
      if results.Failure? then results else Success([SnapshotEnvelope(id, row.value)] + results.value)
  }

  method ExportFromStore(source: SqlStore, id: string, chain: seq<string>) returns (out: Result<seq<Envelope>>)
    requires source.Valid()
    ensures out == Export(source.State(), id, chain)
  {
    var row := source.GetSnapshot(id);
    if row.None? {
      return Failure(NotFound);
    }
    if !row.value.sealed {
      return Failure(NotSealed);
    }
    var envs := [SnapshotEnvelope(id, row.value)];
    ghost var results: seq<Envelope> := [];
    for i := 0 to |chain|
      invariant envs == [SnapshotEnvelope(id, row.value)] + results
      invariant ExportResults(source.State(), id, chain[..i]) == Success(results)
    {
      assert chain[..i + 1][..i] == chain[..i];
      var latest := source.GetLatestResult(id, chain[i]);
      if latest.None? {
        ExportFails(source.State(), id, chain, i + 1);
        return Failure(NotFound);
      }
      envs := envs + [ResultEnvelope(id, chain[i], latest.value)];
      results := results + [ResultEnvelope(id, chain[i], latest.value)];
    }
    assert chain[..|chain|] == chain;
    return Success(envs);
  }

  lemma {:induction false} ExportFails(source: Store, id: string, chain: seq<string>, n: nat)
    requires n <= |chain| && ExportResults(source, id, chain[..n]) == Failure(NotFound)
    ensures ExportResults(source, id, chain) == Failure(NotFound)
    decreases |chain| - n
  {
    if n == |chain| {
      assert chain[..n] == chain;
    } else {
      assert chain[..n + 1][..n] == chain[..n];
      ExportFails(source, id, chain, n + 1);
    }
  }
}

module CdcTheorems {
  import opened Basics
  import opened Runtime
  import opened StoreModel
  import opened Workflows
  import opened EngineSpec
  import opened Pinning
  import opened Replica
  import opened Cdc

  // ---- Safety ----

  /** Nothing unsealed was replicated, and nothing without a sealed parent. */
  ghost predicate Safe(st: Store) {
    && (forall id :: id in st.snapshots ==> st.snapshots[id].sealed)
    && (forall k :: k in st.memo ==> IsSealed(st, k.snapshotId))
    && (forall i :: 0 <= i < |st.log| ==> IsSealed(st, st.log[i].snapshotId))
  }

  lemma {:induction false} ApplyKeepsSafe(target: Store, env: Envelope)
    requires Safe(target)
    ensures Safe(Committed(target, ApplyEnvelope(target, env)))
  {
    var st := Committed(target, ApplyEnvelope(target, env));
    assert forall id :: IsSealed(target, id) ==> IsSealed(st, id);
  }

  lemma {:induction false} SyncKeepsSafe(s: Sync, id: string, envs: seq<Envelope>)
    requires Safe(s.target)
    ensures Safe(SyncAll(s, id, envs).target)
    decreases |envs|
  {
    if envs != [] && s.fault.None? {
      ApplyKeepsSafe(s.target, envs[0]);
      SyncKeepsSafe(SyncStep(s, id, envs[0]), id, envs[1..]);
    }
  }

  /** Batches in any order, for any snapshots, accepted or rejected midway. */
  function ApplyBatches(st: Store, batches: seq<(string, seq<Envelope>)>): Store
    decreases |batches|
  {
    if batches == [] then st else ApplyBatches(ApplyBatch(st, batches[0].0, batches[0].1).target, batches[1..])
  }

  lemma {:induction false} BatchesKeepSafe(st: Store, batches: seq<(string, seq<Envelope>)>)
    requires Safe(st)
    ensures Safe(ApplyBatches(st, batches))
    decreases |batches|
  {
    if batches != [] {
      SyncKeepsSafe(Sync(st, false, {}, None), batches[0].0, batches[0].1);
      BatchesKeepSafe(ApplyBatch(st, batches[0].0, batches[0].1).target, batches[1..]);
    }
  }

  /** CDC safety, from an empty target. */
  lemma {:induction false} EveryTargetIsSafe(batches: seq<(string, seq<Envelope>)>)
    ensures Safe(ApplyBatches(EMPTY, batches))
  {
    BatchesKeepSafe(EMPTY, batches);
  }

  // ---- Redelivery ----

  ghost predicate SameTables(a: Store, b: Store) {
    a.snapshots == b.snapshots && a.memo == b.memo
  }

  /** Applying the envelope is accepted and changes neither snapshots nor memo. */
  ghost predicate Absorbs(st: Store, env: Envelope) {
    ApplyEnvelope(st, env).Success? && SameTables(ApplyEnvelope(st, env).value, st)
  }

  /** Tables only grow: sealed snapshots and memo entries stay. */
  ghost predicate Grows(a: Store, b: Store) {
    && (forall id :: IsSealed(a, id) ==> id in b.snapshots && b.snapshots[id] == a.snapshots[id])
    && (forall k :: k in a.memo ==> k in b.memo && b.memo[k] == a.memo[k])
  }

  lemma {:induction false} AppliedIsAbsorbed(st: Store, env: Envelope, later: Store)
    requires ApplyEnvelope(st, env).Success? && Grows(ApplyEnvelope(st, env).value, later)
    ensures Absorbs(later, env)
  {
    var next := ApplyEnvelope(st, env).value;
    if env.op != OP_DELETE {
      if env.table == TABLE_SNAPSHOTS {
        var row := DecodeSnapshot(env.after).value;
        assert IsSealed(next, row.snapshotId);
      } else {
        var row := ImageRow(DecodeResult(env.after).value);
        assert IsSealed(next, row.snapshotId);
        if !row.reused {
          assert later.memo[row.Key() := row.Value()] == later.memo;
        }
      }
    }
  }

  lemma {:induction false} SyncGrows(s: Sync, id: string, envs: seq<Envelope>)
    ensures Grows(s.target, SyncAll(s, id, envs).target)
    decreases |envs|
  {
    if envs != [] && s.fault.None? {
      SyncGrows(SyncStep(s, id, envs[0]), id, envs[1..]);
    }
  }

  /** Every matching envelope of an accepted batch is absorbed by the store that the batch leaves, and by any later one. */
  lemma {:induction false} AcceptedIsAbsorbed(s: Sync, id: string, envs: seq<Envelope>, later: Store)
    requires SyncAll(s, id, envs).fault.None? && Grows(SyncAll(s, id, envs).target, later)
    ensures forall i :: 0 <= i < |envs| && Matches(id, envs[i]) ==> Absorbs(later, envs[i])
    decreases |envs|
  {
    if envs != [] {
      var next, rest := SyncStep(s, id, envs[0]), envs[1..];
      SyncFaultStays(next, id, rest);
      AcceptedIsAbsorbed(next, id, rest, later);
      SyncGrows(next, id, rest);
      if Matches(id, envs[0]) {
        GrowsTwice(next.target, SyncAll(s, id, envs).target, later);
        AppliedIsAbsorbed(s.target, envs[0], later);
      }
      forall i | 0 < i < |envs| ensures envs[i] == rest[i - 1] {}
    }
  }

  lemma {:induction false} GrowsTwice(a: Store, b: Store, c: Store)
    requires Grows(a, b) && Grows(b, c)
    ensures Grows(a, c)
  {
    assert forall id :: IsSealed(a, id) ==> IsSealed(b, id);
  }

  lemma {:induction false} SyncFaultStays(s: Sync, id: string, envs: seq<Envelope>)
    ensures s.fault.Some? ==> SyncAll(s, id, envs).fault.Some?
  {
  }

  lemma {:induction false} AbsorbsByTables(a: Store, b: Store, env: Envelope)
    requires SameTables(a, b) && Absorbs(a, env)
    ensures Absorbs(b, env)
  {
  }

  lemma {:induction false} AbsorbedBatch(s: Sync, id: string, envs: seq<Envelope>)
    requires s.fault.None?
    requires forall i :: 0 <= i < |envs| && Matches(id, envs[i]) ==> Absorbs(s.target, envs[i])
    ensures SyncAll(s, id, envs).fault.None? && SameTables(SyncAll(s, id, envs).target, s.target)
    decreases |envs|
  {
    if envs != [] {
      var next := SyncStep(s, id, envs[0]);
      assert Matches(id, envs[0]) ==> Absorbs(s.target, envs[0]);
      forall i | 0 <= i < |envs[1..]| && Matches(id, envs[1..][i])
        ensures Absorbs(next.target, envs[1..][i])
      {
        assert Absorbs(s.target, envs[i + 1]);
        AbsorbsByTables(s.target, next.target, envs[i + 1]);
      }
      AbsorbedBatch(next, id, envs[1..]);
    }
  }

  /**
  Redelivery, at once or after any further writes: a batch that was accepted is accepted again and
  changes neither snapshots nor memo.
  */
  lemma {:induction false} RedeliveryIsAbsorbed(target: Store, id: string, envs: seq<Envelope>, since: seq<Op>)
    requires ApplyBatch(target, id, envs).fault.None?
    ensures var later := ApplyAll(ApplyBatch(target, id, envs).target, since);
      var again := ApplyBatch(later, id, envs);
      again.fault.None? && SameTables(again.target, later)
  {
    var once := ApplyBatch(target, id, envs).target;
    var later := ApplyAll(once, since);
    HistoryExtends(once, since);
    assert Grows(once, later);
    AcceptedIsAbsorbed(Sync(target, false, {}, None), id, envs, later);
    AbsorbedBatch(Sync(later, false, {}, None), id, envs);
  }

  // ---- Completeness ----

  predicate HasResult(st: Store, id: string, dominoId: string) {
    LatestResult(st, id, dominoId).Some?
  }

  /** The snapshot is sealed on the target and every domino of the chain has a stored result. */
  ghost predicate Complete(st: Store, id: string, chain: seq<string>) {
    IsSealed(st, id) && forall d :: d in chain ==> HasResult(st, id, d)
  }

  predicate WritesSnapshot(id: string, env: Envelope) {
    env.table == TABLE_SNAPSHOTS && env.op != OP_DELETE && Matches(id, env)
  }

  predicate WritesResult(id: string, dominoId: string, env: Envelope) {
    env.table == TABLE_DOMINO_RESULTS && env.op != OP_DELETE && Matches(id, env)
    && DecodeResult(env.after).value.dominoId == dominoId
  }

  predicate NamesDomino(id: string, dominoId: string, env: Envelope) {
    env.table == TABLE_DOMINO_RESULTS && Matches(id, env) && DecodeResult(env.after).value.dominoId == dominoId
  }

  /** Before the call: every missing piece is written, not deleted, by some envelope. */
  ghost predicate Provided(target: Store, id: string, envs: seq<Envelope>, chain: seq<string>) {
    && (IsSealed(target, id) || exists i :: 0 <= i < |envs| && WritesSnapshot(id, envs[i]))
    && forall d :: d in chain ==> HasResult(target, id, d) || exists i :: 0 <= i < |envs| && WritesResult(id, d, envs[i])
  }

  lemma {:induction false} StepEffect(s: Sync, id: string, env: Envelope, d: string)
    requires s.fault.None? && SyncStep(s, id, env).fault.None?
    ensures var t := SyncStep(s, id, env).target;
      && (IsSealed(t, id) <==> IsSealed(s.target, id) || WritesSnapshot(id, env))
      && (HasResult(t, id, d) <==> HasResult(s.target, id, d) || WritesResult(id, d, env))
  {
    var t := SyncStep(s, id, env).target;
    if Matches(id, env) && env.table == TABLE_DOMINO_RESULTS && env.op != OP_DELETE {
      var row := ImageRow(DecodeResult(env.after).value);
      assert t.log == s.target.log + [row] && row.snapshotId == id;
      RowsAppend(s.target, t, [row], id, id);
      LastRowAppend(Rows(s.target, id), [row], d);
      assert LastRow([row], d) == if row.dominoId == d then Some(row) else None by {
        assert [row][..0] == [];
      }
    } else {
      assert t.log == s.target.log;
    }
  }

  lemma {:induction false} BatchEffect(s: Sync, id: string, envs: seq<Envelope>, d: string)
    requires s.fault.None? && SyncAll(s, id, envs).fault.None?
    ensures var t := SyncAll(s, id, envs).target;
      && (IsSealed(t, id) <==> IsSealed(s.target, id) || exists i :: 0 <= i < |envs| && WritesSnapshot(id, envs[i]))
      && (HasResult(t, id, d) <==> HasResult(s.target, id, d) || exists i :: 0 <= i < |envs| && WritesResult(id, d, envs[i]))
    decreases |envs|
  {
    if envs != [] {
      var next, rest := SyncStep(s, id, envs[0]), envs[1..];
      SyncFaultStays(next, id, rest);
      StepEffect(s, id, envs[0], d);
      BatchEffect(next, id, rest, d);
      assert forall i :: 0 <= i < |rest| ==> rest[i] == envs[i + 1];
      assert forall i :: 0 < i < |envs| ==> envs[i] == rest[i - 1];
    }
  }

  /** What the accepted batch reported as progress. */
  lemma {:induction false} BatchProgress(s: Sync, id: string, envs: seq<Envelope>, d: string)
    requires s.fault.None? && SyncAll(s, id, envs).fault.None?
    ensures var t := SyncAll(s, id, envs);
      && (d in t.seen <==> d in s.seen || exists i :: 0 <= i < |envs| && NamesDomino(id, d, envs[i]))
      && (t.snapshotApplied <==> s.snapshotApplied || exists i :: 0 <= i < |envs| && envs[i].table == TABLE_SNAPSHOTS && Matches(id, envs[i]))
    decreases |envs|
  {
    if envs != [] {
      var next, rest := SyncStep(s, id, envs[0]), envs[1..];
      SyncFaultStays(next, id, rest);
      StepProgress(s, id, envs[0], d);
      BatchProgress(next, id, rest, d);
      assert forall i :: 0 <= i < |rest| ==> rest[i] == envs[i + 1];
      assert forall i :: 0 < i < |envs| ==> envs[i] == rest[i - 1];
    }
  }

  lemma {:induction false} StepProgress(s: Sync, id: string, env: Envelope, d: string)
    requires s.fault.None? && SyncStep(s, id, env).fault.None?
    ensures var t := SyncStep(s, id, env);
      && (d in t.seen <==> d in s.seen || NamesDomino(id, d, env))
      && (t.snapshotApplied <==> s.snapshotApplied || (env.table == TABLE_SNAPSHOTS && Matches(id, env)))
  {
  }

  /** Sync reports success exactly to the truth when every missing piece was provided. */
  lemma {:induction false} SyncIsCompleteIff(target: Store, id: string, envs: seq<Envelope>, chain: seq<string>)
    requires SyncFromConsumer(target, id, Success(envs), chain).fault.None?
    ensures Complete(SyncFromConsumer(target, id, Success(envs), chain).target, id, chain) <==> Provided(target, id, envs, chain)
  {
    var s := Sync(target, false, {}, None);
    BatchEffect(s, id, envs, "");
    forall d | d in chain
      ensures HasResult(SyncAll(s, id, envs).target, id, d) <==>
              HasResult(target, id, d) || exists i :: 0 <= i < |envs| && WritesResult(id, d, envs[i])
    {
      BatchEffect(s, id, envs, d);
    }
  }

  /** No delete carries an after image for this snapshot. */
  predicate NoDeleteImages(id: string, envs: seq<Envelope>) {
    forall i :: 0 <= i < |envs| && Matches(id, envs[i]) ==> envs[i].op != OP_DELETE
  }

  /** Result envelopes for this snapshot name only dominos of the chain. */
  predicate OnlyChain(id: string, envs: seq<Envelope>, chain: seq<string>) {
    forall i :: 0 <= i < |envs| && envs[i].table == TABLE_DOMINO_RESULTS && Matches(id, envs[i]) ==>
      DecodeResult(envs[i].after).value.dominoId in chain
  }

  /** Completeness by pigeonhole: as many distinct dominos as the chain is long are all of the chain. */
  lemma {:induction false} SyncIsComplete(target: Store, id: string, envs: seq<Envelope>, chain: seq<string>)
    requires NoDeleteImages(id, envs) && OnlyChain(id, envs, chain)
    requires SyncFromConsumer(target, id, Success(envs), chain).fault.None?
    ensures Complete(SyncFromConsumer(target, id, Success(envs), chain).target, id, chain)
  {
    var s := Sync(target, false, {}, None);
    var t := SyncAll(s, id, envs);
    BatchEffect(s, id, envs, "");
    BatchProgress(s, id, envs, "");
    assert IsSealed(t.target, id) by {
      var i :| 0 <= i < |envs| && envs[i].table == TABLE_SNAPSHOTS && Matches(id, envs[i]);
      assert WritesSnapshot(id, envs[i]);
    }
    forall d | d in t.seen
      ensures d in Elements(chain)
    {
      BatchProgress(s, id, envs, d);
    }
    DistinctCardinality(chain);
    SubsetCardinality(t.seen, Elements(chain));
    forall d | d in chain
      ensures HasResult(t.target, id, d)
    {
      assert |chain| > 0 && t.seen == Elements(chain);
      assert d in t.seen;
      BatchProgress(s, id, envs, d);
      BatchEffect(s, id, envs, d);
      var i :| 0 <= i < |envs| && NamesDomino(id, d, envs[i]);
      assert WritesResult(id, d, envs[i]);
    }
  }

  /** A delete that carries an after image counts as applied although it writes nothing. */
  lemma {:induction false} DeleteImageMisleads(id: string)
    ensures var env := Envelope(OP_DELETE, TABLE_SNAPSHOTS, SnapshotAfter(SnapshotImage(id, "t", "{}", true)));
      var s := SyncFromConsumer(EMPTY, id, Success([env]), []);
      s.fault.None? && !IsSealed(s.target, id)
  {
    var env := Envelope(OP_DELETE, TABLE_SNAPSHOTS, SnapshotAfter(SnapshotImage(id, "t", "{}", true)));
    var start := Sync(EMPTY, false, {}, None);
    assert [env][1..] == [];
    assert SyncAll(start, id, [env]) == SyncAll(SyncStep(start, id, env), id, []) == Sync(EMPTY, true, {}, None);
  }

  /** A result of a domino outside the chain is counted in place of a missing one. */
  lemma {:induction false} ForeignDominoMisleads(id: string, a: string, b: string)
    requires a != b
    ensures var first := SnapshotEnvelope(id, SnapshotRow("t", "{}", true));
      var second := ResultEnvelope(id, b, ("in", MemoValue("out", "{}")));
      var s := SyncFromConsumer(EMPTY, id, Success([first, second]), [a]);
      s.fault.None? && !HasResult(s.target, id, a)
  {
    var first := SnapshotEnvelope(id, SnapshotRow("t", "{}", true));
    var second := ResultEnvelope(id, b, ("in", MemoValue("out", "{}")));
    var envs := [first, second];
    var start := Sync(EMPTY, false, {}, None);
    var one := SyncStep(start, id, first);
    var two := SyncStep(one, id, second);
    assert envs[1..] == [second] && envs[1..][1..] == [];
    assert SyncAll(start, id, envs) == SyncAll(one, id, envs[1..]) == SyncAll(two, id, []) == two;
    StepEffect(start, id, first, a);
    StepEffect(one, id, second, a);
    assert Rows(EMPTY, id) == [];
    assert two.seen == {b};
  }

  // ---- Equivalence ----

  /** Result envelopes of known rows, applied in order, put these rows in the memo. */
  lemma {:induction false} ResultsCarry(s: Sync, id: string, envs: seq<Envelope>, entries: seq<ReplayRow>)
    requires s.fault.None? && |envs| == |entries|
    requires forall i :: 0 <= i < |entries| ==>
      entries[i].snapshotId == id && envs[i] == ResultEnvelope(id, entries[i].dominoId, (entries[i].inputHash, entries[i].Value()))
    ensures var t := SyncAll(s, id, envs);
      t.fault.None? ==> Covers(t.target.memo, entries) && Grows(s.target, t.target)
    decreases |envs|
  {
    if envs != [] {
      var t := SyncAll(s, id, envs);
      var next := SyncStep(s, id, envs[0]);
      SyncGrows(s, id, envs);
      if t.fault.None? {
        SyncFaultStays(next, id, envs[1..]);
        SyncGrows(next, id, envs[1..]);
        ResultsCarry(next, id, envs[1..], entries[1..]);
        assert MemoHas(next.target.memo, entries[0]);
        assert entries == [entries[0]] + entries[1..];
      }
    } else {
      SyncGrows(s, id, envs);
    }
  }

  lemma {:induction false} ExportOfRun(source: Store, id: string, chain: seq<string>, entries: seq<ReplayRow>)
    requires |entries| == |chain|
    requires forall i :: 0 <= i < |chain| ==>
      entries[i].dominoId == chain[i] && LatestResult(source, id, chain[i]) == Some(entries[i])
    ensures var e := ExportResults(source, id, chain);
      && e.Success? && |e.value| == |entries|
      && forall i :: 0 <= i < |entries| ==>
           e.value[i] == ResultEnvelope(id, entries[i].dominoId, (entries[i].inputHash, entries[i].Value()))
    decreases |chain|
  {
    if chain != [] {
      ExportOfRun(source, id, chain[..|chain| - 1], entries[..|chain| - 1]);
    }
  }

  lemma {:induction false} ExportSucceeds(rt: Runtime, ticks: nat, st: Store, wf: Workflow, ops: seq<Op>)
    requires JsonLaws(rt) && DigestLaws(rt)
    requires Run(rt, ticks, st, wf).result.Success?
    requires Avoids(ops, Run(rt, ticks, st, wf).result.value.snapshotId)
    ensures var r := Run(rt, ticks, st, wf).result.value;
      var source := ApplyAll(Run(rt, ticks, st, wf).store, ops);
      var results := ExportResults(source, r.snapshotId, wf.chain);
      && results.Success? && |results.value| == |r.entries|
      && Export(source, r.snapshotId, wf.chain) == Success([SnapshotEnvelope(r.snapshotId,
           SnapshotRow(wf.snapshot.timeSlice, RunContent(rt, st, wf).data, true))] + results.value)
      && forall i :: 0 <= i < |r.entries| ==>
           r.entries[i].snapshotId == r.snapshotId && results.value[i] == ResultEnvelope(r.snapshotId, r.entries[i].dominoId, (r.entries[i].inputHash, r.entries[i].Value()))
  {
    var o := Run(rt, ticks, st, wf);
    var r := o.result.value;
    var source := ApplyAll(o.store, ops);
    RunEstablishes(rt, ticks, st, wf);
    HistoryExtends(o.store, ops);
    assert GetSnapshot(source, r.snapshotId) == Some(SnapshotRow(wf.snapshot.timeSlice, RunContent(rt, st, wf).data, true));
    TraceVerifies(rt, wf, r.snapshotId, RunContent(rt, st, wf).value, wf.chain, map[], r.snapshotId, r.entries);
    forall i | 0 <= i < |wf.chain|
      ensures LatestResult(source, r.snapshotId, wf.chain[i]) == Some(r.entries[i])
    {
      LastRowsAreEntries(rt, ticks, st, wf, ops, i);
    }
    ExportOfRun(source, r.snapshotId, wf.chain, r.entries);
  }

  /** A batch of a sealed snapshot and its results leaves a target that carries them. */
  lemma {:induction false} BatchCarries(target: Store, id: string, row: SnapshotRow, results: seq<Envelope>, entries: seq<ReplayRow>)
    requires row.sealed && |results| == |entries|
    requires forall i :: 0 <= i < |entries| ==>
      entries[i].snapshotId == id && results[i] == ResultEnvelope(id, entries[i].dominoId, (entries[i].inputHash, entries[i].Value()))
    ensures var s := ApplyBatch(target, id, [SnapshotEnvelope(id, row)] + results);
      s.fault.None? ==> Carries(s.target, id, row, entries)
  {
    var envs := [SnapshotEnvelope(id, row)] + results;
    var start := Sync(target, false, {}, None);
    var first := SyncStep(start, id, envs[0]);
    assert envs[1..] == results;
    SyncFaultStays(first, id, results);
    if SyncAll(start, id, envs).fault.None? {
      assert IsSealed(first.target, id) && first.target.snapshots[id] == row;
      ResultsCarry(first, id, results, entries);
    }
  }

  /**
  CDC equivalence: the source ran wf last for its snapshot. Then the export succeeds, and once a
  target has accepted the batch, a run of wf on it replays with zero evaluations and the same links.
  */
  lemma {:induction false} SyncedRunReplays(rt: Runtime, ticks: nat, st: Store, wf: Workflow, ops: seq<Op>, target: Store, rt2: Runtime, ticks2: nat)
    requires JsonLaws(rt) && DigestLaws(rt) && SourceStable(rt, rt2, wf.snapshot)
    requires Run(rt, ticks, st, wf).result.Success?
    requires Avoids(ops, Run(rt, ticks, st, wf).result.value.snapshotId)
    ensures var o := Run(rt, ticks, st, wf);
      var r := o.result.value;
      var exported := Export(ApplyAll(o.store, ops), r.snapshotId, wf.chain);
      && exported.Success? && r.entries != []
      && var s := ApplyBatch(target, r.snapshotId, exported.value);
      s.fault.None? ==> Run(rt2, ticks2, s.target, wf) == ReplayOutcome(ticks2, s.target, r.snapshotId, r.entries)
  {
    var o := Run(rt, ticks, st, wf);
    var r := o.result.value;
    var source := ApplyAll(o.store, ops);
    RunEstablishes(rt, ticks, st, wf);
    ExportSucceeds(rt, ticks, st, wf, ops);
    var row := SnapshotRow(wf.snapshot.timeSlice, RunContent(rt, st, wf).data, true);
    var results := ExportResults(source, r.snapshotId, wf.chain).value;
    BatchCarries(target, r.snapshotId, row, results, r.entries);
    var s := ApplyBatch(target, r.snapshotId, [SnapshotEnvelope(r.snapshotId, row)] + results);
    if s.fault.None? {
      RunOnCarrier(rt, ticks, st, wf, rt2, ticks2, s.target);
    }
  }
}
