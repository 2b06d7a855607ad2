/**
A whole transfer by change-data-capture, from export to sync, for any source and target. It succeeds
where Materialize does, and leaves the same results.
*/
module Transfer {
  import opened Basics
  import opened StoreModel
  import opened Replica
  import opened Cdc

  // ---- The export ----

  /** The source has the snapshot sealed and a result of every domino. */
  ghost predicate Exportable(source: Store, id: string, chain: seq<string>) {
    IsSealed(source, id) && forall d :: d in chain ==> LatestResult(source, id, d).Some?
  }

  /** The envelopes carry the latest results, in the order of the chain. */
  ghost predicate CarryLatest(source: Store, id: string, chain: seq<string>, envs: seq<Envelope>) {
    && |envs| == |chain|
    && forall i :: 0 <= i < |chain| ==>
         LatestFields(source, id, chain[i]).Some? && envs[i] == ResultEnvelope(id, chain[i], LatestFields(source, id, chain[i]).value)
  }

  lemma {:induction false} ExportResultsIff(source: Store, id: string, chain: seq<string>)
    ensures var e := ExportResults(source, id, chain);
      && (e.Success? <==> forall d :: d in chain ==> LatestResult(source, id, d).Some?)
      && (if e.Success? then CarryLatest(source, id, chain, e.value) else e == Failure(NotFound))
    decreases |chain|
  {
    if chain != [] {
      var n := |chain| - 1;
      ExportResultsIff(source, id, chain[..n]);
      assert chain == chain[..n] + [chain[n]];
    }
  }

  /** The export succeeds exactly when nothing is missing: the snapshot first, then one envelope for each domino. */
  lemma {:induction false} ExportSucceedsIff(source: Store, id: string, chain: seq<string>)
    ensures var e := Export(source, id, chain);
      && (e.Success? <==> Exportable(source, id, chain))
      && (e.Success? ==>
            && e.value == [SnapshotEnvelope(id, GetSnapshot(source, id).value)] + e.value[1..]
            && CarryLatest(source, id, chain, e.value[1..]))
  {
    ExportResultsIff(source, id, chain);
  }

  // ---- Applying the results ----

  /** The rows that result envelopes write: the fields of the copied rows without their links. */
  ghost function ImageRows(id: string, rows: seq<ReplayRow>, chain: seq<string>): seq<ReplayRow>
    requires forall d :: d in chain ==> LastRow(rows, d).Some?
  {
    seq(|chain|, i requires 0 <= i < |chain| =>
      assert chain[i] in chain;
      var row := LastRow(rows, chain[i]).value;
      ReplayRow(id, chain[i], row.inputHash, row.outputHash, row.output, false, "", ""))
  }

  lemma {:induction false} LastImageRow(id: string, rows: seq<ReplayRow>, chain: seq<string>, d: string)
    requires forall e :: e in chain ==> LastRow(rows, e).Some?
    requires d in chain
    ensures var row := LastRow(rows, d).value;
      LastRow(ImageRows(id, rows, chain), d) == Some(ReplayRow(id, d, row.inputHash, row.outputHash, row.output, false, "", ""))
    decreases |chain|
  {
    var n := |chain| - 1;
    var images, init := ImageRows(id, rows, chain), chain[..n];
    assert chain[n] in chain && chain == init + [chain[n]];
    assert images[..n] == ImageRows(id, rows, init);
    if chain[n] != d {
      LastImageRow(id, rows, init, d);
    }
  }

  /** One result envelope on a target that has the snapshot: accepted exactly when its domino is copyable. */
  lemma {:induction false} ResultApplies(target: Store, id: string, rows: seq<ReplayRow>, d: string)
    requires IsSealed(target, id) && LastRow(rows, d).Some? && LastRow(rows, d).value.snapshotId == id
    ensures var row := LastRow(rows, d).value;
      var env := ResultEnvelope(id, d, (row.inputHash, row.Value()));
      && Matches(id, env) && env.table == TABLE_DOMINO_RESULTS && DecodeResult(env.after).value.dominoId == d
      && ApplyEnvelope(target, env) ==
         if !Copyable(target.memo, rows, d) then Failure(MemoConflict)
         else Success(Store(target.snapshots, target.memo[row.Key() := row.Value()],
                            target.log + [ReplayRow(id, d, row.inputHash, row.outputHash, row.output, false, "", "")]))
  {
  }

  /** The envelopes of a list of dominos. */
  ghost predicate AreResults(id: string, rows: seq<ReplayRow>, chain: seq<string>, envs: seq<Envelope>) {
    && |envs| == |chain|
    && (forall d :: d in chain ==> LastRow(rows, d).Some? && LastRow(rows, d).value.snapshotId == id)
    && forall i :: 0 <= i < |chain| ==> IsResult(id, rows, chain[i], envs[i])
  }

  ghost predicate IsResult(id: string, rows: seq<ReplayRow>, d: string, env: Envelope) {
    var row := LastRow(rows, d);
    row.Some? && env == ResultEnvelope(id, d, (row.value.inputHash, row.value.Value()))
  }

  /** After the results: all of them are in, or the first one that is not copyable was refused. */
  ghost predicate Synced(s: Sync, id: string, rows: seq<ReplayRow>, chain: seq<string>, t: Sync)
    requires forall d :: d in chain ==> LastRow(rows, d).Some?
  {
    && (t.fault.None? <==> AllCopyable(s.target.memo, rows, chain))
    && (t.fault.None? ==>
          && t.target.snapshots == s.target.snapshots && t.target.log == s.target.log + ImageRows(id, rows, chain)
          && t.seen == s.seen + Elements(chain) && t.snapshotApplied == s.snapshotApplied)
  }

  lemma {:induction false} ResultsSync(s: Sync, id: string, rows: seq<ReplayRow>, chain: seq<string>, envs: seq<Envelope>)
    requires s.fault.None? && IsSealed(s.target, id) && AreResults(id, rows, chain, envs)
    ensures Synced(s, id, rows, chain, SyncAll(s, id, envs))
    decreases |chain|
  {
    if chain != [] {
      var d, rest := chain[0], chain[1..];
      assert d in chain && IsResult(id, rows, d, envs[0]);
      ResultApplies(s.target, id, rows, d);
      var next := SyncStep(s, id, envs[0]);
      assert SyncAll(s, id, envs) == SyncAll(next, id, envs[1..]);
      if Copyable(s.target.memo, rows, d) {
        RestAreResults(id, rows, chain, envs);
        ResultsSync(next, id, rows, rest, envs[1..]);
        SyncedCons(s, id, rows, chain, next, SyncAll(next, id, envs[1..]));
      }
    }
  }

  lemma {:induction false} RestAreResults(id: string, rows: seq<ReplayRow>, chain: seq<string>, envs: seq<Envelope>)
    requires chain != [] && AreResults(id, rows, chain, envs)
    ensures AreResults(id, rows, chain[1..], envs[1..])
  {
    forall i | 0 <= i < |chain[1..]|
      ensures IsResult(id, rows, chain[1..][i], envs[1..][i])
    {
      assert IsResult(id, rows, chain[i + 1], envs[i + 1]);
    }
  }

  lemma {:induction false} SyncedCons(s: Sync, id: string, rows: seq<ReplayRow>, chain: seq<string>, next: Sync, t: Sync)
    requires chain != [] && Copyable(s.target.memo, rows, chain[0]) && forall d :: d in chain ==> LastRow(rows, d).Some?
    requires var row := LastRow(rows, chain[0]).value;
      && next.target == Store(s.target.snapshots, s.target.memo[row.Key() := row.Value()],
                              s.target.log + [ReplayRow(id, chain[0], row.inputHash, row.outputHash, row.output, false, "", "")])
      && next.seen == s.seen + {chain[0]} && next.snapshotApplied == s.snapshotApplied
    requires Synced(next, id, rows, chain[1..], t)
    ensures Synced(s, id, rows, chain, t)
  {
    var rest := chain[1..];
    assert chain == [chain[0]] + rest;
    forall d
      ensures Copyable(next.target.memo, rows, d) <==> Copyable(s.target.memo, rows, d)
    {
      CopyableStays(s.target.memo, rows, chain[0], d);
    }
    assert AllCopyable(s.target.memo, rows, chain) <==> AllCopyable(next.target.memo, rows, rest);
    if t.fault.None? {
      var images := ImageRows(id, rows, chain);
      assert images == [images[0]] + ImageRows(id, rows, rest);
      AppendAssociates(s.target.log, [images[0]], ImageRows(id, rows, rest));
      assert Elements(chain) == {chain[0]} + Elements(rest);
    }
  }

  // ---- The whole transfer ----

  function TransferAll(source: Store, target: Store, id: string, chain: seq<string>): Sync {
    SyncFromConsumer(target, id, Export(source, id, chain), chain)
  }

  lemma {:induction false} ExportedAreResults(source: Store, id: string, chain: seq<string>, envs: seq<Envelope>)
    requires CarryLatest(source, id, chain, envs)
    ensures AreResults(id, Rows(source, id), chain, envs)
  {
    var rows := Rows(source, id);
    FilterMembers((r: ReplayRow) => r.snapshotId == id, source.log);
    forall i | 0 <= i < |chain|
      ensures IsResult(id, rows, chain[i], envs[i])
    {
    }
    forall d | d in chain
      ensures LastRow(rows, d).Some? && LastRow(rows, d).value.snapshotId == id
    {
      var i :| 0 <= i < |chain| && chain[i] == d;
      assert LatestFields(source, id, chain[i]).Some?;
      assert LastRow(rows, d).value in rows;
    }
  }

  /** What the exported batch does to a target. */
  lemma {:induction false} BatchApplies(source: Store, target: Store, id: string, chain: seq<string>)
    requires Exportable(source, id, chain)
    ensures var rows := Rows(source, id);
      var row := GetSnapshot(source, id).value;
      var e := Export(source, id, chain);
      && e.Success?
      && var t := ApplyBatch(target, id, e.value);
      && (t.fault.None? <==> !RefusesSealedMutation(GetSnapshot(target, id), row) && AllCopyable(target.memo, rows, chain))
      && (t.fault.None? ==>
            && t.snapshotApplied && t.seen == Elements(chain)
            && GetSnapshot(t.target, id) == Some(row) && t.target.log == target.log + ImageRows(id, rows, chain))
  {
    var rows, row := Rows(source, id), GetSnapshot(source, id).value;
    var start := Sync(target, false, {}, None);
    ExportSucceedsIff(source, id, chain);
    var envs := Export(source, id, chain).value;
    ExportedAreResults(source, id, chain, envs[1..]);
    var first := SyncStep(start, id, envs[0]);
    assert SyncAll(start, id, envs) == SyncAll(first, id, envs[1..]);
    if !RefusesSealedMutation(GetSnapshot(target, id), row) {
      assert GetSnapshot(first.target, id) == Some(row);
      ResultsSync(first, id, rows, chain, envs[1..]);
    }
  }

  /**
  For any source, target and chain: the transfer succeeds exactly when nothing is missing on the source,
  nothing on the target contradicts it, and the chain names no domino twice, since dominos are counted.
  */
  lemma {:induction false} TransferSucceedsIff(source: Store, target: Store, id: string, chain: seq<string>)
    ensures TransferAll(source, target, id, chain).fault.None? <==>
            && Exportable(source, id, chain) && Distinct(chain)
            && !RefusesSealedMutation(GetSnapshot(target, id), GetSnapshot(source, id).value)
            && AllCopyable(target.memo, Rows(source, id), chain)
  {
    ExportSucceedsIff(source, id, chain);
    if Exportable(source, id, chain) {
      BatchApplies(source, target, id, chain);
      DistinctCardinality(chain);
    }
  }

  /** So for chains of distinct names it succeeds exactly when Materialize does. */
  lemma {:induction false} TransferAgreesWithCopy(source: Store, target: Store, id: string, chain: seq<string>)
    requires id != "" && Distinct(chain)
    ensures TransferAll(source, target, id, chain).fault.None? <==> Materialize(source, target, id, chain).fault.None?
  {
    TransferSucceedsIff(source, target, id, chain);
    CopySucceedsIff(source, target, id, chain);
  }

  /** A transfer that succeeded is complete: the sealed snapshot, and for each domino the latest result of the source. */
  lemma {:induction false} TransferIsComplete(source: Store, target: Store, id: string, chain: seq<string>)
    requires TransferAll(source, target, id, chain).fault.None?
    ensures var t := TransferAll(source, target, id, chain).target;
      && IsSealed(source, id) && GetSnapshot(t, id) == GetSnapshot(source, id)
      && forall d :: d in chain ==> LatestFields(source, id, d).Some? && LatestFields(t, id, d) == LatestFields(source, id, d)
  {
    TransferSucceedsIff(source, target, id, chain);
    BatchApplies(source, target, id, chain);
    var rows, t := Rows(source, id), TransferAll(source, target, id, chain).target;
    var images := ImageRows(id, rows, chain);
    RowsAppend(target, t, images, id, id);
    forall d | d in chain
      ensures LatestFields(source, id, d).Some? && LatestFields(t, id, d) == LatestFields(source, id, d)
    {
      LastRowAppend(Rows(target, id), images, d);
      LastImageRow(id, rows, chain, d);
    }
  }

  // ---- What a batch leaves alone ----

  /** Nothing of another snapshot differs. */
  ghost predicate SameElsewhere(id: string, a: Store, b: Store) {
    && (forall other :: other != id ==> GetSnapshot(a, other) == GetSnapshot(b, other))
    && (forall k: MemoKey :: k.snapshotId != id ==> LookupMemo(a, k) == LookupMemo(b, k))
    && (forall other :: other != id ==> Rows(a, other) == Rows(b, other))
  }

  lemma {:induction false} StepStaysInside(s: Sync, id: string, env: Envelope)
    ensures SameElsewhere(id, s.target, SyncStep(s, id, env).target)
  {
    var t := SyncStep(s, id, env).target;
    if t.log != s.target.log {
      var row := ImageRow(DecodeResult(env.after).value);
      assert t.log == s.target.log + [row] && row.snapshotId == id;
      forall other | other != id
        ensures Rows(t, other) == Rows(s.target, other)
      {
        RowsAppend(s.target, t, [row], id, other);
        assert Rows(s.target, other) + [] == Rows(s.target, other);
      }
    }
  }

  /** A batch for one snapshot, accepted or not, touches nothing of another one, whatever envelopes it holds. */
  lemma {:induction false} BatchStaysInside(s: Sync, id: string, envs: seq<Envelope>)
    ensures SameElsewhere(id, s.target, SyncAll(s, id, envs).target)
    decreases |envs|
  {
    if envs != [] && s.fault.None? {
      StepStaysInside(s, id, envs[0]);
      BatchStaysInside(SyncStep(s, id, envs[0]), id, envs[1..]);
    }
  }

  /** A result image that was marked as reused adds its row to the log and nothing to the memo; others add both. */
  lemma {:induction false} ResultImageApplies(target: Store, env: Envelope, row: ResultImage)
    requires env.table == "domino_results" && env.op != "d" && env.after.Image? && env.after.asResult == Some(row)
    ensures var key := MemoKey(row.snapshotId, row.dominoId, row.inputHash);
      var value := MemoValue(row.outputHash, row.output);
      ApplyEnvelope(target, env) ==
        if row.snapshotId !in target.snapshots || !target.snapshots[row.snapshotId].sealed then Failure(OrphanResult)
        else if !row.reused && key in target.memo && target.memo[key] != value then Failure(MemoConflict)
        else Success(Store(target.snapshots, if row.reused then target.memo else target.memo[key := value],
               target.log + [ReplayRow(row.snapshotId, row.dominoId, row.inputHash, row.outputHash, row.output, row.reused, "", "")]))
  {
  }
}
