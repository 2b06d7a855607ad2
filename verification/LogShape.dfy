/**
The persisted log of each snapshot, over any sequence of runs and single steps on one store, is a
concatenation of spines rooted at the snapshot ID.
*/
module LogShape {
  import opened Basics
  import opened Runtime
  import opened StoreModel
  import opened Spine
  import opened Workflows
  import opened EngineSpec
  import opened MemoTransparency
  import opened Pinning

  /** A workflow run, or the domino controller's single step from the current spine head. */
  datatype Act =
    | ActRun(wf: Workflow)
    | ActNext(id: string, snap: Snapshot, d: Domino, prior: map<string, string>)

  ghost function Perform(rt: Runtime, ticks: nat, st: Store, act: Act): (nat, Store) {
    match act
    case ActRun(wf) =>
      var o := Run(rt, ticks, st, wf);
      (o.ticks, o.store)
    case ActNext(id, snap, d, prior) =>
      var o := RunSingleFrom(rt, ticks, st, id, snap, d, prior, SpineHead(Rows(st, id), id));
      (o.ticks, o.store)
  }

  ghost function PerformAll(rt: Runtime, ticks: nat, st: Store, acts: seq<Act>): Store
    decreases |acts|
  {
    if acts == [] then st
    else
      var r := Perform(rt, ticks, st, acts[0]);
      PerformAll(rt, r.0, r.1, acts[1..])
  }

  ghost predicate AllSegmented(rt: Runtime, st: Store) {
    forall id :: Segmented(rt.digest, id, Rows(st, id))
  }

  lemma {:induction false} AppendSpine(rt: Runtime, a: Store, b: Store, rows: seq<ReplayRow>, id: string)
    requires AllSegmented(rt, a) && b.log == a.log + rows
    requires forall r :: r in rows ==> r.snapshotId == id
    requires Verifies(rt.digest, id, rows)
    ensures AllSegmented(rt, b)
  {
    forall other
      ensures Segmented(rt.digest, other, Rows(b, other))
    {
      RowsAppend(a, b, rows, id, other);
      assert Rows(a, other) + [] == Rows(a, other);
      assert Segmented(rt.digest, other, Rows(a, other));
      if other == id {
        SegmentedAppend(rt.digest, id, Rows(a, id), rows);
      }
    }
  }

  /** A run appends one new spine, complete or cut short by a failure. */
  lemma {:induction false} RunKeepsSegments(rt: Runtime, ticks: nat, st: Store, wf: Workflow)
    requires JsonLaws(rt) && DigestLaws(rt) && AllSegmented(rt, st)
    ensures AllSegmented(rt, Run(rt, ticks, st, wf).store)
  {
    var o := Run(rt, ticks, st, wf);
    if Prepare(rt, st, wf.snapshot).Success? {
      var c := RunContent(rt, st, wf);
      ContentAfterSave(rt, st, wf.snapshot);
      var saved := SaveSnapshot(st, c.id, SnapshotRow(wf.snapshot.timeSlice, c.data, true));
      if saved.Success? && DominosOk(wf.dominos) && wf.chain != [] && ChainOk(wf.chain) {
        var rows := StepsTrace(rt, wf, c.id, c.value, wf.chain, Cursor(saved.value, ticks, map[], c.id, []));
        TraceVerifies(rt, wf, c.id, c.value, wf.chain, map[], c.id, rows);
        AppendSpine(rt, st, o.store, rows, c.id);
      } else {
        assert o.store.log == st.log + [];
        AppendSpine(rt, st, o.store, [], c.id);
      }
    }
  }

  /** The link of the last row of a segmented log is a digest, so SpineHead finds it. */
  lemma {:induction false} SpineHeadIsHead(rt: Runtime, rows: seq<ReplayRow>, id: string)
    requires DigestLaws(rt) && Segmented(rt.digest, id, rows)
    ensures SpineHead(rows, id) == Head(id, rows)
  {
    if rows != [] {
      assert |rows[|rows| - 1].link| == 64;
    }
  }

  /** A single step from the spine head extends the last spine. */
  lemma {:induction false} NextKeepsSegments(rt: Runtime, ticks: nat, st: Store, id: string, snap: Snapshot, d: Domino, prior: map<string, string>)
    requires DigestLaws(rt) && AllSegmented(rt, st)
    ensures AllSegmented(rt, RunSingleFrom(rt, ticks, st, id, snap, d, prior, SpineHead(Rows(st, id), id)).store)
  {
    var head := SpineHead(Rows(st, id), id);
    var o := RunSingleFrom(rt, ticks, st, id, snap, d, prior, head);
    assert Segmented(rt.digest, id, Rows(st, id));
    SpineHeadIsHead(rt, Rows(st, id), id);
    if o.result.Success? {
      var row := o.result.value;
      assert o.store.log == st.log + [row] && row.snapshotId == id;
      assert Continues(rt.digest, head, row);
      forall other
        ensures Segmented(rt.digest, other, Rows(o.store, other))
      {
        RowsAppend(st, o.store, [row], id, other);
        assert Segmented(rt.digest, other, Rows(st, other));
        if other == id {
          assert (Rows(st, id) + [row])[..|Rows(st, id)|] == Rows(st, id);
        } else {
          assert Rows(st, other) + [] == Rows(st, other);
        }
      }
    } else {
      assert o.store.log == st.log;
      assert forall other :: Rows(o.store, other) == Rows(st, other);
    }
  }

  lemma {:induction false} SessionKeepsSegments(rt: Runtime, ticks: nat, st: Store, acts: seq<Act>)
    requires JsonLaws(rt) && DigestLaws(rt) && AllSegmented(rt, st)
    ensures AllSegmented(rt, PerformAll(rt, ticks, st, acts))
    decreases |acts|
  {
    if acts != [] {
      var r := Perform(rt, ticks, st, acts[0]);
      match acts[0]
      case ActRun(wf) =>
        RunKeepsSegments(rt, ticks, st, wf);
        SessionKeepsSegments(rt, r.0, r.1, acts[1..]);
      case ActNext(id, snap, d, prior) =>
        NextKeepsSegments(rt, ticks, st, id, snap, d, prior);
        SessionKeepsSegments(rt, r.0, r.1, acts[1..]);
    }
  }

  /** Log shape: from an empty store, each snapshot's log splits into spines rooted at its ID. */
  lemma {:induction false} LogIsSpines(rt: Runtime, acts: seq<Act>, id: string) returns (spines: seq<seq<ReplayRow>>)
    requires JsonLaws(rt) && DigestLaws(rt)
    ensures Flatten(spines) == Rows(PerformAll(rt, 0, EMPTY, acts), id)
    ensures AreSpines(rt.digest, id, spines)
  {
    assert AllSegmented(rt, EMPTY);
    SessionKeepsSegments(rt, 0, EMPTY, acts);
    spines := SegmentsOf(rt.digest, id, Rows(PerformAll(rt, 0, EMPTY, acts), id));
  }

  // ---- What the head link of a run commits to ----

  /** Output hashes in the memo are hex. */
  ghost predicate HexMemo(memo: map<MemoKey, MemoValue>) {
    forall k :: k in memo ==> IsHex(memo[k].outputHash)
  }

  lemma {:induction false} HexIsColonFree(s: string)
    requires IsHex(s)
    ensures ':' !in s
  {
  }

  /** The hashes of a row come from the digest, or from the memo. */
  lemma {:induction false} MemoisedIsHex(rt: Runtime, ticks: nat, st: Store, id: string, name: string, job: Job, prev: string)
    requires DigestLaws(rt) && HexMemo(st.memo)
    ensures var o := Memoised(rt, ticks, st, id, name, job, prev);
      HexMemo(o.store.memo) && (o.result.Success? ==> ColonFree([o.result.value]))
  {
    var o := Memoised(rt, ticks, st, id, name, job, prev);
    if o.result.Success? {
      HexIsColonFree(o.result.value.inputHash);
      HexIsColonFree(o.result.value.outputHash);
    }
  }

  lemma {:induction false} StepsAreHex(rt: Runtime, wf: Workflow, id: string, names: seq<string>, c: Cursor)
    requires DigestLaws(rt) && HexMemo(c.store.memo) && ColonFree(c.entries)
    ensures var d := Steps(rt, wf, id, names, c).cursor;
      HexMemo(d.store.memo) && ColonFree(d.entries)
    decreases |names|
  {
    if names != [] {
      var p := Step(rt, wf, id, names[0], c);
      var job := StepJob(rt, wf, names[0], PreferStore(rt, c.store, wf.snapshot, id), c.outputs);
      if job.Success? {
        MemoisedIsHex(rt, c.ticks, c.store, id, names[0], job.value, c.prev);
      }
      if p.fault.None? {
        StepsAreHex(rt, wf, id, names[1..], p.cursor);
      }
    }
  }

  lemma {:induction false} RunIsHex(rt: Runtime, ticks: nat, st: Store, wf: Workflow)
    requires DigestLaws(rt) && HexMemo(st.memo)
    ensures var o := Run(rt, ticks, st, wf);
      HexMemo(o.store.memo) && (o.result.Success? ==> ColonFree(o.result.value.entries))
  {
    var content := Prepare(rt, st, wf.snapshot);
    if content.Success? {
      var c := content.value;
      var saved := SaveSnapshot(st, c.id, SnapshotRow(wf.snapshot.timeSlice, c.data, true));
      if saved.Success? && Checked(wf) {
        StepsAreHex(rt, wf, c.id, wf.chain, Cursor(saved.value, ticks, map[], c.id, []));
      }
    }
  }

  lemma {:induction false} SessionIsHex(rt: Runtime, ticks: nat, st: Store, acts: seq<Act>)
    requires DigestLaws(rt) && HexMemo(st.memo)
    ensures HexMemo(PerformAll(rt, ticks, st, acts).memo)
    decreases |acts|
  {
    if acts != [] {
      var r := Perform(rt, ticks, st, acts[0]);
      match acts[0]
      case ActRun(wf) =>
        RunIsHex(rt, ticks, st, wf);
        SessionIsHex(rt, r.0, r.1, acts[1..]);
      case ActNext(id, snap, d, prior) =>
        var input := ResolveInputs(rt, d, PreferStore(rt, st, snap, id), prior);
        var head := SpineHead(Rows(st, id), id);
        if input.Success? {
          MemoisedIsHex(rt, ticks, st, id, d.name, Job(d.command, input.value), if head == "" then id else head);
        }
        SessionIsHex(rt, r.0, r.1, acts[1..]);
    }
  }

  /**
  Two successful runs, on stores that runs and single steps have filled, under one snapshot ID with one
  head link: they have the same number of steps with the same input and output hashes, or two of their
  link texts have one digest.
  */
  lemma {:induction false} HeadLinkCommits(rt: Runtime, before: seq<Act>, ticks: nat, wf: Workflow, rt2: Runtime, before2: seq<Act>, ticks2: nat, wf2: Workflow)
    returns (x: string, y: string)
    requires JsonLaws(rt) && DigestLaws(rt) && JsonLaws(rt2) && rt2.digest == rt.digest
    requires var a, b := Run(rt, ticks, PerformAll(rt, 0, EMPTY, before), wf).result, Run(rt2, ticks2, PerformAll(rt2, 0, EMPTY, before2), wf2).result;
      a.Success? && b.Success? && a.value.snapshotId == b.value.snapshotId && a.value.headLink == b.value.headLink
    ensures var a, b := Run(rt, ticks, PerformAll(rt, 0, EMPTY, before), wf).result, Run(rt2, ticks2, PerformAll(rt2, 0, EMPTY, before2), wf2).result;
      SameHashes(a.value.entries, b.value.entries) || Collide(rt.digest, a.value.entries, x, b.value.entries, y)
  {
    var st, st2 := PerformAll(rt, 0, EMPTY, before), PerformAll(rt2, 0, EMPTY, before2);
    SessionIsHex(rt, 0, EMPTY, before);
    SessionIsHex(rt2, 0, EMPTY, before2);
    RunIsCommitted(rt, ticks, st, wf);
    RunIsCommitted(rt2, ticks2, st2, wf2);
    var a, b := Run(rt, ticks, st, wf).result.value, Run(rt2, ticks2, st2, wf2).result.value;
    x, y := SpineCommits(rt, a.snapshotId, a.entries, b.entries);
  }

  /** The entries of a successful run meet what SpineCommits asks for. */
  lemma {:induction false} RunIsCommitted(rt: Runtime, ticks: nat, st: Store, wf: Workflow)
    requires JsonLaws(rt) && DigestLaws(rt) && HexMemo(st.memo)
    requires Run(rt, ticks, st, wf).result.Success?
    ensures var r := Run(rt, ticks, st, wf).result.value;
      && |r.snapshotId| == SNAPSHOT_ID_HEX_LEN && ColonFree(r.entries)
      && Verifies(rt.digest, r.snapshotId, r.entries) && r.headLink == Head(r.snapshotId, r.entries)
  {
    RunIsHex(rt, ticks, st, wf);
    RunVerifies(rt, ticks, st, wf);
    ContentAfterSave(rt, st, wf.snapshot);
  }
}
