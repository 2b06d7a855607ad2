/**
What a snapshot ID stands for: a time slice and a content. Runs of different snapshots get different
IDs and are kept apart in the store, up to collisions of the digest that the lemmas exhibit.
*/
module SnapshotIdentity {
  import opened Basics
  import opened Runtime
  import opened StoreModel
  import opened Spine
  import opened Workflows
  import opened EngineSpec
  import opened MemoTransparency
  import opened Pinning
  import opened Exactness
  import opened LogShape

  /** x is JSON text of an object with this time slice and content, and the ID is the first half of its digest. */
  ghost predicate CommitsTo(rt: Runtime, id: string, x: string, timeSlice: string, content: Json) {
    && |rt.digest(x)| == 64 && id == rt.digest(x)[..32]
    && var parsed := rt.unmarshal(x);
    && parsed.Some? && parsed.value.Obj?
    && var fields := parsed.value.fields;
    && fields.Keys == {"timeSlice", "data"}
    && fields["timeSlice"] == Str(timeSlice) && fields["data"] == content
  }

  /** Two different texts whose digests agree on the 32 digits of a snapshot ID. */
  ghost predicate Clash(rt: Runtime, x: string, y: string) {
    x != y && |rt.digest(x)| == 64 && |rt.digest(y)| == 64 && rt.digest(x)[..32] == rt.digest(y)[..32]
  }

  lemma {:induction false} SnapshotIdCommits(rt: Runtime, timeSlice: string, content: Json) returns (x: string)
    requires JsonLaws(rt) && DigestLaws(rt)
    ensures CommitsTo(rt, SnapshotId(rt, timeSlice, content), x, timeSlice, content)
  {
    var payload := Obj(map["timeSlice" := Str(timeSlice), "data" := content]);
    x := rt.marshal(payload);
    assert rt.unmarshal(x) == Some(payload);
  }

  /** One ID stands for one time slice and content, or two texts clash. */
  lemma {:induction false} OneIdOneSnapshot(rt: Runtime, id: string, x: string, s: string, v: Json, y: string, t: string, w: Json)
    requires CommitsTo(rt, id, x, s, v) && CommitsTo(rt, id, y, t, w)
    ensures (s == t && v == w) || Clash(rt, x, y)
  {
  }

  // ---- The content of a snapshot ----

  /** A sealed row with data is stored under this ID. */
  predicate HasStored(st: Store, id: string) {
    id != "" && id in st.snapshots && st.snapshots[id].sealed && st.snapshots[id].data != ""
  }

  /** The content is that of the row stored under the status ID, and where there is none, that of the source. */
  ghost predicate ContentIs(rt: Runtime, st: Store, snap: Snapshot, v: Json) {
    if HasStored(st, snap.statusId) then rt.unmarshal(st.snapshots[snap.statusId].data) == Some(v)
    else
      match snap.source
      case Inline(fields) => v == Obj(fields)
      case External(address) => rt.fetch(address) == Some(v)
      case NoSource => false
  }

  /** A run starts from the content, and from its ID, exactly when the snapshot is sealed and claims no other ID. */
  lemma {:induction false} PreparesContent(rt: Runtime, st: Store, snap: Snapshot, v: Json)
    requires ContentIs(rt, st, snap, v)
    ensures var id := SnapshotId(rt, snap.timeSlice, v);
      var p := Prepare(rt, st, snap);
      if !snap.sealed then p == Failure(NotSealed)
      else if snap.statusId !in {"", id} then p == Failure(ContentMismatch)
      else p.Success? && p.value.value == v && p.value.id == id
  {
  }

  lemma {:induction false} PreparedIsContent(rt: Runtime, st: Store, snap: Snapshot) returns (v: Json)
    requires Prepare(rt, st, snap).Success?
    ensures v == Prepare(rt, st, snap).value.value && ContentIs(rt, st, snap, v)
  {
    v := Prepare(rt, st, snap).value.value;
  }

  /** A snapshot that is not sealed, or claims the ID of another content, is refused and nothing is written. */
  lemma {:induction false} ClaimsAreChecked(rt: Runtime, ticks: nat, st: Store, wf: Workflow, v: Json)
    requires ContentIs(rt, st, wf.snapshot, v)
    requires !wf.snapshot.sealed || wf.snapshot.statusId !in {"", SnapshotId(rt, wf.snapshot.timeSlice, v)}
    ensures Run(rt, ticks, st, wf) == Outcome(st, ticks, Failure(if wf.snapshot.sealed then ContentMismatch else NotSealed))
  {
    PreparesContent(rt, st, wf.snapshot, v);
  }

  // ---- Runs ----

  /** The snapshot ID of a successful run commits to its time slice and to the content that it read. */
  lemma {:induction false} RunIdCommits(rt: Runtime, ticks: nat, st: Store, wf: Workflow) returns (x: string, v: Json)
    requires JsonLaws(rt) && DigestLaws(rt)
    requires Run(rt, ticks, st, wf).result.Success?
    ensures ContentIs(rt, st, wf.snapshot, v)
    ensures CommitsTo(rt, Run(rt, ticks, st, wf).result.value.snapshotId, x, wf.snapshot.timeSlice, v)
  {
    RunEstablishes(rt, ticks, st, wf);
    v := PreparedIsContent(rt, st, wf.snapshot);
    PreparesContent(rt, st, wf.snapshot, v);
    x := SnapshotIdCommits(rt, wf.snapshot.timeSlice, v);
  }

  /** Two successful runs with one snapshot ID ran on the same time slice and content, or two texts clash. */
  lemma {:induction false} EqualIdsCommit(rt: Runtime, ticks: nat, st: Store, wf: Workflow, rt2: Runtime, ticks2: nat, st2: Store, wf2: Workflow)
    returns (x: string, v: Json, y: string, w: Json)
    requires JsonLaws(rt) && DigestLaws(rt) && JsonLaws(rt2)
    requires rt2.digest == rt.digest && rt2.unmarshal == rt.unmarshal
    requires var a, b := Run(rt, ticks, st, wf).result, Run(rt2, ticks2, st2, wf2).result;
      a.Success? && b.Success? && a.value.snapshotId == b.value.snapshotId
    ensures ContentIs(rt, st, wf.snapshot, v) && ContentIs(rt2, st2, wf2.snapshot, w)
    ensures (wf.snapshot.timeSlice == wf2.snapshot.timeSlice && v == w) || Clash(rt, x, y)
  {
    x, v := RunIdCommits(rt, ticks, st, wf);
    y, w := RunIdCommits(rt2, ticks2, st2, wf2);
    OneIdOneSnapshot(rt, Run(rt, ticks, st, wf).result.value.snapshotId, x, wf.snapshot.timeSlice, v, y, wf2.snapshot.timeSlice, w);
  }

  /** An accepted snapshot is sealed in the store, whether the chain then succeeds or not; no other row changes. */
  lemma {:induction false} RunSeals(rt: Runtime, ticks: nat, st: Store, wf: Workflow)
    requires JsonLaws(rt) && DigestLaws(rt) && AcceptsSnapshot(rt, st, wf)
    ensures var c := RunContent(rt, st, wf);
      Run(rt, ticks, st, wf).store.snapshots == st.snapshots[c.id := SnapshotRow(wf.snapshot.timeSlice, c.data, true)]
  {
    var c := RunContent(rt, st, wf);
    ContentAfterSave(rt, st, wf.snapshot);
    var saved := SaveSnapshot(st, c.id, SnapshotRow(wf.snapshot.timeSlice, c.data, true)).value;
    assert saved.snapshots == st.snapshots[c.id := SnapshotRow(wf.snapshot.timeSlice, c.data, true)];
    if Checked(wf) {
      var rows := StepsTrace(rt, wf, c.id, c.value, wf.chain, Cursor(saved, ticks, map[], c.id, []));
    }
  }

  /** An empty name, or one that occurs twice. */
  ghost predicate IllNamed(names: seq<string>) {
    "" in names || exists i, j :: 0 <= i < j < |names| && names[i] == names[j]
  }

  /** A workflow with ill-named dominos, or an empty or ill-named chain, is refused once its snapshot is sealed. */
  lemma {:induction false} IllNamedIsRefused(rt: Runtime, ticks: nat, st: Store, wf: Workflow)
    requires JsonLaws(rt) && DigestLaws(rt) && AcceptsSnapshot(rt, st, wf)
    requires IllNamed(Names(wf.dominos)) || wf.chain == [] || IllNamed(wf.chain)
    ensures var c := RunContent(rt, st, wf);
      Run(rt, ticks, st, wf) ==
        Outcome(st.(snapshots := st.snapshots[c.id := SnapshotRow(wf.snapshot.timeSlice, c.data, true)]), ticks,
                Failure(if IllNamed(Names(wf.dominos)) then BadDomino else if wf.chain == [] then EmptyChain else BadChain))
  {
    IllNamedIsNotOk(Names(wf.dominos));
    IllNamedIsNotOk(wf.chain);
  }

  lemma {:induction false} IllNamedIsNotOk(names: seq<string>)
    ensures IllNamed(names) <==> !ChainOk(names)
  {
  }

  // ---- Stores that runs and single steps have filled ----

  ghost predicate IsAddress(rt: Runtime, id: string, row: SnapshotRow, v: Json) {
    id == SnapshotId(rt, row.timeSlice, v) && row.data == rt.marshal(v)
  }

  /** Every sealed row is stored under the ID of its time slice and content. */
  ghost predicate Addressed(rt: Runtime, snapshots: map<string, SnapshotRow>) {
    forall id :: id in snapshots && snapshots[id].sealed ==> exists v :: IsAddress(rt, id, snapshots[id], v)
  }

  lemma {:induction false} PreparedIsAddress(rt: Runtime, st: Store, snap: Snapshot)
    requires JsonLaws(rt) && Addressed(rt, st.snapshots) && Prepare(rt, st, snap).Success?
    ensures var c := Prepare(rt, st, snap).value;
      IsAddress(rt, c.id, SnapshotRow(snap.timeSlice, c.data, true), c.value)
  {
    if HasStored(st, snap.statusId) {
      var v :| IsAddress(rt, snap.statusId, st.snapshots[snap.statusId], v);
      assert rt.unmarshal(rt.marshal(v)) == Some(v);
    }
  }

  lemma {:induction false} RunKeepsAddressed(rt: Runtime, ticks: nat, st: Store, wf: Workflow)
    requires JsonLaws(rt) && DigestLaws(rt) && Addressed(rt, st.snapshots)
    ensures Addressed(rt, Run(rt, ticks, st, wf).store.snapshots)
  {
    if AcceptsSnapshot(rt, st, wf) {
      RunSeals(rt, ticks, st, wf);
      PreparedIsAddress(rt, st, wf.snapshot);
      var c := RunContent(rt, st, wf);
      var after := Run(rt, ticks, st, wf).store.snapshots;
      forall id | id in after && after[id].sealed
        ensures exists v :: IsAddress(rt, id, after[id], v)
      {
        if id == c.id {
          assert IsAddress(rt, id, after[id], c.value);
        } else {
          assert after[id] == st.snapshots[id];
        }
      }
    }
  }

  lemma {:induction false} SessionIsAddressed(rt: Runtime, ticks: nat, st: Store, acts: seq<Act>)
    requires JsonLaws(rt) && DigestLaws(rt) && Addressed(rt, st.snapshots)
    ensures Addressed(rt, PerformAll(rt, ticks, st, acts).snapshots)
    decreases |acts|
  {
    if acts != [] {
      var r := Perform(rt, ticks, st, acts[0]);
      if acts[0].ActRun? {
        RunKeepsAddressed(rt, ticks, st, acts[0].wf);
      }
      SessionIsAddressed(rt, r.0, r.1, acts[1..]);
    }
  }

  /**
  On a store that any runs and single steps have filled, a sealed snapshot is never refused for what was
  sealed before it: another slice or another content has another ID, or two texts clash.
  */
  lemma {:induction false} SnapshotsStayApart(rt: Runtime, acts: seq<Act>, wf: Workflow) returns (x: string, y: string)
    requires JsonLaws(rt) && DigestLaws(rt)
    requires Prepare(rt, PerformAll(rt, 0, EMPTY, acts), wf.snapshot).Success?
    ensures AcceptsSnapshot(rt, PerformAll(rt, 0, EMPTY, acts), wf) || Clash(rt, x, y)
  {
    var st := PerformAll(rt, 0, EMPTY, acts);
    SessionIsAddressed(rt, 0, EMPTY, acts);
    PreparedIsAddress(rt, st, wf.snapshot);
    var c := RunContent(rt, st, wf);
    y := SnapshotIdCommits(rt, wf.snapshot.timeSlice, c.value);
    x := y;
    if !AcceptsSnapshot(rt, st, wf) {
      var row := st.snapshots[c.id];
      var v :| IsAddress(rt, c.id, row, v);
      x := SnapshotIdCommits(rt, row.timeSlice, v);
      OneIdOneSnapshot(rt, c.id, x, row.timeSlice, v, y, wf.snapshot.timeSlice, c.value);
    }
  }

  /** The same fields under two slices, one run after the other: two IDs, both sealed, or two texts clash. */
  lemma {:induction false} SlicesRunApart(rt: Runtime, acts: seq<Act>, ticks: nat, wf: Workflow, slice: string) returns (x: string, y: string)
    requires JsonLaws(rt) && DigestLaws(rt)
    requires wf.snapshot.sealed && wf.snapshot.source.Inline? && wf.snapshot.statusId == "" && slice != wf.snapshot.timeSlice
    ensures var st := PerformAll(rt, 0, EMPTY, acts + [ActRun(wf)]);
      var wf2 := wf.(snapshot := wf.snapshot.(timeSlice := slice));
      Clash(rt, x, y)
      || (&& InlineId(rt, wf.snapshot) != InlineId(rt, wf2.snapshot)
          && GetSnapshot(Run(rt, ticks, st, wf2).store, InlineId(rt, wf2.snapshot))
             == Some(SnapshotRow(slice, rt.marshal(Obj(wf.snapshot.source.fields)), true)))
  {
    var st := PerformAll(rt, 0, EMPTY, acts + [ActRun(wf)]);
    var wf2 := wf.(snapshot := wf.snapshot.(timeSlice := slice));
    var v := InlineValue(wf.snapshot);
    PreparesContent(rt, st, wf2.snapshot, v);
    x, y := SnapshotsStayApart(rt, acts + [ActRun(wf)], wf2);
    if AcceptsSnapshot(rt, st, wf2) {
      RunSeals(rt, ticks, st, wf2);
      if InlineId(rt, wf.snapshot) == InlineId(rt, wf2.snapshot) {
        x := SnapshotIdCommits(rt, wf.snapshot.timeSlice, v);
        y := SnapshotIdCommits(rt, slice, v);
        OneIdOneSnapshot(rt, InlineId(rt, wf.snapshot), x, wf.snapshot.timeSlice, v, y, slice, v);
      }
    }
  }
}
