/**
The backend over a directory of files. A directory is a map from file name to content, the JSON
text of a record is the record, and ReadDir may list names in any order.
*/
module FileBackend {
  import opened Basics
  import opened Decimal
  import opened StoreModel

  // ---- File names ----

  /** A single path component that filepath.Join leaves as it is. */
  predicate IsPlainName(s: string) {
    s != "" && s != "." && s != ".." && '/' !in s
  }

  predicate IsFileKey(k: MemoKey) {
    k.snapshotId != "" && IsHex(k.snapshotId) && IsPlainName(k.dominoId) && |k.inputHash| >= 8 && '/' !in k.inputHash
  }

  function SnapshotPath(id: string): string {
    id + ".json"
  }

  function SnapshotDataPath(id: string): string {
    id + ".data.json"
  }

  function MemoPath(k: MemoKey): string {
    k.snapshotId + "/" + k.dominoId + "/" + k.inputHash + ".json"
  }

  function ReplayName(stamp: nat, row: ReplayRow): string
    requires |row.inputHash| >= 8
  {
    Dec(stamp) + "-" + row.dominoId + "-" + row.inputHash[..8] + ".json"
  }

  lemma {:induction false} SnapshotPathsApart(a: string, b: string)
    requires IsHex(a) && IsHex(b)
    ensures SnapshotPath(a) != SnapshotDataPath(b)
    ensures SnapshotPath(a) == SnapshotPath(b) || SnapshotDataPath(a) == SnapshotDataPath(b) ==> a == b
  {
    assert SnapshotPath(a) == a + ['.'] + "json" && SnapshotPath(b) == b + ['.'] + "json";
    assert SnapshotDataPath(a) == a + ['.'] + "data.json" && SnapshotDataPath(b) == b + ['.'] + "data.json";
    if SnapshotPath(a) == SnapshotPath(b) {
      SplitFirst('.', a, "json", b, "json");
    }
    if SnapshotDataPath(a) == SnapshotDataPath(b) {
      SplitFirst('.', a, "data.json", b, "data.json");
    }
    if SnapshotPath(a) == SnapshotDataPath(b) {
      SplitFirst('.', a, "json", b, "data.json");
    }
  }

  lemma {:induction false} MemoPathInjective(a: MemoKey, b: MemoKey)
    requires IsFileKey(a) && IsFileKey(b) && MemoPath(a) == MemoPath(b)
    ensures a == b
  {
    var ra, rb := a.dominoId + "/" + a.inputHash + ".json", b.dominoId + "/" + b.inputHash + ".json";
    assert MemoPath(a) == a.snapshotId + ['/'] + ra && MemoPath(b) == b.snapshotId + ['/'] + rb;
    SplitFirst('/', a.snapshotId, ra, b.snapshotId, rb);
    assert ra == a.dominoId + ['/'] + (a.inputHash + ".json");
    assert rb == b.dominoId + ['/'] + (b.inputHash + ".json");
    SplitFirst('/', a.dominoId, a.inputHash + ".json", b.dominoId, b.inputHash + ".json");
    var n := |a.inputHash|;
    assert a.inputHash == (a.inputHash + ".json")[..n] && b.inputHash == (b.inputHash + ".json")[..n];
  }

  lemma {:induction false} ReplayNameInjective(s: nat, a: ReplayRow, t: nat, b: ReplayRow)
    requires |a.inputHash| >= 8 && |b.inputHash| >= 8
    requires ReplayName(s, a) == ReplayName(t, b)
    ensures s == t
  {
    var ra, rb := a.dominoId + "-" + a.inputHash[..8] + ".json", b.dominoId + "-" + b.inputHash[..8] + ".json";
    assert ReplayName(s, a) == Dec(s) + ['-'] + ra && ReplayName(t, b) == Dec(t) + ['-'] + rb;
    DecDigits(s);
    DecDigits(t);
    SplitFirst('-', Dec(s), ra, Dec(t), rb);
    DecInjective(s, t);
  }

  // ---- Sorting the replay directory ----

  datatype Timed = Timed(row: ReplayRow, at: int, name: string)

  predicate StringLess(a: string, b: string) {
    b != "" && (a == "" || a[0] < b[0] || (a[0] == b[0] && StringLess(a[1..], b[1..])))
  }

  predicate Before(a: Timed, b: Timed) {
    a.at < b.at || (a.at == b.at && StringLess(a.name, b.name))
  }

  /** sort.SliceStable under Before, as insertion from the right. */
  function Insert(x: Timed, s: seq<Timed>): seq<Timed> {
    if s == [] || !Before(s[0], x) then [x] + s else [s[0]] + Insert(x, s[1..])
  }

  function SortStable(s: seq<Timed>): seq<Timed> {
    if s == [] then [] else Insert(s[0], SortStable(s[1..]))
  }

  ghost predicate Increasing(s: seq<Timed>) {
    forall i, j :: 0 <= i < j < |s| ==> s[i].at < s[j].at
  }

  ghost predicate DistinctTimes(s: seq<Timed>) {
    forall i, j :: 0 <= i < j < |s| ==> s[i].at != s[j].at
  }

  lemma {:induction false} ElementsCons<T>(x: T, s: seq<T>)
    ensures Elements([x] + s) == {x} + Elements(s)
  {
  }

  lemma {:induction false} InsertElements(x: Timed, s: seq<Timed>)
    ensures Elements(Insert(x, s)) == {x} + Elements(s)
  {
    ElementsCons(x, s);
    if s != [] && Before(s[0], x) {
      assert s == [s[0]] + s[1..];
      InsertElements(x, s[1..]);
      ElementsCons(s[0], s[1..]);
      ElementsCons(s[0], Insert(x, s[1..]));
    }
  }

  lemma {:induction false} IncreasingCons(x: Timed, s: seq<Timed>)
    requires Increasing(s) && forall t :: t in Elements(s) ==> x.at < t.at
    ensures Increasing([x] + s)
  {
    assert forall i :: 0 <= i < |s| ==> s[i] in Elements(s);
  }

  lemma {:induction false} InsertIncreasing(x: Timed, s: seq<Timed>)
    requires Increasing(s) && forall t :: t in s ==> t.at != x.at
    ensures Increasing(Insert(x, s))
  {
    if s == [] || !Before(s[0], x) {
      assert s != [] ==> s[0] in s;
      IncreasingCons(x, s);
    } else {
      InsertIncreasing(x, s[1..]);
      InsertElements(x, s[1..]);
      IncreasingCons(s[0], Insert(x, s[1..]));
    }
  }

  lemma {:induction false} SortIncreasing(s: seq<Timed>)
    requires DistinctTimes(s)
    ensures Increasing(SortStable(s)) && Elements(SortStable(s)) == Elements(s)
  {
    if s != [] {
      var rest := s[1..];
      SortIncreasing(rest);
      forall t | t in SortStable(rest) ensures t.at != s[0].at {
        assert t in Elements(rest);
        var j :| 0 <= j < |rest| && rest[j] == t;
        assert s[j + 1] == t;
      }
      InsertElements(s[0], SortStable(rest));
      InsertIncreasing(s[0], SortStable(rest));
      assert s == [s[0]] + rest;
      ElementsCons(s[0], rest);
    }
  }

  lemma {:induction false} IncreasingUnique(a: seq<Timed>, b: seq<Timed>)
    requires Increasing(a) && Increasing(b) && Elements(a) == Elements(b)
    ensures a == b
    decreases |a|
  {
    assert |a| > 0 ==> a[0] in Elements(a);
    assert |b| > 0 ==> b[0] in Elements(b);
    if a != [] && b != [] {
      assert a[0] in Elements(b) && b[0] in Elements(a);
      var i :| 0 <= i < |a| && a[i] == b[0];
      var j :| 0 <= j < |b| && b[j] == a[0];
      assert a[0] == b[0];
      var x, y := a[1..], b[1..];
      assert a == [a[0]] + x && b == [b[0]] + y;
      assert Elements(x) == Elements(a) - {a[0]};
      assert Elements(y) == Elements(b) - {b[0]};
      IncreasingUnique(x, y);
    }
  }

  // ---- The store ----

  datatype SnapshotFile =
    | Meta(snapshotId: string, timeSlice: string, data: string, sealed: bool)
    | Payload(text: string)

  datatype MemoRecord = MemoRecord(key: MemoKey, value: MemoValue)

  datatype ReplayRecord = ReplayRecord(row: ReplayRow, createdAt: int)

  function TimedOf(dir: map<string, ReplayRecord>, name: string): Timed
    requires name in dir
  {
    Timed(dir[name].row, dir[name].createdAt, name)
  }

  /** The matching rows in order of creation. */
  ghost function Timeline(dir: map<string, ReplayRecord>, names: seq<string>, id: string): seq<Timed>
    requires forall n :: n in names ==> n in dir
  {
    if names == [] then []
    else
      var k := |names| - 1;
      Timeline(dir, names[..k], id) + (if dir[names[k]].row.snapshotId == id then [TimedOf(dir, names[k])] else [])
  }

  function RowsOfTimed(s: seq<Timed>): seq<ReplayRow> {
    seq(|s|, i requires 0 <= i < |s| => s[i].row)
  }

  ghost predicate IsTimeline(dir: map<string, ReplayRecord>, names: seq<string>, log: seq<ReplayRow>) {
    && |names| == |log|
    && (forall i :: 0 <= i < |names| ==> names[i] in dir && dir[names[i]].row == log[i])
    && (forall i, j :: 0 <= i < j < |names| ==> dir[names[i]].createdAt < dir[names[j]].createdAt)
  }

  ghost predicate FromFile(dir: map<string, ReplayRecord>, names: seq<string>, id: string, t: Timed, i: int)
    requires forall n :: n in names ==> n in dir
  {
    0 <= i < |names| && dir[names[i]].row.snapshotId == id && t == TimedOf(dir, names[i])
  }

  lemma {:induction false} TimelineMembers(dir: map<string, ReplayRecord>, names: seq<string>, id: string)
    requires forall n :: n in names ==> n in dir
    ensures forall t :: t in Timeline(dir, names, id) <==> exists i :: FromFile(dir, names, id, t, i)
    decreases |names|
  {
    if names != [] {
      var k := |names| - 1;
      TimelineMembers(dir, names[..k], id);
      forall t
        ensures t in Timeline(dir, names, id) <==> exists i :: FromFile(dir, names, id, t, i)
      {
        if i :| FromFile(dir, names, id, t, i) {
          assert i < k ==> FromFile(dir, names[..k], id, t, i);
        }
        if t in Timeline(dir, names[..k], id) {
          var i :| FromFile(dir, names[..k], id, t, i);
          assert FromFile(dir, names, id, t, i);
        } else if t in Timeline(dir, names, id) {
          assert FromFile(dir, names, id, t, k);
        }
      }
    }
  }

  lemma {:induction false} TimelineIncreasing(dir: map<string, ReplayRecord>, names: seq<string>, log: seq<ReplayRow>, id: string)
    requires IsTimeline(dir, names, log)
    ensures Increasing(Timeline(dir, names, id))
    decreases |names|
  {
    if names != [] {
      var k := |names| - 1;
      TimelineIncreasing(dir, names[..k], log[..k], id);
      TimelineMembers(dir, names[..k], id);
      forall t | t in Timeline(dir, names[..k], id)
        ensures t.at < dir[names[k]].createdAt
      {
        var i :| FromFile(dir, names[..k], id, t, i);
        assert names[..k][i] == names[i];
      }
    }
  }

  lemma {:induction false} TimelineRows(dir: map<string, ReplayRecord>, names: seq<string>, log: seq<ReplayRow>, id: string)
    requires IsTimeline(dir, names, log)
    ensures RowsOfTimed(Timeline(dir, names, id)) == Filter((r: ReplayRow) => r.snapshotId == id, log)
    decreases |names|
  {
    if names != [] {
      var k := |names| - 1;
      var keep := (r: ReplayRow) => r.snapshotId == id;
      TimelineRows(dir, names[..k], log[..k], id);
      FilterAppend(keep, log[..k], [log[k]]);
      assert log == log[..k] + [log[k]];
      assert Filter(keep, [log[k]]) == if keep(log[k]) then [log[k]] else [];
    }
  }

  lemma {:induction false} ExtendTimeline(dir: map<string, ReplayRecord>, names: seq<string>, log: seq<ReplayRow>, name: string, rec: ReplayRecord)
    requires IsTimeline(dir, names, log) && dir.Keys == Elements(names)
    requires name !in dir
    requires forall i :: 0 <= i < |names| ==> dir[names[i]].createdAt < rec.createdAt
    ensures IsTimeline(dir[name := rec], names + [name], log + [rec.row])
    ensures dir[name := rec].Keys == Elements(names + [name])
  {
    var dir', names' := dir[name := rec], names + [name];
    forall i | 0 <= i < |names|
      ensures names'[i] in dir && dir'[names'[i]] == dir[names[i]]
    {
      assert names[i] in Elements(names);
    }
  }

  /** The replay directory holds the log: creation times and name stamps grow, up to the clock. */
  ghost predicate HoldsLog(dir: map<string, ReplayRecord>, names: seq<string>, stamps: seq<nat>, log: seq<ReplayRow>, clock: nat) {
    && IsTimeline(dir, names, log) && dir.Keys == Elements(names)
    && NamedBy(names, stamps, log)
    && (forall s :: s in stamps ==> s <= clock)
    && (forall n :: n in dir ==> dir[n].createdAt <= clock)
  }

  ghost predicate NamedBy(names: seq<string>, stamps: seq<nat>, log: seq<ReplayRow>) {
    && |names| == |stamps| == |log|
    && forall i :: 0 <= i < |names| ==> |log[i].inputHash| >= 8 && names[i] == ReplayName(stamps[i], log[i])
  }

  lemma {:induction false} StampIsFresh(names: seq<string>, stamps: seq<nat>, log: seq<ReplayRow>, stamp: nat, row: ReplayRow)
    requires NamedBy(names, stamps, log) && |row.inputHash| >= 8
    requires stamp !in stamps
    ensures ReplayName(stamp, row) !in names
  {
    forall i | 0 <= i < |names|
      ensures names[i] != ReplayName(stamp, row)
    {
      if names[i] == ReplayName(stamp, row) {
        ReplayNameInjective(stamps[i], log[i], stamp, row);
      }
    }
  }

  lemma {:induction false} NamedByAppend(names: seq<string>, stamps: seq<nat>, log: seq<ReplayRow>, stamp: nat, row: ReplayRow)
    requires NamedBy(names, stamps, log) && |row.inputHash| >= 8
    ensures NamedBy(names + [ReplayName(stamp, row)], stamps + [stamp], log + [row])
  {
  }

  lemma {:induction false} HoldsLogAppend(dir: map<string, ReplayRecord>, names: seq<string>, stamps: seq<nat>, log: seq<ReplayRow>, clock: nat,
                       row: ReplayRow, createdAt: nat, stamp: nat)
    requires HoldsLog(dir, names, stamps, log, clock) && |row.inputHash| >= 8
    requires clock < createdAt < stamp
    ensures var name := ReplayName(stamp, row);
      HoldsLog(dir[name := ReplayRecord(row, createdAt)], names + [name], stamps + [stamp], log + [row], stamp)
  {
    StampIsFresh(names, stamps, log, stamp, row);
    NamedByAppend(names, stamps, log, stamp, row);
    ExtendTimeline(dir, names, log, ReplayName(stamp, row), ReplayRecord(row, createdAt));
  }

  /** The record and the sidecar of a snapshot. */
  ghost predicate HoldsSnapshot(dir: map<string, SnapshotFile>, id: string, row: SnapshotRow) {
    && SnapshotPath(id) in dir && SnapshotDataPath(id) in dir
    && dir[SnapshotPath(id)] == Meta(id, row.timeSlice, "", row.sealed)
    && dir[SnapshotDataPath(id)] == Payload(row.data)
  }

  ghost predicate HoldsSnapshots(dir: map<string, SnapshotFile>, snapshots: map<string, SnapshotRow>) {
    && (forall id :: id in snapshots ==> IsHex(id) && HoldsSnapshot(dir, id, snapshots[id]))
    && (forall id :: IsHex(id) && SnapshotPath(id) in dir ==> id in snapshots)
  }

  function WithSnapshot(dir: map<string, SnapshotFile>, id: string, row: SnapshotRow): map<string, SnapshotFile> {
    dir[SnapshotPath(id) := Meta(id, row.timeSlice, "", row.sealed)][SnapshotDataPath(id) := Payload(row.data)]
  }

  lemma {:induction false} HoldsSnapshotsWrite(dir: map<string, SnapshotFile>, snapshots: map<string, SnapshotRow>, id: string, row: SnapshotRow)
    requires HoldsSnapshots(dir, snapshots) && IsHex(id)
    ensures HoldsSnapshots(WithSnapshot(dir, id, row), snapshots[id := row])
  {
    SnapshotPathsApart(id, id);
    var dir', snapshots' := WithSnapshot(dir, id, row), snapshots[id := row];
    forall other | IsHex(other) && other != id
      ensures SnapshotPath(other) in dir' ==> other in snapshots'
      ensures other in snapshots' ==> HoldsSnapshot(dir', other, snapshots'[other])
    {
      SnapshotPathsApart(id, other);
      SnapshotPathsApart(other, id);
    }
  }

  ghost predicate HoldsMemo(dir: map<string, MemoRecord>, memo: map<MemoKey, MemoValue>) {
    && (forall k :: k in memo ==> IsFileKey(k) && MemoPath(k) in dir && dir[MemoPath(k)] == MemoRecord(k, memo[k]))
    && (forall k :: IsFileKey(k) && MemoPath(k) in dir ==> k in memo)
  }

  lemma {:induction false} HoldsMemoWrite(dir: map<string, MemoRecord>, memo: map<MemoKey, MemoValue>, key: MemoKey, value: MemoValue)
    requires HoldsMemo(dir, memo) && IsFileKey(key)
    ensures HoldsMemo(dir[MemoPath(key) := MemoRecord(key, value)], memo[key := value])
  {
    forall k | IsFileKey(k) && MemoPath(k) == MemoPath(key)
      ensures k == key
    {
      MemoPathInjective(k, key);
    }
  }

  class FileStore {
    var snapshotDir: map<string, SnapshotFile>
    var memoDir: map<string, MemoRecord>
    var replayDir: map<string, ReplayRecord>

    ghost var state: Store
    ghost var names: seq<string>  // replay files in order of creation
    ghost var stamps: seq<nat>    // the nanosecond stamp in each of those names
    ghost var clock: nat          // the last reading of the clock

    ghost predicate Valid()
      reads this
    {
      HoldsSnapshots(snapshotDir, state.snapshots) && HoldsMemo(memoDir, state.memo) && ValidReplay()
    }

    ghost predicate ValidReplay()
      reads this
    {
      HoldsLog(replayDir, names, stamps, state.log, clock)
    }

    constructor ()
      ensures Valid() && state == EMPTY && clock == 0
    {
      snapshotDir, memoDir, replayDir := map[], map[], map[];
      state, names, stamps, clock := EMPTY, [], [], 0;
    }

    method GetSnapshot(id: string) returns (r: Option<SnapshotRow>)
      requires Valid() && IsHex(id)
      ensures r == StoreModel.GetSnapshot(state, id)
    {
      if SnapshotPath(id) !in snapshotDir {
        return None;
      }
      var meta := snapshotDir[SnapshotPath(id)];
      var data := meta.data;
      if data == "" {
        if SnapshotDataPath(id) in snapshotDir {
          data := snapshotDir[SnapshotDataPath(id)].text;
        }
      }
      return Some(SnapshotRow(meta.timeSlice, data, meta.sealed));
    }

    /** GetSnapshotData: the sealed flag from the record, the payload from the sidecar. */
    method GetSnapshotData(id: string) returns (r: Option<(string, bool)>)
      requires Valid() && IsHex(id)
      ensures r == SnapshotData(state, id)
    {
      if SnapshotPath(id) !in snapshotDir {
        return None;
      }
      return Some((snapshotDir[SnapshotDataPath(id)].text, snapshotDir[SnapshotPath(id)].sealed));
    }

    method SaveSnapshot(id: string, row: SnapshotRow) returns (err: Option<Fault>)
      requires Valid() && IsHex(id)
      modifies this`snapshotDir, this`state
      ensures Valid()
      ensures err == FaultOf(StoreModel.SaveSnapshot(old(state), id, row))
      ensures state == Committed(old(state), StoreModel.SaveSnapshot(old(state), id, row))
    {
      var existing := GetSnapshot(id);
      if RefusesSealedMutation(existing, row) {
        return Some(SealedOverwrite);
      }
      if existing.Some? && existing.value.sealed {
        return None;
      }
      WriteSnapshot(id, row);
      err := None;
    }

    /** The two file writes. */
    method WriteSnapshot(id: string, row: SnapshotRow)
      requires HoldsSnapshots(snapshotDir, state.snapshots) && IsHex(id)
      modifies this`snapshotDir, this`state
      ensures HoldsSnapshots(snapshotDir, state.snapshots)
      ensures state == old(state).(snapshots := old(state).snapshots[id := row])
    {
      HoldsSnapshotsWrite(snapshotDir, state.snapshots, id, row);
      snapshotDir := snapshotDir[SnapshotPath(id) := Meta(id, row.timeSlice, "", row.sealed)];
      snapshotDir := snapshotDir[SnapshotDataPath(id) := Payload(row.data)];
      state := state.(snapshots := state.snapshots[id := row]);
    }

    method LookupMemo(key: MemoKey) returns (r: Option<MemoValue>)
      requires Valid() && IsFileKey(key)
      ensures r == StoreModel.LookupMemo(state, key)
    {
      r := if MemoPath(key) in memoDir then Some(memoDir[MemoPath(key)].value) else None;
    }

    method SaveResult(row: ReplayRow, createdAt: nat, stamp: nat) returns (err: Option<Fault>)
      requires Valid() && IsFileKey(row.Key())
      requires clock < createdAt < stamp
      modifies this`memoDir, this`replayDir, this`state, this`names, this`stamps, this`clock
      ensures Valid()
      ensures err == FaultOf(StoreModel.SaveResult(old(state), row))
      ensures state == Committed(old(state), StoreModel.SaveResult(old(state), row))
      ensures clock <= stamp
    {
      if !row.reused {
        err := SaveMemo(row);
        if err.Some? {
          return;
        }
      }
      AppendReplay(row, createdAt, stamp);
      err := None;
    }

    method SaveMemo(row: ReplayRow) returns (err: Option<Fault>)
      requires Valid() && IsFileKey(row.Key())
      modifies this`memoDir, this`state
      ensures Valid()
      ensures var conflict := RefusesMemoConflict(StoreModel.LookupMemo(old(state), row.Key()), row.Value());
        && err == (if conflict then Some(MemoConflict) else None)
        && state == if conflict then old(state) else old(state).(memo := old(state).memo[row.Key() := row.Value()])
    {
      var path := MemoPath(row.Key());
      if path in memoDir {
        if RefusesMemoConflict(Some(memoDir[path].value), row.Value()) {
          return Some(MemoConflict);
        }
        assert state.memo == state.memo[row.Key() := row.Value()];
      } else {
        HoldsMemoWrite(memoDir, state.memo, row.Key(), row.Value());
        memoDir := memoDir[path := MemoRecord(row.Key(), row.Value())];
        state := state.(memo := state.memo[row.Key() := row.Value()]);
      }
      err := None;
    }

    method AppendReplay(row: ReplayRow, createdAt: nat, stamp: nat)
      requires ValidReplay() && IsFileKey(row.Key())
      requires clock < createdAt < stamp
      modifies this`replayDir, this`state, this`names, this`stamps, this`clock
      ensures ValidReplay() && clock == stamp
      ensures state == old(state).(log := old(state).log + [row])
    {
      var name := ReplayName(stamp, row);
      HoldsLogAppend(replayDir, names, stamps, state.log, clock, row, createdAt, stamp);
      replayDir := replayDir[name := ReplayRecord(row, createdAt)];
      names, stamps, clock := names + [name], stamps + [stamp], stamp;
      state := state.(log := state.log + [row]);
    }

    method ListReplay(id: string) returns (rows: seq<ReplayRow>)
      requires Valid()
      ensures rows == Rows(state, id)
    {
      var timedRows: seq<Timed> := [];
      var pending := replayDir.Keys;
      while pending != {}
        invariant pending <= replayDir.Keys
        invariant forall t :: t in timedRows <==>
          exists n :: n in replayDir && n !in pending && replayDir[n].row.snapshotId == id && t == TimedOf(replayDir, n)
        invariant DistinctTimes(timedRows)
      {
        var name :| name in pending;
        var rec := replayDir[name];
        pending := pending - {name};
        if rec.row.snapshotId == id {
          forall t | t in timedRows
            ensures t.at != rec.createdAt
          {
            DistinctCreation(t.name, name);
          }
          timedRows := timedRows + [Timed(rec.row, rec.createdAt, name)];
        }
      }
      SortIncreasing(timedRows);
      TimelineRows(replayDir, names, state.log, id);
      TimelineIncreasing(replayDir, names, state.log, id);
      SameElements(timedRows, id);
      IncreasingUnique(SortStable(timedRows), Timeline(replayDir, names, id));
      rows := RowsOfTimed(SortStable(timedRows));
    }

    lemma {:induction false} DistinctCreation(a: string, b: string)
      requires ValidReplay() && a in replayDir && b in replayDir && a != b
      ensures replayDir[a].createdAt != replayDir[b].createdAt
    {
      assert a in Elements(names) && b in Elements(names);
    }

    lemma {:induction false} SameElements(timedRows: seq<Timed>, id: string)
      requires ValidReplay()
      requires forall t :: t in timedRows <==>
        exists n :: n in replayDir && replayDir[n].row.snapshotId == id && t == TimedOf(replayDir, n)
      ensures Elements(timedRows) == Elements(Timeline(replayDir, names, id))
    {
      TimelineMembers(replayDir, names, id);
      forall t ensures t in timedRows <==> t in Timeline(replayDir, names, id) {
        if t in timedRows {
          var n :| n in replayDir && replayDir[n].row.snapshotId == id && t == TimedOf(replayDir, n);
          assert n in Elements(names);
          var i :| 0 <= i < |names| && names[i] == n;
          assert FromFile(replayDir, names, id, t, i);
        }
      }
    }

    method GetLatestResult(id: string, dominoId: string) returns (r: Option<(string, MemoValue)>)
      requires Valid()
      ensures r == LatestFields(state, id, dominoId)
    {
      var rows := ListReplay(id);
      var row := LastSpineResult(rows, dominoId);
      r := if row.Some? then Some((row.value.inputHash, row.value.Value())) else None;
    }
  }
}
