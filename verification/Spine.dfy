/** The hash spine: every replay row links to its predecessor, the first one to the snapshot ID. */
module Spine {
  import opened Basics
  import opened Runtime
  import opened StoreModel

  const SNAPSHOT_ID_HEX_LEN: nat := 32

  /** SnapshotID: the first 128 bits of the digest of the JSON object {timeSlice, data}. */
  function SnapshotId(rt: Runtime, timeSlice: string, content: Json): string {
    Prefix(rt.digest(rt.marshal(Obj(map["timeSlice" := Str(timeSlice), "data" := content]))), SNAPSHOT_ID_HEX_LEN)
  }

  function LinkText(prev: string, inputHash: string, outputHash: string): string {
    prev + ":" + inputHash + ":" + outputHash
  }

  function Link(digest: string -> string, prev: string, inputHash: string, outputHash: string): string {
    digest(LinkText(prev, inputHash, outputHash))
  }

  function RowText(row: ReplayRow): string {
    LinkText(row.prevLink, row.inputHash, row.outputHash)
  }

  function Head(root: string, rows: seq<ReplayRow>): string {
    if rows == [] then root else rows[|rows| - 1].link
  }

  /** The row continues the spine whose head is prev. */
  predicate Continues(digest: string -> string, prev: string, row: ReplayRow) {
    row.prevLink == prev && row.link == digest(RowText(row))
  }

  /** The rows are a hash chain that starts at root. */
  predicate Verifies(digest: string -> string, root: string, rows: seq<ReplayRow>) {
    rows == [] ||
    (var n := |rows| - 1;
     Verifies(digest, root, rows[..n]) && Continues(digest, Head(root, rows[..n]), rows[n]))
  }

  method VerifySpine(digest: string -> string, root: string, rows: seq<ReplayRow>) returns (ok: bool)
    ensures ok <==> Verifies(digest, root, rows)
  {
    var prev := root;
    for i := 0 to |rows|
      invariant prev == Head(root, rows[..i])
      invariant Verifies(digest, root, rows[..i])
    {
      var e := rows[i];
      assert rows[..i + 1][..i] == rows[..i];
      if e.prevLink != prev || e.link != Link(digest, e.prevLink, e.inputHash, e.outputHash) {
        if Verifies(digest, root, rows) {
          VerifiesPrefix(digest, root, rows, i + 1);
        }
        return false;
      }
      prev := e.link;
    }
    assert rows[..|rows|] == rows;
    return true;
  }

  lemma {:induction false} VerifiesPrefix(digest: string -> string, root: string, rows: seq<ReplayRow>, n: nat)
    requires n <= |rows| && Verifies(digest, root, rows)
    ensures Verifies(digest, root, rows[..n])
    decreases |rows|
  {
    if n == |rows| {
      assert rows[..n] == rows;
    } else {
      var init := rows[..|rows| - 1];
      assert init[..n] == rows[..n];
      VerifiesPrefix(digest, root, init, n);
    }
  }

  lemma {:induction false} VerifiesAppend(digest: string -> string, root: string, rows: seq<ReplayRow>, row: ReplayRow)
    requires Verifies(digest, root, rows) && Continues(digest, Head(root, rows), row)
    ensures Verifies(digest, root, rows + [row])
  {
    assert (rows + [row])[..|rows|] == rows;
  }

  predicate ColonFree(rows: seq<ReplayRow>) {
    forall r :: r in rows ==> ':' !in r.inputHash && ':' !in r.outputHash
  }

  predicate SameHashes(a: seq<ReplayRow>, b: seq<ReplayRow>) {
    && |a| == |b|
    && forall i :: 0 <= i < |a| ==> a[i].inputHash == b[i].inputHash && a[i].outputHash == b[i].outputHash
  }

  /** Two different link texts, one of a row of each log, with the same digest. */
  ghost predicate Collide(digest: string -> string, a: seq<ReplayRow>, x: string, b: seq<ReplayRow>, y: string) {
    && (exists r :: r in a && RowText(r) == x)
    && (exists r :: r in b && RowText(r) == y)
    && x != y && digest(x) == digest(y)
  }

  lemma {:induction false} LinkTextInjective(p: string, i: string, o: string, p': string, i': string, o': string)
    requires ':' !in i && ':' !in o && ':' !in i' && ':' !in o'
    requires LinkText(p, i, o) == LinkText(p', i', o')
    ensures p == p' && i == i' && o == o'
  {
    assert LinkText(p, i, o) == (p + ":" + i) + [':'] + o;
    assert LinkText(p', i', o') == (p' + ":" + i') + [':'] + o';
    SplitLast(':', p + ":" + i, o, p' + ":" + i', o');
    SplitLast(':', p, i, p', i');
  }

  /**
  The head link commits to the whole log: two verified logs from one root with one head have the
  same length and hashes, or the lemma returns two different link texts of theirs with one digest.
  */
  lemma {:induction false} SpineCommits(rt: Runtime, root: string, a: seq<ReplayRow>, b: seq<ReplayRow>)
    returns (x: string, y: string)
    requires DigestLaws(rt) && |root| == SNAPSHOT_ID_HEX_LEN
    requires Verifies(rt.digest, root, a) && Verifies(rt.digest, root, b)
    requires ColonFree(a) && ColonFree(b)
    requires Head(root, a) == Head(root, b)
    ensures SameHashes(a, b) || Collide(rt.digest, a, x, b, y)
    decreases |a|
  {
    if a != [] && b != [] {
      var m, n := |a| - 1, |b| - 1;
      if RowText(a[m]) == RowText(b[n]) {
        LastRowsAgree(rt, root, a, b);
        x, y := SpineCommits(rt, root, a[..m], b[..n]);
        if Collide(rt.digest, a[..m], x, b[..n], y) {
          CollideGrows(rt.digest, a, m, x, b, n, y);
        } else {
          SameHashesGrow(a, b);
        }
      } else {
        x, y := RowText(a[m]), RowText(b[n]);
        CollideLast(rt, root, a, b);
      }
    } else {
      x, y := "", "";
      RootIsNoLink(rt, root, a);
      RootIsNoLink(rt, root, b);
    }
  }

  lemma {:induction false} SameHashesGrow(a: seq<ReplayRow>, b: seq<ReplayRow>)
    requires a != [] && b != []
    requires var m, n := |a| - 1, |b| - 1;
      && a[m].inputHash == b[n].inputHash && a[m].outputHash == b[n].outputHash
      && SameHashes(a[..m], b[..n])
    ensures SameHashes(a, b)
  {
    var n := |a| - 1;
    forall i | 0 <= i < n
      ensures a[i].inputHash == b[i].inputHash && a[i].outputHash == b[i].outputHash
    {
      assert a[..n][i] == a[i] && b[..n][i] == b[i];
    }
  }

  lemma {:induction false} CollideLast(rt: Runtime, root: string, a: seq<ReplayRow>, b: seq<ReplayRow>)
    requires a != [] && b != []
    requires Verifies(rt.digest, root, a) && Verifies(rt.digest, root, b)
    requires Head(root, a) == Head(root, b)
    requires RowText(a[|a| - 1]) != RowText(b[|b| - 1])
    ensures Collide(rt.digest, a, RowText(a[|a| - 1]), b, RowText(b[|b| - 1]))
  {
    assert a[|a| - 1] in a && b[|b| - 1] in b;
  }

  lemma {:induction false} RootIsNoLink(rt: Runtime, root: string, rows: seq<ReplayRow>)
    requires DigestLaws(rt) && |root| == SNAPSHOT_ID_HEX_LEN && Verifies(rt.digest, root, rows)
    ensures Head(root, rows) == root <==> rows == []
  {
    if rows != [] {
      assert Head(root, rows) == rt.digest(RowText(rows[|rows| - 1]));
    }
  }

  lemma {:induction false} LastRowsAgree(rt: Runtime, root: string, a: seq<ReplayRow>, b: seq<ReplayRow>)
    requires a != [] && b != []
    requires Verifies(rt.digest, root, a) && Verifies(rt.digest, root, b)
    requires ColonFree(a) && ColonFree(b)
    requires RowText(a[|a| - 1]) == RowText(b[|b| - 1])
    ensures var m, n := |a| - 1, |b| - 1;
      && a[m].inputHash == b[n].inputHash && a[m].outputHash == b[n].outputHash
      && Verifies(rt.digest, root, a[..m]) && Verifies(rt.digest, root, b[..n])
      && ColonFree(a[..m]) && ColonFree(b[..n])
      && Head(root, a[..m]) == Head(root, b[..n])
  {
    var m, n := |a| - 1, |b| - 1;
    var ra, rb := a[m], b[n];
    assert ra in a && rb in b;
    LinkTextInjective(ra.prevLink, ra.inputHash, ra.outputHash, rb.prevLink, rb.inputHash, rb.outputHash);
    VerifiesPrefix(rt.digest, root, a, m);
    VerifiesPrefix(rt.digest, root, b, n);
  }

  lemma {:induction false} CollideGrows(digest: string -> string, a: seq<ReplayRow>, m: nat, x: string, b: seq<ReplayRow>, n: nat, y: string)
    requires m <= |a| && n <= |b| && Collide(digest, a[..m], x, b[..n], y)
    ensures Collide(digest, a, x, b, y)
  {
    var r :| r in a[..m] && RowText(r) == x;
    var s :| s in b[..n] && RowText(s) == y;
    assert r in a && s in b;
  }

  // ---- The log of one snapshot, over many runs ----

  /** Each row continues the row before it or starts again at the root. */
  predicate Segmented(digest: string -> string, root: string, rows: seq<ReplayRow>) {
    rows == [] ||
    (var n := |rows| - 1;
     && Segmented(digest, root, rows[..n])
     && (Continues(digest, root, rows[n]) || Continues(digest, Head(root, rows[..n]), rows[n])))
  }

  /** Non-empty spines, each rooted at root. */
  predicate AreSpines(digest: string -> string, root: string, parts: seq<seq<ReplayRow>>) {
    parts == [] ||
    (var n := |parts| - 1;
     AreSpines(digest, root, parts[..n]) && parts[n] != [] && Verifies(digest, root, parts[n]))
  }

  /** A segmented log is a concatenation of spines, each rooted at the snapshot ID. */
  lemma {:induction false} SegmentsOf(digest: string -> string, root: string, rows: seq<ReplayRow>)
    returns (parts: seq<seq<ReplayRow>>)
    requires Segmented(digest, root, rows)
    ensures Flatten(parts) == rows && AreSpines(digest, root, parts)
    decreases |rows|
  {
    parts := [];
    if rows != [] {
      var n := |rows| - 1;
      var init, row := rows[..n], rows[n];
      var before := SegmentsOf(digest, root, init);
      assert rows == init + [row];
      if row.prevLink == root {
        parts := before + [[row]];
        assert parts[..|before|] == before;
        assert [row][..0] == [];
      } else {
        assert before != [];
        var m := |before| - 1;
        parts := before[..m] + [before[m] + [row]];
        assert parts[..m] == before[..m];
        assert Head(root, init) == Head(root, before[m]);
        VerifiesAppend(digest, root, before[m], row);
      }
    }
  }

  /** And conversely: any concatenation of such spines is segmented. */
  lemma {:induction false} SpinesAreSegmented(digest: string -> string, root: string, parts: seq<seq<ReplayRow>>)
    requires AreSpines(digest, root, parts)
    ensures Segmented(digest, root, Flatten(parts))
  {
    if parts != [] {
      var m := |parts| - 1;
      SpinesAreSegmented(digest, root, parts[..m]);
      SegmentedAppend(digest, root, Flatten(parts[..m]), parts[m]);
    }
  }

  lemma {:induction false} SegmentedAppend(digest: string -> string, root: string, rows: seq<ReplayRow>, spine: seq<ReplayRow>)
    requires Segmented(digest, root, rows) && Verifies(digest, root, spine)
    ensures Segmented(digest, root, rows + spine)
    decreases |spine|
  {
    if spine == [] {
      assert rows + spine == rows;
    } else {
      var n := |spine| - 1;
      var init := rows + spine[..n];
      SegmentedAppend(digest, root, rows, spine[..n]);
      assert (rows + spine)[..|rows| + n] == init;
      assert n > 0 ==> Head(root, init) == Head(root, spine[..n]);
    }
  }
}
