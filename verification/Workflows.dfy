/** Workflows, and the checks that the engine makes before it runs a step. */
module Workflows {
  import opened Basics
  import opened Runtime

  /** External is a path or URI. A source may also have none of the three. */
  datatype Source = Inline(fields: map<string, Json>) | External(address: string) | NoSource

  /** statusId is "" when the snapshot carries no status. */
  datatype Snapshot = Snapshot(timeSlice: string, source: Source, sealed: bool, statusId: string)

  datatype Input = Input(fromDomino: string, fromSnapshot: string)

  datatype Domino = Domino(name: string, command: string, inputs: seq<Input>, dependsOn: seq<string>)

  datatype Sandbox = Sandbox(networkNone: bool, readOnlyRoot: bool)

  datatype Workflow = Workflow(
    snapshot: Snapshot,
    dominos: seq<Domino>,
    chain: seq<string>,
    deterministic: bool,
    sandbox: Sandbox)

  /** The command gives the same result whenever it is evaluated. */
  ghost predicate PureCommand(rt: Runtime, command: string) {
    forall t: nat, s: string :: rt.exec(t, command, s) == rt.exec(0, command, s)
  }

  ghost predicate Pure(rt: Runtime, dominos: seq<Domino>) {
    forall d :: d in dominos ==> PureCommand(rt, d.command)
  }

  // ---- Names ----

  ghost predicate ChainOk(chain: seq<string>) {
    "" !in chain && Distinct(chain)
  }

  method UniqueNames(chain: seq<string>) returns (ok: bool)
    ensures ok <==> ChainOk(chain)
  {
    var seen: set<string> := {};
    for i := 0 to |chain|
      invariant seen == Elements(chain[..i])
      invariant ChainOk(chain[..i])
    {
      var n := chain[i];
      if n == "" {
        return false;
      }
      if n in seen {
        var j :| 0 <= j < i && chain[..i][j] == n;
        assert chain[j] == chain[i];
        return false;
      }
      seen := seen + {n};
      assert chain[..i + 1] == chain[..i] + [n];
    }
    assert chain[..|chain|] == chain;
    return true;
  }

  function Names(dominos: seq<Domino>): seq<string> {
    seq(|dominos|, i requires 0 <= i < |dominos| => dominos[i].name)
  }

  ghost predicate DominosOk(dominos: seq<Domino>) {
    ChainOk(Names(dominos))
  }

  function FindDomino(dominos: seq<Domino>, name: string): (r: Option<Domino>)
    ensures r.Some? ==> r.value in dominos && r.value.name == name
    ensures r.None? ==> forall d :: d in dominos ==> d.name != name
  {
    if dominos == [] then None
    else if dominos[0].name == name then Some(dominos[0])
    else FindDomino(dominos[1..], name)
  }

  lemma {:induction false} FindDominoUnique(dominos: seq<Domino>, i: nat)
    requires DominosOk(dominos) && i < |dominos|
    ensures FindDomino(dominos, dominos[i].name) == Some(dominos[i])
  {
    var names := Names(dominos);
    assert names[i] == dominos[i].name;
    assert dominos[i] in dominos;
    var r := FindDomino(dominos, dominos[i].name);
    var j :| 0 <= j < |dominos| && dominos[j] == r.value;
    assert names[j] == dominos[j].name;
  }

  /** The map is the index of the dominos by name. */
  ghost predicate Indexes(m: map<string, Domino>, dominos: seq<Domino>) {
    && DominosOk(dominos)
    && (forall name :: name in m ==> m[name] in dominos && m[name].name == name)
    && (forall d :: d in dominos ==> d.name in m)
  }

  lemma {:induction false} IndexIsFind(dominos: seq<Domino>, m: map<string, Domino>)
    requires Indexes(m, dominos)
    ensures forall name :: FindDomino(dominos, name) == if name in m then Some(m[name]) else None
  {
    forall name
      ensures FindDomino(dominos, name) == if name in m then Some(m[name]) else None
    {
      if name in m {
        var j :| 0 <= j < |dominos| && dominos[j] == m[name];
        FindDominoUnique(dominos, j);
      }
    }
  }

  lemma {:induction false} NamesAppend(dominos: seq<Domino>, d: Domino)
    ensures Names(dominos + [d]) == Names(dominos) + [d.name]
  {
  }

  lemma {:induction false} IndexesNext(m: map<string, Domino>, dominos: seq<Domino>, d: Domino)
    requires Indexes(m, dominos) && d.name != "" && d.name !in m
    ensures Indexes(m[d.name := d], dominos + [d])
  {
    NamesAppend(dominos, d);
    assert d.name !in Names(dominos);
  }

  lemma {:induction false} BadDominoAt(m: map<string, Domino>, dominos: seq<Domino>, i: nat)
    requires i < |dominos| && Indexes(m, dominos[..i])
    requires dominos[i].name == "" || dominos[i].name in m
    ensures !DominosOk(dominos)
  {
    var names := Names(dominos);
    assert names[i] in names;
    if dominos[i].name in m {
      var j :| 0 <= j < i && dominos[..i][j] == m[dominos[i].name];
      assert names[j] == names[i];
    }
  }

  /** The loop that indexes dominos by name: nothing is returned for an empty or a repeated name. */
  method IndexDominos(dominos: seq<Domino>) returns (index: Option<map<string, Domino>>)
    ensures index.Some? <==> DominosOk(dominos)
    ensures index.Some? ==> forall name ::
              FindDomino(dominos, name) == if name in index.value then Some(index.value[name]) else None
  {
    var m: map<string, Domino> := map[];
    for i := 0 to |dominos|
      invariant Indexes(m, dominos[..i])
    {
      var d := dominos[i];
      if d.name == "" || d.name in m {
        BadDominoAt(m, dominos, i);
        return None;
      }
      IndexesNext(m, dominos[..i], d);
      m := m[d.name := d];
      assert dominos[..i + 1] == dominos[..i] + [d];
    }
    assert dominos[..|dominos|] == dominos;
    IndexIsFind(dominos, m);
    return Some(m);
  }

  // ---- Causal order ----

  /** The name is the snapshot, or stands strictly before domino in the chain. */
  predicate InCausalPast(chain: seq<string>, domino: string, name: string) {
    name == "snapshot" || name == "" || (0 <= IndexOf(chain, name) < IndexOf(chain, domino))
  }

  ghost predicate ReadsAllowed(chain: seq<string>, domino: string, deps: seq<string>) {
    domino in chain && forall r :: r in deps ==> InCausalPast(chain, domino, r)
  }

  method AllowedReads(chain: seq<string>, domino: string, deps: seq<string>) returns (ok: bool)
    ensures ok <==> ReadsAllowed(chain, domino, deps)
  {
    var idx := IndexOf(chain, domino);
    if idx < 0 {
      return false;
    }
    for i := 0 to |deps|
      invariant forall j :: 0 <= j < i ==> InCausalPast(chain, domino, deps[j])
    {
      var name := deps[i];
      if name == "snapshot" || name == "" {
        continue;
      }
      var src := IndexOf(chain, name);
      if src < 0 || src >= idx {
        assert name in deps && !InCausalPast(chain, domino, name);
        return false;
      }
    }
    return true;
  }

  function InputReads(inputs: seq<Input>): seq<string> {
    if inputs == [] then []
    else (if inputs[0].fromDomino != "" then [inputs[0].fromDomino] else []) + InputReads(inputs[1..])
  }

  function DeclaredReads(d: Domino): seq<string> {
    InputReads(d.inputs) + d.dependsOn
  }

  // ---- Purity gate ----

  datatype Regularity = Contract | Pinned | Builtin

  function CommandRegularity(command: string): Regularity {
    if HasPrefix(command, "builtin:") then Builtin
    else if HasPrefix(command, "julia:") then Pinned
    else Contract
  }

  predicate AllowDeterministic(command: string, sandbox: Sandbox) {
    CommandRegularity(command) != Contract || (sandbox.networkNone && sandbox.readOnlyRoot)
  }
}
