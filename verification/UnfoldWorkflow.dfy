/** WorkflowFromUnfold compiles an aggregation tree to a post-order chain; running it folds the tree. */
module UnfoldWorkflow {
  import opened Basics
  import opened Runtime
  import opened StoreModel
  import opened Workflows
  import opened EngineSpec
  import opened MemoTransparency
  import opened Aggregation
  import opened Builtins

  // ---- The compiler ----

  function ChildInputs(ns: seq<Node>): seq<Input> {
    if ns == [] then [] else [Input(ns[0].name, "")] + ChildInputs(ns[1..])
  }

  function NamesOf(ns: seq<Node>): seq<string> {
    if ns == [] then [] else [ns[0].name] + NamesOf(ns[1..])
  }

  function DominoOf(n: Node): Domino {
    if IsLeaf(n) then Domino(n.name, "builtin:identity", [Input("", "snap")], [])
    else Domino(n.name, "builtin:coarsen", ChildInputs(n.children), NamesOf(n.children))
  }

  function DominosOf(n: Node): seq<Domino>
    decreases n, 1
  {
    DominosOfEach(n.children) + [DominoOf(n)]
  }

  function DominosOfEach(ns: seq<Node>): seq<Domino>
    decreases ns, 0
  {
    if ns == [] then [] else DominosOf(ns[0]) + DominosOfEach(ns[1..])
  }

  /** The variables that the walk over the tree appends to. */
  class Collector {
    var dominos: seq<Domino>
    var chain: seq<string>

    constructor ()
      ensures dominos == [] && chain == []
    {
      dominos, chain := [], [];
    }

    method Walk(n: Node)
      modifies this
      ensures dominos == old(dominos) + DominosOf(n) && chain == old(chain) + PostOrder(n)
      decreases n, 1
    {
      WalkChildren(n.children);
      var d := DominoFromNode(n);
      dominos := dominos + [d];
      chain := chain + [n.name];
    }

    /** The loop over the children. */
    method WalkChildren(ns: seq<Node>)
      modifies this
      ensures dominos == old(dominos) + DominosOfEach(ns) && chain == old(chain) + PostOrderOfEach(ns)
      decreases ns, 0
    {
      assert ns[0..] == ns;
      for i := 0 to |ns|
        invariant dominos + DominosOfEach(ns[i..]) == old(dominos) + DominosOfEach(ns)
        invariant chain + PostOrderOfEach(ns[i..]) == old(chain) + PostOrderOfEach(ns)
      {
        assert ns[i..][0] == ns[i] && ns[i..][1..] == ns[i + 1..];
        AppendAssociates(dominos, DominosOf(ns[i]), DominosOfEach(ns[i + 1..]));
        AppendAssociates(chain, PostOrder(ns[i]), PostOrderOfEach(ns[i + 1..]));
        Walk(ns[i]);
      }
      assert ns[|ns|..] == [];
    }
  }

  /** The domino of one node: it reads the snapshot at a leaf, and the children elsewhere. */
  method DominoFromNode(n: Node) returns (d: Domino)
    ensures d == DominoOf(n)
  {
    var ns := n.children;
    if |ns| == 0 {
      return Domino(n.name, "builtin:identity", [Input("", "snap")], []);
    }
    var deps: seq<string>, inputs: seq<Input> := [], [];
    for i := 0 to |ns|
      invariant inputs + ChildInputs(ns[i..]) == ChildInputs(ns)
      invariant deps + NamesOf(ns[i..]) == NamesOf(ns)
    {
      assert ns[i..][1..] == ns[i + 1..];
      deps := deps + [ns[i].name];
      inputs := inputs + [Input(ns[i].name, "")];
    }
    return Domino(n.name, "builtin:coarsen", inputs, deps);
  }

  function Compiled(depth: int, arity: int, snap: Snapshot): Workflow {
    var root := Unfold(depth, arity, "n", 1.0);
    Workflow(snap, DominosOf(root), PostOrder(root), true, Sandbox(false, false))
  }

  method WorkflowFromUnfold(depth: int, arity: int, snap: Snapshot) returns (wf: Workflow)
    ensures wf == Compiled(depth, arity, snap)
  {
    var c := new Collector();
    c.Walk(Unfold(depth, arity, "n", 1.0));
    wf := Workflow(snap, c.dominos, c.chain, true, Sandbox(false, false));
  }

  // ---- The compiled workflow is well formed ----

  lemma {:induction false} NamesOfDominos(n: Node)
    ensures Names(DominosOf(n)) == PostOrder(n)
    decreases n, 1
  {
    NamesOfDominosEach(n.children);
    assert Names(DominosOfEach(n.children) + [DominoOf(n)]) == Names(DominosOfEach(n.children)) + [n.name];
  }

  lemma {:induction false} NamesOfDominosEach(ns: seq<Node>)
    ensures Names(DominosOfEach(ns)) == PostOrderOfEach(ns)
    decreases ns, 0
  {
    if ns != [] {
      NamesOfDominos(ns[0]);
      NamesOfDominosEach(ns[1..]);
      assert Names(DominosOf(ns[0]) + DominosOfEach(ns[1..])) == Names(DominosOf(ns[0])) + Names(DominosOfEach(ns[1..]));
    }
  }

  /** Every node has its domino, and stands after its children in the chain. */
  ghost predicate Embedded(wf: Workflow, n: Node)
    decreases n, 1
  {
    && n.name != "" && n.name in wf.chain
    && FindDomino(wf.dominos, n.name) == Some(DominoOf(n))
    && EmbeddedEach(wf, n.name, n.children)
  }

  ghost predicate EmbeddedEach(wf: Workflow, parent: string, ns: seq<Node>)
    decreases ns, 0
  {
    ns == [] ||
    (&& Embedded(wf, ns[0])
     && InCausalPast(wf.chain, parent, ns[0].name)
     && EmbeddedEach(wf, parent, ns[1..]))
  }

  lemma {:induction false} EmbeddedCons(wf: Workflow, parent: string, ns: seq<Node>)
    requires ns != [] && Embedded(wf, ns[0]) && InCausalPast(wf.chain, parent, ns[0].name)
    requires EmbeddedEach(wf, parent, ns[1..])
    ensures EmbeddedEach(wf, parent, ns)
  {
  }

  /** The tree occupies the chain and the dominos from position pos on. */
  ghost predicate Occupies<T>(all: seq<T>, pos: nat, part: seq<T>) {
    pos + |part| <= |all| && all[pos..pos + |part|] == part
  }

  lemma {:induction false} OccupiesSplit<T>(all: seq<T>, pos: nat, a: seq<T>, b: seq<T>)
    requires Occupies(all, pos, a + b)
    ensures Occupies(all, pos, a) && Occupies(all, pos + |a|, b)
  {
    var s := all[pos..pos + |a + b|];
    assert all[pos..pos + |a|] == s[..|a|] == a;
    assert all[pos + |a|..pos + |a| + |b|] == s[|a|..] == b;
  }

  lemma {:induction false} Embed(wf: Workflow, n: Node, pos: nat)
    requires ChainOk(wf.chain) && Names(wf.dominos) == wf.chain
    requires Occupies(wf.chain, pos, PostOrder(n)) && Occupies(wf.dominos, pos, DominosOf(n))
    ensures Embedded(wf, n) && IndexOf(wf.chain, n.name) == pos + |PostOrder(n)| - 1
    decreases n, 1
  {
    var below := PostOrderOfEach(n.children);
    OccupiesSplit(wf.chain, pos, below, [n.name]);
    OccupiesSplit(wf.dominos, pos, DominosOfEach(n.children), [DominoOf(n)]);
    NamesOfDominosEach(n.children);
    assert |DominosOfEach(n.children)| == |below|;
    var k := pos + |below|;
    assert wf.chain[k] == n.name && wf.dominos[k] == DominoOf(n);
    IndexOfDistinct(wf.chain, k);
    FindDominoUnique(wf.dominos, k);
    EmbedEach(wf, n.name, n.children, pos);
  }

  lemma {:induction false} PlacedCons(wf: Workflow, pos: nat, ns: seq<Node>)
    requires ns != []
    requires Occupies(wf.chain, pos, PostOrderOfEach(ns)) && Occupies(wf.dominos, pos, DominosOfEach(ns))
    ensures var size := |PostOrder(ns[0])|;
      && |PostOrderOfEach(ns)| == size + |PostOrderOfEach(ns[1..])|
      && Occupies(wf.chain, pos, PostOrder(ns[0])) && Occupies(wf.dominos, pos, DominosOf(ns[0]))
      && Occupies(wf.chain, pos + size, PostOrderOfEach(ns[1..]))
      && Occupies(wf.dominos, pos + size, DominosOfEach(ns[1..]))
  {
    var n := ns[0];
    NamesOfDominos(n);
    assert |Names(DominosOf(n))| == |DominosOf(n)|;
    OccupiesSplit(wf.chain, pos, PostOrder(n), PostOrderOfEach(ns[1..]));
    OccupiesSplit(wf.dominos, pos, DominosOf(n), DominosOfEach(ns[1..]));
  }

  lemma {:induction false} EmbedEach(wf: Workflow, parent: string, ns: seq<Node>, pos: nat)
    requires ChainOk(wf.chain) && Names(wf.dominos) == wf.chain
    requires Occupies(wf.chain, pos, PostOrderOfEach(ns)) && Occupies(wf.dominos, pos, DominosOfEach(ns))
    requires pos + |PostOrderOfEach(ns)| <= IndexOf(wf.chain, parent)
    ensures EmbeddedEach(wf, parent, ns)
    decreases ns, 0
  {
    if ns != [] {
      PlacedCons(wf, pos, ns);
      Embed(wf, ns[0], pos);
      EmbedEach(wf, parent, ns[1..], pos + |PostOrder(ns[0])|);
      EmbeddedCons(wf, parent, ns);
    }
  }

  lemma {:induction false} CompiledIsWellFormed(depth: int, arity: int, snap: Snapshot)
    ensures var wf := Compiled(depth, arity, snap);
      && |wf.chain| == NodeCount(depth, arity)
      && wf.chain != [] && ChainOk(wf.chain) && DominosOk(wf.dominos)
      && Embedded(wf, Unfold(depth, arity, "n", 1.0))
  {
    var wf := Compiled(depth, arity, snap);
    var root := Unfold(depth, arity, "n", 1.0);
    NodeCountIsExact(depth, arity, "n", 1.0);
    LabelsDistinct(depth, arity, "n", 1.0);
    assert !Under("n", "");
    NamesOfDominos(root);
    assert wf.chain[0..|wf.chain|] == wf.chain && wf.dominos[0..|wf.dominos|] == wf.dominos;
    assert |wf.dominos| == |Names(wf.dominos)|;
    Embed(wf, root, 0);
  }

  // ---- Running the compiled workflow folds the tree ----

  /** The recursive fold: every leaf contributes w. */
  function FoldTree(n: Node, w: real): real
    decreases n, 1
  {
    if IsLeaf(n) then w else FoldEach(n.children, w)
  }

  function FoldEach(ns: seq<Node>, w: real): real
    decreases ns, 0
  {
    if ns == [] then 0.0 else FoldTree(ns[0], w) + FoldEach(ns[1..], w)
  }

  /** The output of the name is the text of an object with this numeric value. */
  ghost predicate Computed(rt: Runtime, outputs: map<string, string>, name: string, value: real) {
    && name in outputs
    && var v := OutputValue(rt, outputs[name]);
       v.Obj? && NumericValue(v) == value
  }

  ghost predicate ComputedEach(rt: Runtime, outputs: map<string, string>, ns: seq<Node>, w: real) {
    ns == [] || (Computed(rt, outputs, ns[0].name, FoldTree(ns[0], w)) && ComputedEach(rt, outputs, ns[1..], w))
  }

  ghost predicate SameOutputs(a: map<string, string>, b: map<string, string>, except: seq<string>) {
    forall x :: x !in except ==> (x in a <==> x in b) && (x in a ==> a[x] == b[x])
  }

  /** What the lemmas below assume of the run: snapshot content v of value w, and the builtins. */
  ghost predicate Setting(rt: Runtime, wf: Workflow, v: Json, w: real) {
    JsonLaws(rt) && RunsBuiltins(rt) && v.Obj? && NumericValue(v) == w
  }

  lemma {:induction false} PartsAppend(rt: Runtime, a: seq<Input>, b: seq<Input>, v: Json, outputs: map<string, string>)
    requires Parts(rt, a, v, outputs).Success? && Parts(rt, b, v, outputs).Success?
    ensures Parts(rt, a + b, v, outputs) == Success(Parts(rt, a, v, outputs).value + Parts(rt, b, v, outputs).value)
    decreases |b|
  {
    var all := Parts(rt, a, v, outputs).value;
    if b == [] {
      assert a + b == a && all + [] == all;
    } else {
      var n := |b| - 1;
      assert (a + b)[..|a + b| - 1] == a + b[..n];
      PartsAppend(rt, a, b[..n], v, outputs);
      var x, y, z := Parts(rt, a, v, outputs).value, Parts(rt, b[..n], v, outputs).value, InputParts(rt, b[n], v, outputs).value;
      assert x + y + z == x + (y + z);
    }
  }

  lemma {:induction false} PartsOfOne(rt: Runtime, input: Input, v: Json, outputs: map<string, string>)
    ensures Parts(rt, [input], v, outputs) == InputParts(rt, input, v, outputs)
  {
    assert [input][..0] == [];
    assert Parts(rt, [], v, outputs) == Success([]);
    var last := InputParts(rt, input, v, outputs);
    assert last.Success? ==> [] + last.value == last.value;
  }

  function ChildValues(rt: Runtime, outputs: map<string, string>, ns: seq<Node>): seq<Json> {
    if ns == [] then [] else [OutputValue(rt, OutputOf(outputs, ns[0].name))] + ChildValues(rt, outputs, ns[1..])
  }

  lemma {:induction false} PartsOfChildren(rt: Runtime, wf: Workflow, parent: string, ns: seq<Node>, v: Json, w: real, outputs: map<string, string>)
    requires EmbeddedEach(wf, parent, ns) && ComputedEach(rt, outputs, ns, w)
    ensures Parts(rt, ChildInputs(ns), v, outputs) == Success(ChildValues(rt, outputs, ns))
    ensures |ChildValues(rt, outputs, ns)| == |ns|
    ensures forall x :: x in ChildValues(rt, outputs, ns) ==> x.Obj?
    decreases |ns|
  {
    if ns != [] {
      PartsOfChildren(rt, wf, parent, ns[1..], v, w, outputs);
      var first := [Input(ns[0].name, "")];
      PartsOfOne(rt, first[0], v, outputs);
      PartsAppend(rt, first, ChildInputs(ns[1..]), v, outputs);
    }
  }

  lemma {:induction false} SumCons(x: Json, items: seq<Json>)
    ensures SumOf([x] + items) == NumericValue(x) + SumOf(items)
    decreases |items|
  {
    var all := [x] + items;
    if items == [] {
      assert all[..0] == [];
    } else {
      assert all[..|all| - 1] == [x] + items[..|items| - 1];
      SumCons(x, items[..|items| - 1]);
    }
  }

  lemma {:induction false} SumOfChildren(rt: Runtime, outputs: map<string, string>, ns: seq<Node>, w: real)
    requires ComputedEach(rt, outputs, ns, w)
    ensures SumOf(ChildValues(rt, outputs, ns)) == FoldEach(ns, w)
    decreases |ns|
  {
    if ns != [] {
      SumOfChildren(rt, outputs, ns[1..], w);
      SumCons(OutputValue(rt, OutputOf(outputs, ns[0].name)), ChildValues(rt, outputs, ns[1..]));
    }
  }

  lemma {:induction false} ChildReads(wf: Workflow, parent: string, ns: seq<Node>)
    requires EmbeddedEach(wf, parent, ns)
    ensures InputReads(ChildInputs(ns)) == NamesOf(ns)
    ensures forall r :: r in NamesOf(ns) ==> InCausalPast(wf.chain, parent, r)
    decreases |ns|
  {
    if ns != [] {
      ChildReads(wf, parent, ns[1..]);
      assert ChildInputs(ns)[1..] == ChildInputs(ns[1..]);
    }
  }

  lemma {:induction false} BuiltinsAllowed(sandbox: Sandbox)
    ensures AllowDeterministic("builtin:identity", sandbox) && AllowDeterministic("builtin:coarsen", sandbox)
  {
    assert "builtin:identity"[..8] == "builtin:";
    assert "builtin:coarsen"[..8] == "builtin:";
  }

  /** The step of a leaf puts out the snapshot. */
  lemma {:induction false} LeafStep(rt: Runtime, wf: Workflow, id: string, v: Json, w: real, n: Node, t: Thread)
    requires Setting(rt, wf, v, w) && Embedded(wf, n) && IsLeaf(n)
    ensures var p := PlainStep(rt, wf, id, v, n.name, t);
      p.fault.None? && Computed(rt, p.thread.outputs, n.name, w) && SameOutputs(t.outputs, p.thread.outputs, [n.name])
  {
    BuiltinsAllowed(wf.sandbox);
    var d := DominoOf(n);
    assert d.inputs[1..] == [];
    assert DeclaredReads(d) == [];
    PartsOfOne(rt, d.inputs[0], v, t.outputs);
    var none: seq<Json> := [];
    assert none + [v] == [v];
    assert InputParts(rt, d.inputs[0], v, t.outputs) == Success([v]);
    assert Parts(rt, d.inputs, v, t.outputs) == Success([v]);
    var job := PlainJob(rt, wf, v, n.name, t.outputs);
    assert job == Success(Job("builtin:identity", rt.marshal(v)));
    IdentityOfMarshal(rt, v);
  }

  /** The step of an inner node puts out the sum over its children. */
  lemma {:induction false} InnerStep(rt: Runtime, wf: Workflow, id: string, v: Json, w: real, n: Node, t: Thread)
    requires Setting(rt, wf, v, w) && Embedded(wf, n) && !IsLeaf(n)
    requires ComputedEach(rt, t.outputs, n.children, w)
    ensures var p := PlainStep(rt, wf, id, v, n.name, t);
      p.fault.None? && Computed(rt, p.thread.outputs, n.name, FoldTree(n, w)) && SameOutputs(t.outputs, p.thread.outputs, [n.name])
  {
    BuiltinsAllowed(wf.sandbox);
    var d := DominoOf(n);
    ChildReads(wf, n.name, n.children);
    assert ReadsAllowed(wf.chain, n.name, DeclaredReads(d));
    PartsOfChildren(rt, wf, n.name, n.children, v, w, t.outputs);
    SumOfChildren(rt, t.outputs, n.children, w);
    var parts := ChildValues(rt, t.outputs, n.children);
    var value := if |parts| == 1 then parts[0] else Arr(parts);
    assert |parts| == 1 ==> parts[0] in parts;
    var job := PlainJob(rt, wf, v, n.name, t.outputs);
    assert d.inputs != [];
    assert job == Success(Job("builtin:coarsen", rt.marshal(value)));
    CoarsenOfMarshal(rt, value);
    assert CoarsenItems(value) == parts;
    CoarsenResultValue(SumOf(parts), |parts|);
  }

  lemma {:induction false} RunTree(rt: Runtime, wf: Workflow, id: string, v: Json, w: real, n: Node, t: Thread)
    requires Setting(rt, wf, v, w) && Embedded(wf, n) && Distinct(PostOrder(n))
    ensures var p := PlainSteps(rt, wf, id, v, PostOrder(n), t);
      p.fault.None? && Computed(rt, p.thread.outputs, n.name, FoldTree(n, w)) && SameOutputs(t.outputs, p.thread.outputs, PostOrder(n))
    decreases n, 1
  {
    var below := PostOrderOfEach(n.children);
    DistinctAppend(below, [n.name]);
    RunForest(rt, wf, id, v, w, n.name, n.children, t);
    var mid := PlainSteps(rt, wf, id, v, below, t).thread;
    if IsLeaf(n) {
      LeafStep(rt, wf, id, v, w, n, mid);
    } else {
      InnerStep(rt, wf, id, v, w, n, mid);
    }
    PlainStepsAppend(rt, wf, id, v, below, [n.name], t);
    assert [n.name][1..] == [];
  }

  lemma {:induction false} RunForest(rt: Runtime, wf: Workflow, id: string, v: Json, w: real, parent: string, ns: seq<Node>, t: Thread)
    requires Setting(rt, wf, v, w) && EmbeddedEach(wf, parent, ns) && Distinct(PostOrderOfEach(ns))
    ensures var p := PlainSteps(rt, wf, id, v, PostOrderOfEach(ns), t);
      p.fault.None? && ComputedEach(rt, p.thread.outputs, ns, w) && SameOutputs(t.outputs, p.thread.outputs, PostOrderOfEach(ns))
    decreases ns, 0
  {
    if ns != [] {
      var a, b := PostOrder(ns[0]), PostOrderOfEach(ns[1..]);
      DistinctAppend(a, b);
      RunTree(rt, wf, id, v, w, ns[0], t);
      var mid := PlainSteps(rt, wf, id, v, a, t).thread;
      RunForest(rt, wf, id, v, w, parent, ns[1..], mid);
      PlainStepsAppend(rt, wf, id, v, a, b, t);
      assert ns[0].name in a;
    }
  }

  /** What a window of these dimensions folds to, level by level. */
  ghost function WindowTotal(depth: int, arity: int, w: real): real
    decreases depth
  {
    if depth <= 0 || arity <= 0 then w else Repeated(arity, WindowTotal(depth - 1, arity, w))
  }

  lemma {:induction false} FoldWindow(depth: int, arity: int, name: string, value: real, w: real)
    ensures FoldTree(Unfold(depth, arity, name, value), w) == WindowTotal(depth, arity, w)
    decreases depth, 0
  {
    if depth > 0 && arity > 0 {
      var share := value / arity as real;
      FoldWindowFrom(depth, arity, name, share, 0, w);
      UnfoldStep(depth, arity, name, share, 0);
    }
  }

  lemma {:induction false} FoldWindowFrom(depth: int, arity: int, name: string, share: real, i: nat, w: real)
    requires depth > 0 && arity > 0 && i <= arity
    ensures FoldEach(UnfoldFrom(depth, arity, name, share, i), w) == Repeated(arity - i, WindowTotal(depth - 1, arity, w))
    decreases depth - 1, arity - i + 1
  {
    if i < arity {
      FoldWindow(depth - 1, arity, ChildLabel(name, i), share, w);
      FoldWindowFrom(depth, arity, name, share, i + 1, w);
      UnfoldStep(depth, arity, name, share, i);
    }
  }

  lemma {:induction false} WindowTotalIsProduct(depth: int, arity: int, w: real)
    ensures WindowTotal(depth, arity, w) == LeafCount(depth, arity) as real * w
    decreases depth
  {
    if depth > 0 && arity > 0 {
      var each := WindowTotal(depth - 1, arity, w);
      WindowTotalIsProduct(depth - 1, arity, w);
      RepeatedIsProduct(arity, each);
      LeafCountStep(depth, arity);
      ScaleLeaves(LeafCount(depth, arity) as real, arity as real, LeafCount(depth - 1, arity) as real, w, each);
    }
  }

  /** A window folds to the number of its leaves times the value at each. */
  lemma {:induction false} FoldUnfold(depth: int, arity: int, name: string, value: real, w: real)
    ensures FoldTree(Unfold(depth, arity, name, value), w) == LeafCount(depth, arity) as real * w
  {
    FoldWindow(depth, arity, name, value, w);
    WindowTotalIsProduct(depth, arity, w);
  }

  lemma {:induction false} LeafCountStep(depth: int, arity: int)
    requires depth > 0 && arity > 0
    ensures LeafCount(depth, arity) as real == arity as real * LeafCount(depth - 1, arity) as real
  {
    var below := Pow(arity, depth - 1);
    assert below == LeafCount(depth - 1, arity);
    MulAsReal(arity, below);
  }

  lemma {:induction false} MulAsReal(a: nat, b: int)
    ensures (a * b) as real == a as real * b as real
  {
    if a > 0 {
      MulAsReal(a - 1, b);
      assert a * b == (a - 1) * b + b;
    }
  }

  lemma {:induction false} ScaleLeaves(n: real, a: real, b: real, w: real, each: real)
    requires n == a * b && each == b * w
    ensures n * w == a * each
  {
    assert (a * b) * w == a * (b * w);
  }

  // ---- Compiler correctness ----

  /** The memo-free fold of the chain of a tree is the recursive fold of the tree. */
  lemma {:induction false} RunRoot(rt: Runtime, wf: Workflow, id: string, v: Json, root: Node)
    requires JsonLaws(rt) && RunsBuiltins(rt) && v.Obj?
    requires ChainOk(wf.chain) && DominosOk(wf.dominos)
    requires wf.chain == PostOrder(root) && Embedded(wf, root)
    ensures var r := PlainRun(rt, wf, id, v);
      && r.Success? && |r.value.entries| == |wf.chain|
      && NumericValue(OutputValue(rt, r.value.finalOutput)) == FoldTree(root, NumericValue(v))
  {
    var start := Thread(map[], id, []);
    RunTree(rt, wf, id, v, NumericValue(v), root, start);
    PlainEntries(rt, wf, id, v, wf.chain, start);
    assert wf.chain[|wf.chain| - 1] == root.name;
  }

  lemma {:induction false} PlainEntries(rt: Runtime, wf: Workflow, id: string, v: Json, names: seq<string>, t: Thread)
    ensures var p := PlainSteps(rt, wf, id, v, names, t);
      p.fault.None? ==> |p.thread.entries| == |t.entries| + |names|
    decreases |names|
  {
    if names != [] && PlainStep(rt, wf, id, v, names[0], t).fault.None? {
      PlainEntries(rt, wf, id, v, names[1..], PlainStep(rt, wf, id, v, names[0], t).thread);
    }
  }

  /** The dominos of a compiled workflow are the two builtins. */
  lemma {:induction false} CompiledCommands(n: Node)
    ensures forall d :: d in DominosOf(n) ==> d.command == "builtin:identity" || d.command == "builtin:coarsen"
    decreases n, 1
  {
    CompiledCommandsEach(n.children);
  }

  lemma {:induction false} CompiledCommandsEach(ns: seq<Node>)
    ensures forall d :: d in DominosOfEach(ns) ==> d.command == "builtin:identity" || d.command == "builtin:coarsen"
    decreases ns, 0
  {
    if ns != [] {
      CompiledCommands(ns[0]);
      CompiledCommandsEach(ns[1..]);
    }
  }

  lemma {:induction false} CompiledIsPure(rt: Runtime, depth: int, arity: int, snap: Snapshot)
    requires RunsBuiltins(rt)
    ensures Pure(rt, Compiled(depth, arity, snap).dominos)
  {
    CompiledCommands(Unfold(depth, arity, "n", 1.0));
    assert PureCommand(rt, "builtin:identity") && PureCommand(rt, "builtin:coarsen");
  }

  /** A memo without entries of the snapshot is honest on every chain. */
  lemma {:induction false} FreshIsHonest(rt: Runtime, wf: Workflow, id: string, v: Json, names: seq<string>, t: Thread, memo: map<MemoKey, MemoValue>)
    requires forall k :: k in memo ==> k.snapshotId != id
    ensures Honest(rt, wf, id, v, names, t, memo)
    decreases |names|
  {
    if names != [] {
      var job := PlainJob(rt, wf, v, names[0], t.outputs);
      if job.Success? && PlainStep(rt, wf, id, v, names[0], t).fault.None? {
        FreshIsHonest(rt, wf, id, v, names[1..], PlainStep(rt, wf, id, v, names[0], t).thread, memo);
      }
    }
  }

  /** The run succeeded after so many steps, and its final output carries the value. */
  ghost predicate FoldsTo(rt: Runtime, r: Result<RunResult>, steps: int, value: real) {
    r.Success? && |r.value.entries| == steps && NumericValue(OutputValue(rt, r.value.finalOutput)) == value
  }

  /** The workflow runs the builtins over the whole tree: so many steps, and this value at the root. */
  ghost predicate Computes(rt: Runtime, wf: Workflow, root: Node, steps: int, value: real) {
    && Pure(rt, wf.dominos) && ChainOk(wf.chain) && DominosOk(wf.dominos)
    && wf.snapshot.sealed && wf.snapshot.source.Inline? && wf.snapshot.statusId == ""
    && wf.chain == PostOrder(root) && Embedded(wf, root)
    && |wf.chain| == steps && FoldTree(root, NumericValue(InlineValue(wf.snapshot))) == value
  }

  lemma {:induction false} ComputesIf(rt: Runtime, wf: Workflow, root: Node, steps: int, w: real, value: real)
    requires Pure(rt, wf.dominos) && ChainOk(wf.chain) && DominosOk(wf.dominos)
    requires wf.snapshot.sealed && wf.snapshot.source.Inline? && wf.snapshot.statusId == ""
    requires wf.chain == PostOrder(root) && Embedded(wf, root)
    requires |wf.chain| == steps && w == NumericValue(InlineValue(wf.snapshot)) && FoldTree(root, w) == value
    ensures Computes(rt, wf, root, steps, value)
  {
  }

  lemma {:induction false} RunFoldsTree(rt: Runtime, ticks: nat, st: Store, wf: Workflow, root: Node, steps: int, value: real)
    requires JsonLaws(rt) && DigestLaws(rt) && RunsBuiltins(rt)
    requires Computes(rt, wf, root, steps, value) && Accepts(rt, st, wf)
    ensures FoldsTo(rt, Run(rt, ticks, st, wf).result, steps, value)
  {
    InlineRunIsPlain(rt, ticks, st, wf);
    RunRoot(rt, wf, InlineId(rt, wf.snapshot), InlineValue(wf.snapshot), root);
  }

  lemma {:induction false} CompiledComputes(rt: Runtime, depth: int, arity: int, snap: Snapshot)
    requires RunsBuiltins(rt)
    requires snap.sealed && snap.source.Inline? && snap.statusId == ""
    ensures Computes(rt, Compiled(depth, arity, snap), Unfold(depth, arity, "n", 1.0), NodeCount(depth, arity),
                     LeafCount(depth, arity) as real * NumericValue(InlineValue(snap)))
  {
    CompiledIsPure(rt, depth, arity, snap);
    CompiledIsWellFormed(depth, arity, snap);
    var w := NumericValue(InlineValue(snap));
    FoldUnfold(depth, arity, "n", 1.0, w);
    ComputesIf(rt, Compiled(depth, arity, snap), Unfold(depth, arity, "n", 1.0), NodeCount(depth, arity), w,
               LeafCount(depth, arity) as real * w);
  }

  /**
  Compiler correctness: for every depth, arity and sealed inline snapshot, a run of the compiled
  workflow is never rejected, takes NodeCount steps and puts out LeafCount times the snapshot's
  value. It suffices that the memo is honest on the chain, and that no other content is sealed
  under the snapshot ID.
  */
  lemma {:induction false} CompiledRunFolds(rt: Runtime, ticks: nat, st: Store, depth: int, arity: int, snap: Snapshot)
    requires JsonLaws(rt) && DigestLaws(rt) && RunsBuiltins(rt)
    requires snap.sealed && snap.source.Inline? && snap.statusId == ""
    requires Accepts(rt, st, Compiled(depth, arity, snap))
    ensures FoldsTo(rt, Run(rt, ticks, st, Compiled(depth, arity, snap)).result, NodeCount(depth, arity),
                    LeafCount(depth, arity) as real * NumericValue(InlineValue(snap)))
  {
    CompiledComputes(rt, depth, arity, snap);
    RunFoldsTree(rt, ticks, st, Compiled(depth, arity, snap), Unfold(depth, arity, "n", 1.0), NodeCount(depth, arity),
                 LeafCount(depth, arity) as real * NumericValue(InlineValue(snap)));
  }

  /** In particular on a store that knows nothing of the snapshot. */
  lemma {:induction false} CompiledRunOnFreshStore(rt: Runtime, ticks: nat, st: Store, depth: int, arity: int, snap: Snapshot)
    requires JsonLaws(rt) && DigestLaws(rt) && RunsBuiltins(rt)
    requires snap.sealed && snap.source.Inline? && snap.statusId == ""
    requires InlineId(rt, snap) !in st.snapshots && forall k :: k in st.memo ==> k.snapshotId != InlineId(rt, snap)
    ensures FoldsTo(rt, Run(rt, ticks, st, Compiled(depth, arity, snap)).result, NodeCount(depth, arity),
                    LeafCount(depth, arity) as real * NumericValue(InlineValue(snap)))
  {
    var wf := Compiled(depth, arity, snap);
    var id := InlineId(rt, snap);
    FreshIsHonest(rt, wf, id, InlineValue(snap), wf.chain, Thread(map[], id, []), st.memo);
    CompiledRunFolds(rt, ticks, st, depth, arity, snap);
  }
}

/** Compiled windows can also run as standalone dominos: what each one reads, it also depends on. */
module CompiledDominos {
  import opened Basics
  import opened Runtime
  import opened StoreModel
  import opened Workflows
  import opened EngineSpec
  import opened Pinning
  import opened Exactness
  import opened Aggregation
  import opened UnfoldWorkflow
  import opened DominoSpec
  import opened DominoTheorems

  /** The domino of node n reads the outputs of its children in order, or the snapshot where it has none. */
  lemma {:induction false} ReadsChildren(n: Node, i: nat)
    requires i < |n.children|
    ensures var d := DominoOf(n);
      && |d.inputs| == |n.children| == |d.dependsOn|
      && d.inputs[i] == Input(n.children[i].name, "") && d.dependsOn[i] == n.children[i].name
  {
    ChildrenInOrder(n.children, i);
  }

  lemma {:induction false} ChildrenInOrder(ns: seq<Node>, i: nat)
    requires i < |ns|
    ensures |ChildInputs(ns)| == |ns| == |NamesOf(ns)|
    ensures ChildInputs(ns)[i] == Input(ns[i].name, "") && NamesOf(ns)[i] == ns[i].name
  {
    if |ns| > 1 {
      ChildrenInOrder(ns[1..], if i == 0 then 0 else i - 1);
    } else {
      assert ns[1..] == [];
    }
  }

  /** Siblings stand in the chain from left to right. */
  lemma {:induction false} SiblingsInOrder(a: seq<Node>, b: seq<Node>)
    ensures PostOrderOfEach(a + b) == PostOrderOfEach(a) + PostOrderOfEach(b)
  {
    if a == [] {
      assert a + b == b;
    } else {
      assert (a + b)[1..] == a[1..] + b;
      SiblingsInOrder(a[1..], b);
    }
  }

  /** The domino of the name depends on what it reads, all of it earlier in the chain, and runs a builtin. */
  ghost predicate DependsEarlier(wf: Workflow, name: string) {
    var found := FindDomino(wf.dominos, name);
    && found.Some? && found.value.command in {"builtin:identity", "builtin:coarsen"}
    && (forall dep :: dep in found.value.dependsOn ==> 0 <= IndexOf(wf.chain, dep) < IndexOf(wf.chain, name))
    && (forall input :: input in found.value.inputs && input.fromDomino != "" ==> input.fromDomino in found.value.dependsOn)
  }

  lemma {:induction false} UnderIsNoSnapshot(x: string)
    requires Under("n", x)
    ensures x != "" && x != "snapshot"
  {
    var y := x + ".";
    assert y[..2] == "n" + ".";
    assert y[0] == ("n" + ".")[0] == 'n';
  }

  lemma {:induction false} ChildrenDepend(wf: Workflow, parent: string, ns: seq<Node>)
    requires EmbeddedEach(wf, parent, ns) && forall x :: x in PostOrderOfEach(ns) ==> Under("n", x)
    ensures forall dep :: dep in NamesOf(ns) ==> 0 <= IndexOf(wf.chain, dep) < IndexOf(wf.chain, parent)
    ensures forall input :: input in ChildInputs(ns) ==> input.fromDomino in NamesOf(ns)
  {
    if ns != [] {
      var x := ns[0].name;
      assert x in PostOrder(ns[0]);
      UnderIsNoSnapshot(x);
      ChildrenDepend(wf, parent, ns[1..]);
    }
  }

  lemma {:induction false} NodesDepend(wf: Workflow, n: Node)
    requires Embedded(wf, n) && forall x :: x in PostOrder(n) ==> Under("n", x)
    ensures forall name :: name in PostOrder(n) ==> DependsEarlier(wf, name)
    decreases n, 1
  {
    ChildrenDepend(wf, n.name, n.children);
    EachDepends(wf, n.name, n.children);
  }

  lemma {:induction false} EachDepends(wf: Workflow, parent: string, ns: seq<Node>)
    requires EmbeddedEach(wf, parent, ns) && forall x :: x in PostOrderOfEach(ns) ==> Under("n", x)
    ensures forall name :: name in PostOrderOfEach(ns) ==> DependsEarlier(wf, name)
    decreases ns, 0
  {
    if ns != [] {
      NodesDepend(wf, ns[0]);
      EachDepends(wf, parent, ns[1..]);
    }
  }

  /** The compiled workflow is deterministic, ends in the root, and meets what standalone dominos ask for. */
  lemma {:induction false} CompiledIsWired(depth: int, arity: int, snap: Snapshot)
    ensures var wf := Compiled(depth, arity, snap);
      && wf.snapshot == snap && wf.deterministic && ChainOk(wf.chain) && DominosOk(wf.dominos)
      && wf.chain != [] && wf.chain[|wf.chain| - 1] == "n" && Wired(wf)
      && forall d :: d in wf.dominos ==> d.command in {"builtin:identity", "builtin:coarsen"}
  {
    var wf := Compiled(depth, arity, snap);
    CompiledIsWellFormed(depth, arity, snap);
    LabelsDistinct(depth, arity, "n", 1.0);
    NodesDepend(wf, Unfold(depth, arity, "n", 1.0));
    NamesOfDominos(Unfold(depth, arity, "n", 1.0));
    forall d | d in wf.dominos
      ensures d.command in {"builtin:identity", "builtin:coarsen"}
    {
      var k :| 0 <= k < |wf.dominos| && wf.dominos[k] == d;
      FindDominoUnique(wf.dominos, k);
      assert Names(wf.dominos)[k] == d.name;
      assert DependsEarlier(wf, d.name);
    }
    forall i: nat | i < |wf.chain|
      ensures WiredAt(wf, i)
    {
      DependsIsWired(wf, i);
    }
  }

  lemma {:induction false} DependsIsWired(wf: Workflow, i: nat)
    requires ChainOk(wf.chain) && i < |wf.chain| && DependsEarlier(wf, wf.chain[i])
    ensures WiredAt(wf, i)
  {
    IndexOfDistinct(wf.chain, i);
    var d := FindDomino(wf.dominos, wf.chain[i]).value;
    forall dep | dep in d.dependsOn
      ensures dep in wf.chain[..i]
    {
      assert wf.chain[..i][IndexOf(wf.chain, dep)] == dep;
    }
  }

  lemma {:induction false} BuiltinsNeedNoJulia(wf: Workflow)
    requires forall d :: d in wf.dominos ==> d.command in {"builtin:identity", "builtin:coarsen"}
    ensures NeedsNoJulia(wf, false)
  {
    forall d | d in wf.dominos
      ensures !HasPrefix(d.command, "julia:")
    {
      assert d.command[0] == 'b';
    }
  }

  /** So the dominos of a window, each run by itself in chain order, write what one run of the workflow writes. */
  lemma {:induction false} WindowRunsStandalone(rt: Runtime, ticks: nat, st: Store, depth: int, arity: int, snap: Snapshot, phases: map<string, DominoPhase>)
    returns (n: nat)
    requires JsonLaws(rt) && DigestLaws(rt)
    requires AcceptsSnapshot(rt, st, Compiled(depth, arity, snap))
    requires Rows(st, RunContent(rt, st, Compiled(depth, arity, snap)).id) == []
    requires forall name :: name in Compiled(depth, arity, snap).chain ==> name in phases && !phases[name].Done()
    ensures var wf := Compiled(depth, arity, snap);
      var c := RunContent(rt, st, wf);
      var o := Run(rt, ticks, st, wf);
      var saved := SaveSnapshot(st, c.id, SnapshotRow(snap.timeSlice, c.data, true));
      && saved.Success? && n <= |wf.chain|
      && var k := ReconcileNames(rt, Cluster(saved.value, ticks, phases), wf, c.id, false, wf.chain[..n]);
      && k.store == o.store && k.ticks == o.ticks
      && (o.result.Success? ==> n == |wf.chain| && IsDone(k, c.id, "n", o.result.value.finalOutput))
  {
    var wf := Compiled(depth, arity, snap);
    CompiledIsWired(depth, arity, snap);
    BuiltinsNeedNoJulia(wf);
    n := StandaloneIsRun(rt, ticks, st, wf, false, phases);
  }
}
