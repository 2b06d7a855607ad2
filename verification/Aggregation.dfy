/** Windows of a k-ary aggregation tree: unfolding, coarsening, counting and labels. Values are exact. */
module Aggregation {
  import opened Basics
  import opened Decimal

  datatype Node = Node(name: string, depth: int, value: real, children: seq<Node>)

  function ChildLabel(name: string, i: nat): string {
    name + "." + Dec(i)
  }

  /** Each child gets an equal share of the value. */
  function Unfold(depth: int, arity: int, name: string, value: real): Node
    decreases depth, 0
  {
    if depth <= 0 || arity <= 0 then Node(name, depth, value, [])
    else Node(name, depth, value, UnfoldFrom(depth, arity, name, value / arity as real, 0))
  }

  /** The children from number i on. */
  function UnfoldFrom(depth: int, arity: int, name: string, share: real, i: nat): seq<Node>
    requires depth > 0 && i <= arity
    decreases depth - 1, arity - i + 1
  {
    if i == arity then []
    else [Unfold(depth - 1, arity, ChildLabel(name, i), share)] + UnfoldFrom(depth, arity, name, share, i + 1)
  }

  lemma {:induction false} UnfoldStep(depth: int, arity: int, name: string, share: real, i: nat)
    requires depth > 0 && i < arity
    ensures var ns := UnfoldFrom(depth, arity, name, share, i);
      && ns != []
      && ns[0] == Unfold(depth - 1, arity, ChildLabel(name, i), share)
      && ns[1..] == UnfoldFrom(depth, arity, name, share, i + 1)
  {
  }

  predicate IsLeaf(n: Node) {
    n.children == []
  }

  predicate AllLeaves(ns: seq<Node>) {
    ns == [] || (IsLeaf(ns[0]) && AllLeaves(ns[1..]))
  }

  function SumValues(ns: seq<Node>): real {
    if ns == [] then 0.0 else ns[0].value + SumValues(ns[1..])
  }

  function Max(a: int, b: int): int {
    if a > b then a else b
  }

  /** The largest depth, or 0. */
  function MaxDepth(ns: seq<Node>): int {
    if ns == [] then 0 else Max(ns[0].depth, MaxDepth(ns[1..]))
  }

  function Coarsen(n: Node): Node
    decreases n, 1
  {
    if IsLeaf(n) then n
    else if AllLeaves(n.children) then Node(n.name, 0, SumValues(n.children), [])
    else
      var cs := CoarsenEach(n.children);
      Node(n.name, MaxDepth(cs) + 1, SumValues(cs), cs)
  }

  function CoarsenEach(ns: seq<Node>): seq<Node>
    decreases ns, 0
  {
    if ns == [] then [] else [Coarsen(ns[0])] + CoarsenEach(ns[1..])
  }

  function Height(n: Node): int
    decreases n, 1
  {
    if IsLeaf(n) then 0 else MaxHeight(n.children) + 1
  }

  function MaxHeight(ns: seq<Node>): int
    decreases ns, 0
  {
    if ns == [] then 0 else Max(Height(ns[0]), MaxHeight(ns[1..]))
  }

  function Leaves(n: Node): seq<Node>
    decreases n, 1
  {
    if IsLeaf(n) then [n] else LeavesOfEach(n.children)
  }

  function LeavesOfEach(ns: seq<Node>): seq<Node>
    decreases ns, 0
  {
    if ns == [] then [] else Leaves(ns[0]) + LeavesOfEach(ns[1..])
  }

  /** The nodes in post-order, by label. */
  function PostOrder(n: Node): seq<string>
    decreases n, 1
  {
    PostOrderOfEach(n.children) + [n.name]
  }

  function PostOrderOfEach(ns: seq<Node>): seq<string>
    decreases ns, 0
  {
    if ns == [] then [] else PostOrder(ns[0]) + PostOrderOfEach(ns[1..])
  }

  // ---- The same by recursion over a node and loops over its children ----

  method ComputeCoarsen(n: Node) returns (out: Node)
    ensures out == Coarsen(n)
    decreases n, 1
  {
    if |n.children| == 0 {
      return n;
    }
    var allLeaves, sum := SumIfLeaves(n.children);
    if allLeaves {
      return Node(n.name, 0, sum, []);
    }
    var cs, total, maxDepth := ComputeCoarsenEach(n.children);
    return Node(n.name, maxDepth + 1, total, cs);
  }

  method SumIfLeaves(ns: seq<Node>) returns (allLeaves: bool, sum: real)
    ensures allLeaves <==> AllLeaves(ns)
    ensures allLeaves ==> sum == SumValues(ns)
  {
    sum := 0.0;
    for i := 0 to |ns|
      invariant AllLeaves(ns) == AllLeaves(ns[i..])
    {
      assert ns[i..][1..] == ns[i + 1..];
      if |ns[i].children| > 0 {
        return false, sum;
      }
    }
    for i := 0 to |ns|
      invariant sum + SumValues(ns[i..]) == SumValues(ns)
    {
      assert ns[i..][1..] == ns[i + 1..];
      sum := sum + ns[i].value;
    }
    allLeaves := true;
  }

  /** The coarsened children done so far, and those still to come. */
  ghost predicate SoFar(cs: seq<Node>, sum: real, maxDepth: int, rest: seq<Node>, all: seq<Node>) {
    && all == cs + rest
    && sum + SumValues(rest) == SumValues(all)
    && maxDepth >= 0 && Max(maxDepth, MaxDepth(rest)) == MaxDepth(all)
  }

  lemma {:induction false} SoFarNext(cs: seq<Node>, sum: real, maxDepth: int, c: Node, rest: seq<Node>, all: seq<Node>)
    requires SoFar(cs, sum, maxDepth, [c] + rest, all)
    ensures SoFar(cs + [c], sum + c.value, Max(maxDepth, c.depth), rest, all)
  {
    assert ([c] + rest)[1..] == rest;
    AppendAssociates(cs, [c], rest);
  }

  lemma {:induction false} CoarsenEachAt(ns: seq<Node>, i: nat)
    requires i < |ns|
    ensures CoarsenEach(ns[i..]) == [Coarsen(ns[i])] + CoarsenEach(ns[i + 1..])
  {
    assert ns[i..][1..] == ns[i + 1..];
  }

  method ComputeCoarsenEach(ns: seq<Node>) returns (cs: seq<Node>, sum: real, maxDepth: int)
    ensures cs == CoarsenEach(ns) && sum == SumValues(cs) && maxDepth == MaxDepth(cs)
    decreases ns, 0
  {
    cs, sum, maxDepth := [], 0.0, 0;
    ghost var all := CoarsenEach(ns);
    MaxDepthNonNegative(all);
    assert ns[0..] == ns;
    for i := 0 to |ns|
      invariant SoFar(cs, sum, maxDepth, CoarsenEach(ns[i..]), all)
    {
      var c := ComputeCoarsen(ns[i]);
      CoarsenEachAt(ns, i);
      SoFarNext(cs, sum, maxDepth, c, CoarsenEach(ns[i + 1..]), all);
      cs := cs + [c];
      sum := sum + c.value;
      if c.depth > maxDepth {
        maxDepth := c.depth;
      }
    }
  }

  lemma {:induction false} MaxDepthNonNegative(ns: seq<Node>)
    ensures MaxDepth(ns) >= 0
  {
    if ns != [] {
      MaxDepthNonNegative(ns[1..]);
    }
  }

  lemma {:induction false} MaxHeightNonNegative(ns: seq<Node>)
    ensures MaxHeight(ns) >= 0
  {
    if ns != [] {
      MaxHeightNonNegative(ns[1..]);
    }
  }

  method ComputeHeight(n: Node) returns (h: int)
    ensures h == Height(n)
    decreases n
  {
    var ns := n.children;
    if |ns| == 0 {
      return 0;
    }
    var max := 0;
    MaxHeightNonNegative(ns);
    for i := 0 to |ns|
      invariant max >= 0 && Max(max, MaxHeight(ns[i..])) == MaxHeight(ns)
    {
      assert ns[i..][1..] == ns[i + 1..];
      var c := ComputeHeight(ns[i]);
      if c > max {
        max := c;
      }
    }
    return max + 1;
  }

  method ComputeLeaves(n: Node) returns (out: seq<Node>)
    ensures out == Leaves(n)
    decreases n
  {
    var ns := n.children;
    if |ns| == 0 {
      return [n];
    }
    out := [];
    for i := 0 to |ns|
      invariant out + LeavesOfEach(ns[i..]) == LeavesOfEach(ns)
    {
      assert ns[i..][1..] == ns[i + 1..];
      var more := ComputeLeaves(ns[i]);
      out := out + more;
    }
  }

  // ---- Coarsening ----

  /** The sum of the values at the leaves. */
  function LeafSum(n: Node): real
    decreases n, 1
  {
    if IsLeaf(n) then n.value else LeafSumOfEach(n.children)
  }

  function LeafSumOfEach(ns: seq<Node>): real
    decreases ns, 0
  {
    if ns == [] then 0.0 else LeafSum(ns[0]) + LeafSumOfEach(ns[1..])
  }

  function Lowered(h: int): int {
    if h > 0 then h - 1 else 0
  }

  /** One coarsening keeps the label and the sum of the leaves, and lowers the height by one until it is zero. */
  lemma {:induction false} CoarsenConserves(n: Node)
    ensures var c := Coarsen(n);
      && c.name == n.name
      && c.value == LeafSum(n)
      && LeafSum(c) == LeafSum(n)
      && Height(c) == Lowered(Height(n))
      && (IsLeaf(c) <==> Height(n) <= 1)
    decreases n, 1
  {
    if !IsLeaf(n) {
      CoarsenEachConserves(n.children);
    }
  }

  lemma {:induction false} CoarsenEachConserves(ns: seq<Node>)
    ensures var cs := CoarsenEach(ns);
      && (cs == [] <==> ns == [])
      && SumValues(cs) == LeafSumOfEach(ns)
      && LeafSumOfEach(cs) == LeafSumOfEach(ns)
      && MaxHeight(cs) == Lowered(MaxHeight(ns))
      && MaxHeight(ns) >= 0
      && (AllLeaves(ns) <==> MaxHeight(ns) == 0)
      && (AllLeaves(ns) ==> SumValues(ns) == LeafSumOfEach(ns))
    decreases ns, 0
  {
    if ns != [] {
      CoarsenConserves(ns[0]);
      CoarsenEachConserves(ns[1..]);
      MaxHeightNonNegative(ns[0].children);
      assert CoarsenEach(ns)[1..] == CoarsenEach(ns[1..]);
    }
  }

  function CoarsenTimes(n: Node, k: int): Node
    decreases k
  {
    if k <= 0 then n else CoarsenTimes(Coarsen(n), k - 1)
  }

  /** Coarsening as often as the tree is high leaves one leaf, which holds the sum of all leaves. */
  lemma {:induction false} CoarsenToLeaf(n: Node)
    ensures CoarsenTimes(n, Height(n)) == if IsLeaf(n) then n else Node(n.name, 0, LeafSum(n), [])
    decreases Height(n)
  {
    if !IsLeaf(n) {
      MaxHeightNonNegative(n.children);
      CoarsenConserves(n);
      CoarsenEachConserves(n.children);
      CoarsenToLeaf(Coarsen(n));
    }
  }

  lemma {:induction false} ChildrenOfWindow(depth: int, arity: int, name: string, share: real, i: nat)
    requires depth > 0 && i <= arity
    ensures var ns := UnfoldFrom(depth, arity, name, share, i);
      && |ns| == arity - i
      && SumValues(ns) == Repeated(arity - i, share)
      && MaxDepth(ns) == (if i < arity then depth - 1 else 0)
      && (AllLeaves(ns) <==> depth == 1 || i == arity)
    decreases arity - i
  {
    if i < arity {
      ChildrenOfWindow(depth, arity, name, share, i + 1);
      UnfoldStep(depth, arity, name, share, i);
      WindowRoot(depth - 1, arity, ChildLabel(name, i), share);
    }
  }

  lemma {:induction false} WindowRoot(depth: int, arity: int, name: string, value: real)
    requires depth >= 0 && arity > 0
    ensures var n := Unfold(depth, arity, name, value);
      && n.name == name && n.depth == depth && n.value == value
      && (IsLeaf(n) <==> depth == 0)
  {
    if depth > 0 {
      UnfoldStep(depth, arity, name, value / arity as real, 0);
    }
  }

  /** x added k times. */
  function Repeated(k: nat, x: real): real {
    if k == 0 then 0.0 else x + Repeated(k - 1, x)
  }

  lemma {:induction false} RepeatedIsProduct(k: nat, x: real)
    ensures Repeated(k, x) == k as real * x
  {
    if k > 0 {
      RepeatedIsProduct(k - 1, x);
      MulSucc((k - 1) as real, x);
    }
  }

  lemma {:induction false} MulSucc(a: real, x: real)
    ensures (a + 1.0) * x == x + a * x
  {
  }

  lemma {:induction false} SharesAddUp(value: real, arity: int)
    requires arity > 0
    ensures Repeated(arity, value / arity as real) == value
  {
    var k := arity as real;
    RepeatedIsProduct(arity, value / k);
    MulDiv(value, k);
  }

  lemma {:induction false} MulDiv(x: real, d: real)
    requires d != 0.0
    ensures d * (x / d) == x
  {
  }

  lemma {:induction false} MulSuccInt(k: int, x: int)
    ensures (k + 1) * x == x + k * x
  {
  }

  /** Self-similarity: coarsening a window gives the shallower window, values included. */
  lemma {:induction false} CoarsenUnfold(depth: int, arity: int, name: string, value: real)
    requires depth >= 1 && arity >= 1
    ensures Coarsen(Unfold(depth, arity, name, value)) == Unfold(depth - 1, arity, name, value)
    decreases depth, 0
  {
    var share := value / arity as real;
    ChildrenOfWindow(depth, arity, name, share, 0);
    SharesAddUp(value, arity);
    if depth > 1 {
      CoarsenUnfoldFrom(depth, arity, name, share, 0);
      ChildrenOfWindow(depth - 1, arity, name, share, 0);
    }
  }

  lemma {:induction false} CoarsenUnfoldFrom(depth: int, arity: int, name: string, share: real, i: nat)
    requires depth > 1 && i <= arity
    ensures CoarsenEach(UnfoldFrom(depth, arity, name, share, i)) == UnfoldFrom(depth - 1, arity, name, share, i)
    decreases depth - 1, arity - i + 1
  {
    if i < arity {
      CoarsenUnfold(depth - 1, arity, ChildLabel(name, i), share);
      CoarsenUnfoldFrom(depth, arity, name, share, i + 1);
      UnfoldStep(depth, arity, name, share, i);
    }
  }

  // ---- Counting ----

  function Pow(k: nat, d: nat): nat {
    if d == 0 then 1 else k * Pow(k, d - 1)
  }

  function LeafCount(depth: int, arity: int): nat {
    if depth <= 0 || arity <= 0 then 1 else Pow(arity, depth)
  }

  function NodeCount(depth: int, arity: int): int {
    if depth <= 0 || arity <= 0 then 1
    else if arity == 1 then depth + 1
    else (Pow(arity, depth + 1) - 1) / (arity - 1)
  }

  method ComputeLeafCount(depth: int, arity: int) returns (n: int)
    ensures n == LeafCount(depth, arity)
  {
    if depth <= 0 || arity <= 0 {
      return 1;
    }
    n := 1;
    for i := 0 to depth
      invariant n == Pow(arity, i)
    {
      n := n * arity;
    }
  }

  method ComputeNodeCount(depth: int, arity: int) returns (n: int)
    ensures n == NodeCount(depth, arity)
  {
    if depth <= 0 || arity <= 0 {
      return 1;
    }
    if arity == 1 {
      return depth + 1;
    }
    var pow := 1;
    for i := 0 to depth + 1
      invariant pow == Pow(arity, i)
    {
      pow := pow * arity;
    }
    return (pow - 1) / (arity - 1);
  }

  lemma {:induction false} LeafCountIsExact(depth: int, arity: int, name: string, value: real)
    ensures |Leaves(Unfold(depth, arity, name, value))| == LeafCount(depth, arity)
    decreases depth, 0
  {
    if depth > 0 && arity > 0 {
      var share := value / arity as real;
      LeavesFrom(depth, arity, name, share, 0);
      ChildrenOfWindow(depth, arity, name, share, 0);
    }
  }

  lemma {:induction false} LeavesFrom(depth: int, arity: int, name: string, share: real, i: nat)
    requires depth > 0 && arity > 0 && i <= arity
    ensures |LeavesOfEach(UnfoldFrom(depth, arity, name, share, i))| == (arity - i) * Pow(arity, depth - 1)
    decreases depth - 1, arity - i + 1
  {
    if i < arity {
      LeafCountIsExact(depth - 1, arity, ChildLabel(name, i), share);
      LeavesFrom(depth, arity, name, share, i + 1);
      UnfoldStep(depth, arity, name, share, i);
      MulSuccInt(arity - (i + 1), Pow(arity, depth - 1));
    }
  }

  /** The number of nodes, counted level by level. */
  function Size(depth: nat, arity: nat): nat {
    if depth == 0 then 1 else 1 + arity * Size(depth - 1, arity)
  }

  lemma {:induction false} SizeClosedForm(depth: nat, arity: nat)
    ensures Size(depth, arity) * (arity - 1) == Pow(arity, depth + 1) - 1
    ensures arity == 1 ==> Size(depth, arity) == depth + 1
  {
    if depth == 0 {
      assert Pow(arity, 1) == arity * Pow(arity, 0);
    } else {
      SizeClosedForm(depth - 1, arity);
      GeometricStep(Size(depth - 1, arity), arity, Pow(arity, depth));
    }
  }

  lemma {:induction false} GeometricStep(s: int, k: int, p: int)
    requires s * (k - 1) == p - 1
    ensures (1 + k * s) * (k - 1) == k * p - 1
  {
    assert (1 + k * s) * (k - 1) == (k - 1) + k * (s * (k - 1));
  }

  lemma {:induction false} SizeOfWindow(depth: nat, arity: nat, name: string, value: real)
    requires arity > 0
    ensures |PostOrder(Unfold(depth, arity, name, value))| == Size(depth, arity)
    decreases depth, 0
  {
    if depth > 0 {
      SizeFrom(depth, arity, name, value / arity as real, 0);
    }
  }

  lemma {:induction false} SizeFrom(depth: nat, arity: nat, name: string, share: real, i: nat)
    requires depth > 0 && arity > 0 && i <= arity
    ensures |PostOrderOfEach(UnfoldFrom(depth, arity, name, share, i))| == (arity - i) * Size(depth - 1, arity)
    decreases depth - 1, arity - i + 1
  {
    if i < arity {
      SizeOfWindow(depth - 1, arity, ChildLabel(name, i), share);
      SizeFrom(depth, arity, name, share, i + 1);
      UnfoldStep(depth, arity, name, share, i);
      MulSuccInt(arity - (i + 1), Size(depth - 1, arity));
    }
  }

  /** NodeCount divides exactly, and counts the nodes. */
  lemma {:induction false} NodeCountIsExact(depth: int, arity: int, name: string, value: real)
    ensures |PostOrder(Unfold(depth, arity, name, value))| == NodeCount(depth, arity)
  {
    if depth > 0 && arity > 0 {
      SizeOfWindow(depth, arity, name, value);
      SizeClosedForm(depth, arity);
      if arity > 1 {
        DivideExact(Size(depth, arity), arity - 1, Pow(arity, depth + 1) - 1);
      }
    }
  }

  lemma {:induction false} DivideExact(q: int, d: int, n: int)
    requires d > 0 && q * d == n
    ensures n / d == q
  {
    var x, r := n / d, n % d;
    assert (q - x) * d == r;
    assert q - x >= 1 ==> (q - x) * d >= d;
    assert q - x <= -1 ==> (q - x) * d <= -d;
  }

  // ---- Labels ----

  /** x is p or a label below it. */
  predicate Under(p: string, x: string) {
    p + "." <= x + "."
  }

  lemma {:induction false} UnderTransitive(p: string, q: string, x: string)
    requires Under(p, q) && Under(q, x)
    ensures Under(p, x)
  {
    var n := |p| + 1;
    assert (p + ".") == (q + ".")[..n] == (x + ".")[..n];
  }

  lemma {:induction false} ChildIsUnder(name: string, i: nat)
    ensures Under(name, ChildLabel(name, i)) && !Under(ChildLabel(name, i), name)
  {
    assert ChildLabel(name, i) + "." == (name + ".") + (Dec(i) + ".");
    DecDigits(i);
  }

  /** No label lies under two different children. */
  lemma {:induction false} ChildrenApart(name: string, i: nat, j: nat, x: string)
    requires Under(ChildLabel(name, i), x) && Under(ChildLabel(name, j), x)
    ensures i == j
  {
    var y := (x + ".")[|name| + 1..];
    var a, b := Dec(i), Dec(j);
    assert ChildLabel(name, i) + "." == (name + ".") + (a + ".");
    assert ChildLabel(name, j) + "." == (name + ".") + (b + ".");
    assert y[..|a| + 1] == a + "." && y[..|b| + 1] == b + ".";
    assert y == a + ['.'] + y[|a| + 1..] && y == b + ['.'] + y[|b| + 1..];
    DecDigits(i);
    DecDigits(j);
    SplitFirst('.', a, y[|a| + 1..], b, y[|b| + 1..]);
    DecInjective(i, j);
  }

  /** Label injectivity: the labels of a window are pairwise distinct, and all lie under the root. */
  lemma {:induction false} LabelsDistinct(depth: int, arity: int, name: string, value: real)
    ensures var labels := PostOrder(Unfold(depth, arity, name, value));
      Distinct(labels) && forall x :: x in labels ==> Under(name, x)
    decreases depth, 0
  {
    if depth > 0 && arity > 0 {
      var below := PostOrderOfEach(UnfoldFrom(depth, arity, name, value / arity as real, 0));
      LabelsFrom(depth, arity, name, value / arity as real, 0);
      forall x | x in below
        ensures Under(name, x) && x != name
      {
        var j :| 0 <= j < arity && Under(ChildLabel(name, j), x);
        ChildIsUnder(name, j);
        UnderTransitive(name, ChildLabel(name, j), x);
      }
      DistinctAppend(below, [name]);
    }
  }

  lemma {:induction false} LabelsFrom(depth: int, arity: int, name: string, share: real, i: nat)
    requires depth > 0 && i <= arity
    ensures var labels := PostOrderOfEach(UnfoldFrom(depth, arity, name, share, i));
      Distinct(labels) && forall x :: x in labels ==> exists j :: i <= j < arity && Under(ChildLabel(name, j), x)
    decreases depth - 1, arity - i + 1
  {
    if i < arity {
      var ns := UnfoldFrom(depth, arity, name, share, i);
      LabelsDistinct(depth - 1, arity, ChildLabel(name, i), share);
      LabelsFrom(depth, arity, name, share, i + 1);
      assert ns[1..] == UnfoldFrom(depth, arity, name, share, i + 1);
      var first, rest := PostOrder(ns[0]), PostOrderOfEach(ns[1..]);
      forall x | x in first ensures x !in rest {
        if x in rest {
          var j :| i + 1 <= j < arity && Under(ChildLabel(name, j), x);
          ChildrenApart(name, i, j, x);
        }
      }
      DistinctAppend(first, rest);
    }
  }

  // ---- Seats of the wheel ----

  function SeatCount(depth: int, arity: int): nat {
    LeafCount(depth, arity)
  }

  function LabelsOf(ns: seq<Node>): seq<string> {
    seq(|ns|, i requires 0 <= i < |ns| => ns[i].name)
  }

  function SeatLabels(depth: int, arity: int): seq<string> {
    LabelsOf(Leaves(Unfold(depth, arity, "seat", 1.0)))
  }

  lemma {:induction false} LeafLabelsDistinct(n: Node)
    requires Distinct(PostOrder(n))
    ensures Distinct(LabelsOf(Leaves(n)))
    ensures forall x :: x in LabelsOf(Leaves(n)) ==> x in PostOrder(n)
    decreases n, 1
  {
    DistinctAppend(PostOrderOfEach(n.children), [n.name]);
    if !IsLeaf(n) {
      LeafLabelsOfEachDistinct(n.children);
    }
  }

  lemma {:induction false} LeafLabelsOfEachDistinct(ns: seq<Node>)
    requires Distinct(PostOrderOfEach(ns))
    ensures Distinct(LabelsOf(LeavesOfEach(ns)))
    ensures forall x :: x in LabelsOf(LeavesOfEach(ns)) ==> x in PostOrderOfEach(ns)
    decreases ns, 0
  {
    if ns != [] {
      var a, b := Leaves(ns[0]), LeavesOfEach(ns[1..]);
      DistinctAppend(PostOrder(ns[0]), PostOrderOfEach(ns[1..]));
      LeafLabelsDistinct(ns[0]);
      LeafLabelsOfEachDistinct(ns[1..]);
      assert LabelsOf(a + b) == LabelsOf(a) + LabelsOf(b);
      DistinctAppend(LabelsOf(a), LabelsOf(b));
    }
  }

  /** Seat labels are distinct and number SeatCount. */
  lemma {:induction false} SeatsAreDistinct(depth: int, arity: int)
    ensures Distinct(SeatLabels(depth, arity)) && |SeatLabels(depth, arity)| == SeatCount(depth, arity)
  {
    LeafCountIsExact(depth, arity, "seat", 1.0);
    LabelsDistinct(depth, arity, "seat", 1.0);
    LeafLabelsDistinct(Unfold(depth, arity, "seat", 1.0));
  }

  // ---- The order of the leaves ----

  /** The digits after the name, each after a dot. */
  function DigitsLabel(name: string, ds: seq<nat>): string
    decreases |ds|
  {
    if ds == [] then name else DigitsLabel(name + "." + Dec(ds[0]), ds[1..])
  }

  predicate LexLess(a: seq<nat>, b: seq<nat>)
    decreases |a|
  {
    a != [] && b != [] && (a[0] < b[0] || (a[0] == b[0] && LexLess(a[1..], b[1..])))
  }

  predicate AreDigits(depth: nat, arity: int, ds: seq<nat>) {
    |ds| == depth && forall i :: 0 <= i < |ds| ==> ds[i] < arity
  }

  ghost predicate Increasing(digits: seq<seq<nat>>) {
    forall i, j :: 0 <= i < j < |digits| ==> LexLess(digits[i], digits[j])
  }

  function EqualShare(value: real, depth: nat, arity: nat): real
    requires arity > 0
    decreases depth
  {
    if depth == 0 then value else EqualShare(value / arity as real, depth - 1, arity)
  }

  /** The leaf is labelled by these digits and holds an equal share. */
  ghost predicate IsLeafOf(leaf: Node, name: string, depth: nat, arity: int, ds: seq<nat>, share: real) {
    IsLeaf(leaf) && leaf.depth == 0 && leaf.value == share && AreDigits(depth, arity, ds) && leaf.name == DigitsLabel(name, ds)
  }

  ghost predicate Spelled(leaves: seq<Node>, name: string, depth: nat, arity: int, digits: seq<seq<nat>>, share: real) {
    && |digits| == |leaves| && Increasing(digits)
    && forall j :: 0 <= j < |leaves| ==> IsLeafOf(leaves[j], name, depth, arity, digits[j], share)
  }

  /**
  The leaves of a window from left to right: their labels spell strings of digits below the arity, one for
  each level, in strictly increasing order, and all hold the same value.
  */
  lemma {:induction false} LeavesInOrder(depth: nat, arity: nat, name: string, value: real) returns (digits: seq<seq<nat>>)
    requires arity > 0
    ensures Spelled(Leaves(Unfold(depth, arity, name, value)), name, depth, arity, digits, EqualShare(value, depth, arity))
    decreases depth, 0
  {
    if depth == 0 {
      digits := [[]];
    } else {
      var share := value / arity as real;
      digits := LeavesFromInOrder(depth, arity, name, share, 0);
      UnfoldStep(depth, arity, name, share, 0);
    }
  }

  lemma {:induction false} LeavesFromInOrder(depth: nat, arity: nat, name: string, share: real, i: nat) returns (digits: seq<seq<nat>>)
    requires depth > 0 && i <= arity && arity > 0
    ensures Spelled(LeavesOfEach(UnfoldFrom(depth, arity, name, share, i)), name, depth, arity, digits, EqualShare(share, depth - 1, arity))
    ensures forall ds :: ds in digits ==> ds != [] && ds[0] >= i
    decreases depth - 1, arity - i + 1
  {
    if i == arity {
      digits := [];
    } else {
      var first := LeavesInOrder(depth - 1, arity, ChildLabel(name, i), share);
      var rest := LeavesFromInOrder(depth, arity, name, share, i + 1);
      UnfoldStep(depth, arity, name, share, i);
      var ns := UnfoldFrom(depth, arity, name, share, i);
      assert LeavesOfEach(ns) == Leaves(ns[0]) + LeavesOfEach(ns[1..]);
      digits := Prepend(i, first) + rest;
      BlockSpelled(Leaves(ns[0]), name, depth, arity, i, first, EqualShare(share, depth - 1, arity));
      BlocksInOrder(Leaves(ns[0]), LeavesOfEach(ns[1..]), name, depth, arity, i, Prepend(i, first), rest, EqualShare(share, depth - 1, arity));
    }
  }

  function Prepend(d: nat, digits: seq<seq<nat>>): seq<seq<nat>> {
    seq(|digits|, i requires 0 <= i < |digits| => [d] + digits[i])
  }

  /** The leaves below child d, seen from its parent. */
  lemma {:induction false} BlockSpelled(leaves: seq<Node>, name: string, depth: nat, arity: nat, d: nat, digits: seq<seq<nat>>, share: real)
    requires depth > 0 && d < arity && Spelled(leaves, ChildLabel(name, d), depth - 1, arity, digits, share)
    ensures Spelled(leaves, name, depth, arity, Prepend(d, digits), share)
    ensures forall ds :: ds in Prepend(d, digits) ==> ds != [] && ds[0] == d
  {
    var all := Prepend(d, digits);
    forall j | 0 <= j < |leaves|
      ensures IsLeafOf(leaves[j], name, depth, arity, all[j], share)
    {
      assert IsLeafOf(leaves[j], ChildLabel(name, d), depth - 1, arity, digits[j], share);
      assert all[j][1..] == digits[j];
    }
    forall i, j | 0 <= i < j < |all|
      ensures LexLess(all[i], all[j])
    {
      assert LexLess(digits[i], digits[j]);
      assert all[i][1..] == digits[i] && all[j][1..] == digits[j];
    }
  }

  lemma {:induction false} BlocksInOrder(xs: seq<Node>, ys: seq<Node>, name: string, depth: nat, arity: nat, d: nat, a: seq<seq<nat>>, b: seq<seq<nat>>, share: real)
    requires Spelled(xs, name, depth, arity, a, share) && Spelled(ys, name, depth, arity, b, share)
    requires forall ds :: ds in a ==> ds != [] && ds[0] == d
    requires forall ds :: ds in b ==> ds != [] && ds[0] > d
    ensures Spelled(xs + ys, name, depth, arity, a + b, share)
  {
    forall i, j | 0 <= i < j < |a + b|
      ensures LexLess((a + b)[i], (a + b)[j])
    {
      if i < |a| <= j {
        assert a[i] in a && b[j - |a|] in b;
      }
    }
    forall j | 0 <= j < |xs + ys|
      ensures IsLeafOf((xs + ys)[j], name, depth, arity, (a + b)[j], share)
    {
      if j < |xs| {
        assert IsLeafOf(xs[j], name, depth, arity, a[j], share);
      } else {
        assert IsLeafOf(ys[j - |xs|], name, depth, arity, b[j - |xs|], share);
      }
    }
  }

  /** The seats of the wheel, from left to right. */
  lemma {:induction false} SeatsInOrder(depth: nat, arity: nat) returns (digits: seq<seq<nat>>)
    requires arity > 0
    ensures var seats := SeatLabels(depth, arity);
      && |digits| == |seats| == SeatCount(depth, arity) && Increasing(digits)
      && forall j :: 0 <= j < |seats| ==> AreDigits(depth, arity, digits[j]) && seats[j] == DigitsLabel("seat", digits[j])
  {
    digits := LeavesInOrder(depth, arity, "seat", 1.0);
    LeafCountIsExact(depth, arity, "seat", 1.0);
    var leaves := Leaves(Unfold(depth, arity, "seat", 1.0));
    forall j | 0 <= j < |leaves|
      ensures AreDigits(depth, arity, digits[j]) && leaves[j].name == DigitsLabel("seat", digits[j])
    {
      assert IsLeafOf(leaves[j], "seat", depth, arity, digits[j], EqualShare(1.0, depth, arity));
    }
  }

  /** Both bounds unset means no check; otherwise both must be positive and the seats must match. */
  predicate ExplorerWindowOk(contexts: nat, depth: int, arity: int) {
    (depth == 0 && arity == 0) || (depth > 0 && arity > 0 && contexts == SeatCount(depth, arity))
  }
}
