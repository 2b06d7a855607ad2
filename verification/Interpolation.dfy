/** Linear interpolation of a rate curve, over exact reals. */
module Interpolation {
  datatype Point = Point(tenor: real, rate: real)

  // ---- Sorting by tenor ----

  function Insert(p: Point, s: seq<Point>): seq<Point> {
    if s == [] || p.tenor < s[0].tenor then [p] + s else [s[0]] + Insert(p, s[1..])
  }

  function SortByTenor(s: seq<Point>): seq<Point> {
    if s == [] then [] else Insert(s[0], SortByTenor(s[1..]))
  }

  ghost predicate DistinctTenors(s: seq<Point>) {
    forall i, j :: 0 <= i < j < |s| ==> s[i].tenor != s[j].tenor
  }

  ghost predicate Increasing(s: seq<Point>) {
    forall i, j :: 0 <= i < j < |s| ==> s[i].tenor < s[j].tenor
  }

  lemma {:induction false} InsertKeeps(p: Point, s: seq<Point>)
    ensures multiset(Insert(p, s)) == multiset{p} + multiset(s)
  {
    if s != [] && p.tenor >= s[0].tenor {
      InsertKeeps(p, s[1..]);
      assert s == [s[0]] + s[1..];
    }
  }

  lemma {:induction false} InsertElements(p: Point, s: seq<Point>, q: Point)
    requires q in Insert(p, s)
    ensures q == p || q in s
  {
    InsertKeeps(p, s);
    assert q in multiset(Insert(p, s));
  }

  lemma {:induction false} IncreasingCons(p: Point, s: seq<Point>)
    requires Increasing(s) && forall q :: q in s ==> p.tenor < q.tenor
    ensures Increasing([p] + s)
  {
  }

  lemma {:induction false} InsertIncreasing(p: Point, s: seq<Point>)
    requires Increasing(s) && forall q :: q in s ==> q.tenor != p.tenor
    ensures Increasing(Insert(p, s))
  {
    if s == [] || p.tenor < s[0].tenor {
      IncreasingCons(p, s);
    } else {
      assert s[0] in s;
      InsertIncreasing(p, s[1..]);
      forall q | q in Insert(p, s[1..]) ensures s[0].tenor < q.tenor {
        InsertElements(p, s[1..], q);
      }
      IncreasingCons(s[0], Insert(p, s[1..]));
    }
  }

  lemma {:induction false} SortIncreasing(s: seq<Point>)
    requires DistinctTenors(s)
    ensures Increasing(SortByTenor(s)) && multiset(SortByTenor(s)) == multiset(s)
  {
    if s != [] {
      var rest := s[1..];
      assert s == [s[0]] + rest;
      SortIncreasing(rest);
      forall q | q in SortByTenor(rest) ensures q.tenor != s[0].tenor {
        assert q in multiset(rest);
        var j :| 0 <= j < |rest| && rest[j] == q;
        assert s[j + 1] == q;
      }
      InsertKeeps(s[0], SortByTenor(rest));
      InsertIncreasing(s[0], SortByTenor(rest));
    }
  }

  lemma {:induction false} IncreasingUnique(a: seq<Point>, b: seq<Point>)
    requires Increasing(a) && Increasing(b) && multiset(a) == multiset(b)
    ensures a == b
    decreases |a|
  {
    assert |a| == |multiset(a)| == |multiset(b)| == |b|;
    if a != [] {
      HeadIsLeast(a, b[0]);
      HeadIsLeast(b, a[0]);
      MultisetOfTail(a);
      MultisetOfTail(b);
      IncreasingUnique(a[1..], b[1..]);
    }
  }

  lemma {:induction false} HeadIsLeast(s: seq<Point>, p: Point)
    requires s != [] && Increasing(s) && p in multiset(s)
    ensures s[0].tenor < p.tenor || s[0] == p
  {
    assert p in s;
  }

  lemma {:induction false} MultisetOfTail(s: seq<Point>)
    requires s != []
    ensures multiset(s[1..]) == multiset(s) - multiset{s[0]}
  {
    assert s == [s[0]] + s[1..];
  }

  // ---- Interpolation on a sorted curve ----

  function Segment(a: Point, b: Point, x: real): real {
    var denom := b.tenor - a.tenor;
    if denom == 0.0 then a.rate else a.rate + (x - a.tenor) / denom * (b.rate - a.rate)
  }

  /** The scan over the segments from number i on. */
  function Scan(s: seq<Point>, x: real, i: nat): real
    requires i < |s|
    decreases |s| - i
  {
    if i == |s| - 1 then s[i].rate
    else if s[i].tenor <= x <= s[i + 1].tenor then Segment(s[i], s[i + 1], x)
    else Scan(s, x, i + 1)
  }

  function InterpSorted(s: seq<Point>, x: real): real
    requires s != []
  {
    if x <= s[0].tenor then s[0].rate
    else if x >= s[|s| - 1].tenor then s[|s| - 1].rate
    else Scan(s, x, 0)
  }

  lemma {:induction false} InsertNotEmpty(p: Point, s: seq<Point>)
    ensures Insert(p, s) != []
  {
  }

  function LinearInterp(points: seq<Point>, x: real): real {
    if points == [] then 0.0
    else
      InsertNotEmpty(points[0], SortByTenor(points[1..]));
      InterpSorted(SortByTenor(points), x)
  }

  /** The formula inside the loop. */
  method ComputeSegment(a: Point, b: Point, x: real) returns (r: real)
    ensures r == Segment(a, b, x)
  {
    var denom := b.tenor - a.tenor;
    if denom == 0.0 {
      return a.rate;
    }
    var t := (x - a.tenor) / denom;
    return a.rate + t * (b.rate - a.rate);
  }

  method ComputeLinearInterp(points: seq<Point>, x: real) returns (r: real)
    ensures r == LinearInterp(points, x)
  {
    if |points| == 0 {
      return 0.0;
    }
    InsertNotEmpty(points[0], SortByTenor(points[1..]));
    var sorted := SortByTenor(points);
    if x <= sorted[0].tenor {
      return sorted[0].rate;
    }
    if x >= sorted[|sorted| - 1].tenor {
      return sorted[|sorted| - 1].rate;
    }
    for i := 0 to |sorted| - 1
      invariant Scan(sorted, x, 0) == Scan(sorted, x, i)
    {
      if x >= sorted[i].tenor && x <= sorted[i + 1].tenor {
        r := ComputeSegment(sorted[i], sorted[i + 1], x);
        return;
      }
    }
    return sorted[|sorted| - 1].rate;
  }

  // ---- One segment ----

  lemma {:induction false} MulBetween(t: real, d: real)
    requires 0.0 <= t <= 1.0
    ensures d >= 0.0 ==> 0.0 <= t * d <= d
    ensures d <= 0.0 ==> d <= t * d <= 0.0
  {
  }

  lemma {:induction false} MulMonotone(t: real, u: real, d: real)
    requires t <= u && d >= 0.0
    ensures t * d <= u * d
  {
  }

  lemma {:induction false} DivMonotone(a: real, b: real, d: real)
    requires a <= b && d > 0.0
    ensures a / d <= b / d
  {
  }

  lemma {:induction false} SegmentEnds(a: Point, b: Point)
    requires a.tenor < b.tenor
    ensures Segment(a, b, a.tenor) == a.rate && Segment(a, b, b.tenor) == b.rate
  {
    var d := b.tenor - a.tenor;
    assert d / d == 1.0 && 0.0 / d == 0.0;
  }

  lemma {:induction false} SegmentBetween(a: Point, b: Point, x: real)
    requires a.tenor < b.tenor && a.tenor <= x <= b.tenor
    ensures a.rate <= Segment(a, b, x) <= b.rate || b.rate <= Segment(a, b, x) <= a.rate
  {
    var d := b.tenor - a.tenor;
    DivMonotone(0.0, x - a.tenor, d);
    DivMonotone(x - a.tenor, d, d);
    assert d / d == 1.0 && 0.0 / d == 0.0;
    MulBetween((x - a.tenor) / d, b.rate - a.rate);
  }

  lemma {:induction false} SegmentMonotone(a: Point, b: Point, x: real, y: real)
    requires a.tenor < b.tenor && a.rate <= b.rate && x <= y
    ensures Segment(a, b, x) <= Segment(a, b, y)
  {
    var d := b.tenor - a.tenor;
    DivMonotone(x - a.tenor, y - a.tenor, d);
    MulMonotone((x - a.tenor) / d, (y - a.tenor) / d, b.rate - a.rate);
  }

  // ---- The whole curve ----

  ghost predicate InSegment(s: seq<Point>, x: real, i: nat) {
    i + 1 < |s| && s[i].tenor <= x <= s[i + 1].tenor
  }

  /** The scan finds the value of any segment that x lies in. */
  lemma {:induction false} ScanFinds(s: seq<Point>, x: real, i: nat, k: nat)
    requires Increasing(s) && i <= k && InSegment(s, x, k)
    ensures Scan(s, x, i) == Segment(s[k], s[k + 1], x)
    decreases k - i
  {
    if i < k {
      if InSegment(s, x, i) {
        assert forall j :: i + 1 < j < |s| ==> s[i + 1].tenor < s[j].tenor;
        SegmentEnds(s[i], s[k]);
        SegmentEnds(s[k], s[k + 1]);
      } else {
        ScanFinds(s, x, i + 1, k);
      }
    }
  }

  lemma {:induction false} Locate(s: seq<Point>, x: real, i: nat) returns (k: nat)
    requires i + 1 < |s| && s[i].tenor <= x < s[|s| - 1].tenor
    ensures i <= k && InSegment(s, x, k)
    decreases |s| - i
  {
    if x <= s[i + 1].tenor {
      k := i;
    } else {
      k := Locate(s, x, i + 1);
    }
  }

  /** A place on the curve: before the first knot, after the last, or in a segment. */
  lemma {:induction false} Place(s: seq<Point>, x: real) returns (k: nat)
    requires s != [] && Increasing(s)
    ensures if x <= s[0].tenor then InterpSorted(s, x) == s[0].rate
            else if x >= s[|s| - 1].tenor then InterpSorted(s, x) == s[|s| - 1].rate
            else InSegment(s, x, k) && InterpSorted(s, x) == Segment(s[k], s[k + 1], x)
  {
    k := 0;
    if s[0].tenor < x < s[|s| - 1].tenor {
      k := Locate(s, x, 0);
      ScanFinds(s, x, 0, k);
    }
  }

  lemma {:induction false} SortedCurve(points: seq<Point>)
    requires points != [] && DistinctTenors(points)
    ensures var s := SortByTenor(points);
      s != [] && Increasing(s) && forall p :: p in s <==> p in points
  {
    SortIncreasing(points);
    var s := SortByTenor(points);
    assert |multiset(s)| == |multiset(points)|;
    assert forall p :: p in s <==> p in multiset(s);
    assert forall p :: p in points <==> p in multiset(points);
  }

  /** The result lies between any bounds of the rates, in particular the smallest and the largest. */
  lemma {:induction false} InterpWithinRates(points: seq<Point>, x: real, lo: real, hi: real)
    requires points != [] && DistinctTenors(points)
    requires forall p :: p in points ==> lo <= p.rate <= hi
    ensures lo <= LinearInterp(points, x) <= hi
  {
    SortedCurve(points);
    var s := SortByTenor(points);
    assert s[0] in s && s[|s| - 1] in s;
    var k := Place(s, x);
    if s[0].tenor < x < s[|s| - 1].tenor {
      assert s[k] in s && s[k + 1] in s;
      SegmentBetween(s[k], s[k + 1], x);
    }
  }

  /** Every knot is hit exactly. */
  lemma {:induction false} InterpHitsKnots(points: seq<Point>, p: Point)
    requires DistinctTenors(points) && p in points
    ensures LinearInterp(points, p.tenor) == p.rate
  {
    SortedCurve(points);
    var s := SortByTenor(points);
    var i :| 0 <= i < |s| && s[i] == p;
    var k := Place(s, p.tenor);
    if 0 < i < |s| - 1 {
      assert s[0].tenor < p.tenor < s[|s| - 1].tenor;
      ScanFinds(s, p.tenor, 0, i);
      SegmentEnds(s[i], s[i + 1]);
    }
  }

  /** Where rates do not fall with the tenor, the result does not fall with the target. */
  lemma {:induction false} InterpMonotone(points: seq<Point>, x: real, y: real)
    requires points != [] && DistinctTenors(points) && x <= y
    requires forall p, q :: p in points && q in points && p.tenor <= q.tenor ==> p.rate <= q.rate
    ensures LinearInterp(points, x) <= LinearInterp(points, y)
  {
    SortedCurve(points);
    var s := SortByTenor(points);
    var n := |s| - 1;
    forall i, j | 0 <= i <= j < |s| ensures s[i].rate <= s[j].rate {
      assert s[i] in s && s[j] in s;
    }
    var k := Place(s, x);
    var m := Place(s, y);
    var insideX, insideY := s[0].tenor < x < s[n].tenor, s[0].tenor < y < s[n].tenor;
    if insideX {
      SegmentBetween(s[k], s[k + 1], x);
    }
    if insideY {
      SegmentBetween(s[m], s[m + 1], y);
    }
    if insideX && insideY {
      InsideMonotone(s, x, y, k, m);
    }
  }

  lemma {:induction false} InsideMonotone(s: seq<Point>, x: real, y: real, k: nat, m: nat)
    requires Increasing(s) && forall i, j :: 0 <= i <= j < |s| ==> s[i].rate <= s[j].rate
    requires x <= y && InSegment(s, x, k) && InSegment(s, y, m)
    ensures x == y || Segment(s[k], s[k + 1], x) <= Segment(s[m], s[m + 1], y)
  {
    if k == m {
      SegmentMonotone(s[k], s[k + 1], x, y);
    } else if k < m {
      SegmentBetween(s[k], s[k + 1], x);
      SegmentBetween(s[m], s[m + 1], y);
      assert s[k + 1].rate <= s[m].rate;
    } else {
      assert s[m + 1].tenor <= s[k].tenor;
    }
  }

  /** The order of the points does not matter. */
  lemma {:induction false} InterpIgnoresOrder(a: seq<Point>, b: seq<Point>, x: real)
    requires DistinctTenors(a) && multiset(a) == multiset(b)
    ensures LinearInterp(a, x) == LinearInterp(b, x)
  {
    PermutedDistinct(a, b);
    SortIncreasing(a);
    SortIncreasing(b);
    IncreasingUnique(SortByTenor(a), SortByTenor(b));
    assert |multiset(a)| == |a| && |multiset(b)| == |b|;
  }

  lemma {:induction false} PermutedDistinct(a: seq<Point>, b: seq<Point>)
    requires DistinctTenors(a) && multiset(a) == multiset(b)
    ensures DistinctTenors(b)
  {
    forall i, j | 0 <= i < j < |b|
      ensures b[i].tenor != b[j].tenor
    {
      assert b[i] in multiset(a) && b[j] in multiset(a);
      var p :| 0 <= p < |a| && a[p] == b[i];
      var q :| 0 <= q < |a| && a[q] == b[j];
      OccursOnce(a, p);
      if b[i] == b[j] {
        OccursTwice(b, i, j);
      }
    }
  }

  lemma {:induction false} OccursOnce(s: seq<Point>, p: nat)
    requires DistinctTenors(s) && p < |s|
    ensures multiset(s)[s[p]] == 1
  {
    assert s == s[..p] + [s[p]] + s[p + 1..];
    assert s[p] !in multiset(s[..p]) && s[p] !in multiset(s[p + 1..]);
  }

  lemma {:induction false} OccursTwice(s: seq<Point>, i: nat, j: nat)
    requires i < j < |s| && s[i] == s[j]
    ensures multiset(s)[s[i]] >= 2
  {
    assert s == s[..j] + [s[j]] + s[j + 1..];
    assert s[..j] == s[..i] + [s[i]] + s[i + 1..j];
  }

  // ---- Linear between neighbours, constant outside ----

  /** The slope of a segment is that of its end points. */
  lemma {:induction false} SegmentIsLinear(a: Point, b: Point, x: real)
    requires a.tenor < b.tenor
    ensures (Segment(a, b, x) - a.rate) * (b.tenor - a.tenor) == (x - a.tenor) * (b.rate - a.rate)
  {
    var d, u := b.tenor - a.tenor, x - a.tenor;
    ScaleBack(u, d, b.rate - a.rate);
  }

  lemma {:induction false} ScaleBack(u: real, d: real, h: real)
    requires d != 0.0
    ensures (u / d * h) * d == u * h
  {
    var t := u / d;
    assert t * d == u;
    assert (t * h) * d == (t * d) * h;
  }

  /** No point of the list has a tenor strictly between those of p and q. */
  ghost predicate Neighbours(points: seq<Point>, p: Point, q: Point) {
    && p in points && q in points && p.tenor < q.tenor
    && forall r :: r in points ==> !(p.tenor < r.tenor < q.tenor)
  }

  /** Neighbours of the list are next to each other on the sorted curve. */
  lemma {:induction false} NeighboursAreNext(points: seq<Point>, p: Point, q: Point) returns (i: nat)
    requires DistinctTenors(points) && Neighbours(points, p, q)
    ensures var s := SortByTenor(points);
      Increasing(s) && i + 1 < |s| && s[i] == p && s[i + 1] == q
  {
    SortedCurve(points);
    var s := SortByTenor(points);
    i :| 0 <= i < |s| && s[i] == p;
    var j :| 0 <= j < |s| && s[j] == q;
    assert i < j;
    assert s[i + 1] in s && s[i].tenor < s[i + 1].tenor <= s[j].tenor;
  }

  /** Between two neighbours the result lies on the line through them. */
  lemma {:induction false} InterpIsLinear(points: seq<Point>, p: Point, q: Point, x: real)
    requires DistinctTenors(points) && Neighbours(points, p, q) && p.tenor <= x <= q.tenor
    ensures (LinearInterp(points, x) - p.rate) * (q.tenor - p.tenor) == (x - p.tenor) * (q.rate - p.rate)
  {
    var i := NeighboursAreNext(points, p, q);
    NeighbourSegment(points, SortByTenor(points), i, x);
    SegmentIsLinear(p, q, x);
  }

  lemma {:induction false} NeighbourSegment(points: seq<Point>, s: seq<Point>, i: nat, x: real)
    requires points != [] && s == SortByTenor(points) && Increasing(s) && InSegment(s, x, i)
    ensures LinearInterp(points, x) == Segment(s[i], s[i + 1], x)
  {
    SegmentEnds(s[i], s[i + 1]);
    assert i > 0 ==> s[0].tenor < s[i].tenor;
    assert i + 1 < |s| - 1 ==> s[i + 1].tenor < s[|s| - 1].tenor;
    if s[0].tenor < x < s[|s| - 1].tenor {
      ScanFinds(s, x, 0, i);
    }
  }

  /** Up to the first tenor the result is the rate of the first point, from the last tenor on that of the last; without points it is zero. */
  lemma {:induction false} InterpIsClamped(points: seq<Point>, p: Point, x: real)
    requires DistinctTenors(points) && p in points
    ensures (forall q :: q in points ==> p.tenor <= q.tenor) && x <= p.tenor ==> LinearInterp(points, x) == p.rate
    ensures (forall q :: q in points ==> q.tenor <= p.tenor) && x >= p.tenor ==> LinearInterp(points, x) == p.rate
    ensures LinearInterp([], x) == 0.0
  {
    SortedCurve(points);
    var s := SortByTenor(points);
    var i :| 0 <= i < |s| && s[i] == p;
    assert s[0] in s && s[|s| - 1] in s;
    assert i > 0 ==> s[0].tenor < p.tenor;
    assert i < |s| - 1 ==> p.tenor < s[|s| - 1].tenor;
    if x == p.tenor {
      InterpHitsKnots(points, p);
    }
  }
}
