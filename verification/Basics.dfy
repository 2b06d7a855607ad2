/** Result types, faults and small facts about sequences that the other modules share. */
module Basics {

  datatype Option<+T> = None | Some(value: T)

  datatype Result<+T> = Success(value: T) | Failure(fault: Fault)

  /** One constructor for each way the modelled code returns an error. Message texts are not kept. */
  datatype Fault =
    | SealedOverwrite | MemoConflict | NotFound
    | NotSealed | CorruptSnapshot | SourceUnresolved | ContentMismatch | MissingSnapshotId
    | BadDomino | EmptyChain | BadChain
    | UnknownDomino | NotDeterministic | ForbiddenRead | OutputMissing | ExecFailed
    | UnsupportedTable | MissingAfter | MalformedAfter | UnsealedRow | OrphanResult | IncompleteSync | ConsumeFailed
    | ContainerFailed

  ghost predicate Distinct<T>(s: seq<T>) {
    forall i, j :: 0 <= i < j < |s| ==> s[i] != s[j]
  }

  predicate IsHexDigit(c: char) {
    '0' <= c <= '9' || 'a' <= c <= 'f'
  }

  predicate IsHex(s: string) {
    forall c :: c in s ==> IsHexDigit(c)
  }

  function Elements<T>(s: seq<T>): set<T> {
    set x | x in s
  }

  /** Position of the first occurrence, or -1. */
  function IndexOf<T(==)>(s: seq<T>, x: T): (k: int)
    ensures -1 <= k < |s|
    ensures k == -1 <==> x !in s
    ensures k >= 0 ==> s[k] == x && x !in s[..k]
  {
    if s == [] then -1
    else if s[0] == x then 0
    else
      var r := IndexOf(s[1..], x);
      assert s == [s[0]] + s[1..];
      assert r >= 0 ==> s[..r + 1] == [s[0]] + s[1..][..r];
      if r < 0 then -1 else r + 1
  }

  lemma {:induction false} IndexOfDistinct<T>(s: seq<T>, k: nat)
    requires Distinct(s) && k < |s|
    ensures IndexOf(s, s[k]) == k
  {
    var r := IndexOf(s, s[k]);
    assert forall i :: 0 <= i < r ==> s[i] in s[..r];
  }

  function Filter<T>(keep: T -> bool, s: seq<T>): seq<T> {
    if s == [] then []
    else (if keep(s[0]) then [s[0]] else []) + Filter(keep, s[1..])
  }

  lemma {:induction false} AppendAssociates<T>(a: seq<T>, b: seq<T>, c: seq<T>)
    ensures a + (b + c) == (a + b) + c
  {
  }

  lemma {:induction false} FilterAppend<T>(keep: T -> bool, a: seq<T>, b: seq<T>)
    ensures Filter(keep, a + b) == Filter(keep, a) + Filter(keep, b)
  {
    if a == [] {
      assert a + b == b;
    } else {
      var first := if keep(a[0]) then [a[0]] else [];
      assert (a + b)[0] == a[0] && (a + b)[1..] == a[1..] + b;
      FilterAppend(keep, a[1..], b);
      AppendAssociates(first, Filter(keep, a[1..]), Filter(keep, b));
    }
  }

  lemma {:induction false} FilterAll<T>(keep: T -> bool, s: seq<T>)
    requires forall x :: x in s ==> keep(x)
    ensures Filter(keep, s) == s
  {
    if s != [] {
      FilterAll(keep, s[1..]);
    }
  }

  lemma {:induction false} FilterNone<T>(keep: T -> bool, s: seq<T>)
    requires forall x :: x in s ==> !keep(x)
    ensures Filter(keep, s) == []
  {
    if s != [] {
      FilterNone(keep, s[1..]);
    }
  }

  lemma {:induction false} FilterMembers<T>(keep: T -> bool, s: seq<T>)
    ensures forall x :: x in Filter(keep, s) <==> x in s && keep(x)
  {
    if s != [] {
      FilterMembers(keep, s[1..]);
      assert s == [s[0]] + s[1..];
    }
  }

  /** The elements of a duplicate-free sequence are as many as its length. */
  lemma {:induction false} DistinctCardinality<T>(s: seq<T>)
    ensures |Elements(s)| <= |s|
    ensures |Elements(s)| == |s| <==> Distinct(s)
  {
    if s != [] {
      var rest := s[1..];
      DistinctCardinality(rest);
      assert Elements(s) == Elements(rest) + {s[0]};
      if s[0] in rest {
        assert Elements(s) == Elements(rest);
        var j :| 0 <= j < |rest| && rest[j] == s[0];
        assert s[j + 1] == s[0];
      } else {
        assert |Elements(s)| == |Elements(rest)| + 1;
        if Distinct(rest) {
          forall i, j | 0 <= i < j < |s| ensures s[i] != s[j] {
            assert s[j] == rest[j - 1];
            if i > 0 { assert s[i] == rest[i - 1]; }
          }
        }
        if Distinct(s) {
          forall i, j | 0 <= i < j < |rest| ensures rest[i] != rest[j] {
            assert s[i + 1] != s[j + 1];
          }
        }
      }
    }
  }

  lemma {:induction false} SubsetCardinality<T>(a: set<T>, b: set<T>)
    requires a <= b
    ensures |a| <= |b|
    ensures |a| == |b| ==> a == b
  {
    var rest := b - a;
    assert b == a + rest;
    assert |b| == |a| + |rest|;
  }

  function Flatten<T>(parts: seq<seq<T>>): seq<T> {
    if parts == [] then [] else Flatten(parts[..|parts| - 1]) + parts[|parts| - 1]
  }

  ghost predicate Disjoint<T>(a: seq<T>, b: seq<T>) {
    forall x :: x in a ==> x !in b
  }

  lemma {:induction false} DistinctAppend<T>(a: seq<T>, b: seq<T>)
    ensures Distinct(a + b) <==> Distinct(a) && Distinct(b) && Disjoint(a, b)
  {
    var s := a + b;
    if Distinct(s) {
      forall i, j | 0 <= i < j < |a| ensures a[i] != a[j] { assert s[i] != s[j]; }
      forall i, j | 0 <= i < j < |b| ensures b[i] != b[j] { assert s[|a| + i] != s[|a| + j]; }
      forall i, j | 0 <= i < |a| && 0 <= j < |b| ensures a[i] != b[j] { assert s[i] != s[|a| + j]; }
    }
    if Distinct(a) && Distinct(b) && Disjoint(a, b) {
      forall i, j | 0 <= i < j < |s| ensures s[i] != s[j] {
        if j < |a| {
        } else if i < |a| {
          assert a[i] in a && b[j - |a|] in b;
        } else {
          assert b[i - |a|] != b[j - |a|];
        }
      }
    }
  }

  /** Two sequences that split at the first occurrence of c, split at the same place. */
  lemma {:induction false} SplitFirst<T>(c: T, a: seq<T>, x: seq<T>, b: seq<T>, y: seq<T>)
    requires c !in a && c !in b
    requires a + [c] + x == b + [c] + y
    ensures a == b && x == y
  {
    var s := a + [c] + x;
    assert s[|a|] == c && s[|b|] == c;
    assert forall i :: 0 <= i < |a| ==> s[i] == a[i];
    assert forall i :: 0 <= i < |b| ==> s[i] == b[i];
    assert |a| == |b|;
    assert a == s[..|a|] && b == s[..|b|];
    assert x == s[|a| + 1..] && y == s[|b| + 1..];
  }

  /** Two sequences that split at the last occurrence of c, split at the same place. */
  lemma {:induction false} SplitLast<T>(c: T, a: seq<T>, x: seq<T>, b: seq<T>, y: seq<T>)
    requires c !in x && c !in y
    requires a + [c] + x == b + [c] + y
    ensures a == b && x == y
  {
    var s := a + [c] + x;
    assert s == b + [c] + y;
    assert s[|a|] == c && s[|b|] == c;
    assert forall i :: |a| < i < |s| ==> s[i] == x[i - |a| - 1];
    assert forall i :: |b| < i < |s| ==> s[i] == y[i - |b| - 1];
    assert |a| == |b|;
    assert a == s[..|a|] && b == s[..|b|];
    assert x == s[|a| + 1..] && y == s[|b| + 1..];
  }
}

/** Decimal numerals, as printed by the verb %d for a non-negative number. */
module Decimal {

  function Digit(d: nat): char
    requires d < 10
  {
    "0123456789"[d]
  }

  function Dec(n: nat): string {
    if n < 10 then [Digit(n)] else Dec(n / 10) + [Digit(n % 10)]
  }

  predicate IsDigit(c: char) {
    '0' <= c <= '9'
  }

  lemma {:induction false} DecDigits(n: nat)
    ensures |Dec(n)| > 0
    ensures forall c :: c in Dec(n) ==> IsDigit(c)
  {
    if n >= 10 {
      DecDigits(n / 10);
    }
  }

  lemma {:induction false} DecInjective(a: nat, b: nat)
    requires Dec(a) == Dec(b)
    ensures a == b
  {
    var x, y := a / 10, b / 10;
    DecLast(a);
    DecLast(b);
    DigitInjective(a % 10, b % 10);
    DecLast(x);
    DecLast(y);
    assert a == 10 * x + a % 10 && b == 10 * y + b % 10;
    if a >= 10 && b >= 10 {
      DecInjective(x, y);
    }
  }

  lemma {:induction false} DigitInjective(c: nat, d: nat)
    requires c < 10 && d < 10 && Digit(c) == Digit(d)
    ensures c == d
  {
  }

  lemma {:induction false} DecLast(n: nat)
    ensures var s := Dec(n);
      && s != [] && s[|s| - 1] == Digit(n % 10)
      && s[..|s| - 1] == if n < 10 then [] else Dec(n / 10)
  {
  }
}
