/**
JSON values and the outside world of the engine: digest, JSON text, command execution and
external snapshot sources are parameters, collected in `Runtime`.
*/
module Runtime {
  import opened Basics

  /** A finite float64 is a rational number; JSON text can denote every rational and nothing more. */
  ghost predicate IsRational(r: real) {
    exists p: int, q: int :: IsRatio(r, p, q)
  }

  ghost predicate IsRatio(r: real, p: int, q: int) {
    q > 0 && r * q as real == p as real
  }

  type Rational = r: real | IsRational(r) witness (assert IsRatio(0.0, 0, 1); 0.0)

  function Zero(): Rational {
    assert IsRatio(0.0, 0, 1);
    0.0
  }

  function FromNat(n: nat): Rational {
    assert IsRatio(n as real, n, 1);
    n as real
  }

  lemma {:induction false} SumIsRational(a: Rational, b: Rational)
    ensures IsRational(a + b)
  {
    assert IsRational(a) && IsRational(b);
    var p: int, q: int :| IsRatio(a, p, q);
    var s: int, t: int :| IsRatio(b, s, t);
    var q', t' := q as real, t as real;
    assert q * t > 0;
    calc {
      (a + b) * (q * t) as real;
      (a + b) * (q' * t');
      (a * q') * t' + (b * t') * q';
      p as real * t' + s as real * q';
      (p * t + s * q) as real;
    }
    assert IsRatio(a + b, p * t + s * q, q * t);
  }

  function Add(a: Rational, b: Rational): (r: Rational)
    ensures r == a + b
  {
    SumIsRational(a, b);
    a + b
  }

  datatype Json =
    | Null
    | Bool(b: bool)
    | Num(n: Rational)
    | Str(s: string)
    | Arr(items: seq<Json>)
    | Obj(fields: map<string, Json>)

  /**
  - digest: the hex SHA-256 of a text (hash.Compute on a string);
  - marshal and unmarshal: JSON text of a value and back;
  - exec: executor.Execute. The first argument counts evaluations, so an executor need not be a
    function of its input: sandbox:impure reads such a counter and the clock;
  - fetch: content of a path or URI source.
  */
  datatype Runtime = Runtime(
    digest: string -> string,
    marshal: Json -> string,
    unmarshal: string -> Option<Json>,
    exec: (nat, string, string) -> Option<string>,
    fetch: string -> Option<Json>)

  ghost predicate JsonLaws(rt: Runtime) {
    && (forall v: Json :: rt.unmarshal(rt.marshal(v)) == Some(v))
    && rt.marshal(Null) == "null"
    && rt.unmarshal("") == None
  }

  /** 64 hex characters. */
  ghost predicate DigestLaws(rt: Runtime) {
    forall s: string :: |rt.digest(s)| == 64 && IsHex(rt.digest(s))
  }

  ghost predicate CollisionFree(digest: string -> string, texts: set<string>) {
    forall x, y :: x in texts && y in texts && digest(x) == digest(y) ==> x == y
  }

  lemma {:induction false} MarshalText(rt: Runtime, v: Json)
    requires JsonLaws(rt)
    ensures rt.marshal(v) != ""
    ensures rt.marshal(v) == "null" <==> v == Null
  {
    assert rt.unmarshal(rt.marshal(v)) == Some(v);
    assert rt.unmarshal(rt.marshal(Null)) == Some(Null);
  }

  function Prefix(s: string, n: nat): string {
    if n <= |s| then s[..n] else s
  }

  predicate HasPrefix(s: string, p: string) {
    p <= s
  }
}
