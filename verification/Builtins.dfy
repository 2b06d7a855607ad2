/** The builtin commands that an unfolded workflow uses. */
module Builtins {
  import opened Basics
  import opened Runtime

  /** The number that a JSON value carries: itself, or its field value or v. */
  function NumericValue(v: Json): Rational {
    match v
    case Num(n) => n
    case Obj(fields) =>
      if "value" in fields then NumericValue(fields["value"])
      else if "v" in fields then NumericValue(fields["v"])
      else Zero()
    case _ => Zero()
  }

  function SumOf(items: seq<Json>): Rational {
    if items == [] then Zero() else Add(SumOf(items[..|items| - 1]), NumericValue(items[|items| - 1]))
  }

  function CoarsenItems(raw: Json): seq<Json> {
    if raw.Arr? then raw.items else [raw]
  }

  function CoarsenResult(sum: Rational, parts: nat): Json {
    Obj(map["value" := Num(sum), "v" := Num(sum), "parts" := Num(FromNat(parts)), "method" := Str("sum")])
  }

  function CoarsenText(rt: Runtime, input: string): Option<string> {
    if input == "" || input == "null" then Some(rt.marshal(CoarsenResult(Zero(), 0)))
    else
      var raw := rt.unmarshal(input);
      if raw.None? then None
      else
        var items := CoarsenItems(raw.value);
        Some(rt.marshal(CoarsenResult(SumOf(items), |items|)))
  }

  method ComputeCoarsenText(rt: Runtime, input: string) returns (out: Option<string>)
    ensures out == CoarsenText(rt, input)
  {
    if input == "" || input == "null" {
      return Some(rt.marshal(CoarsenResult(Zero(), 0)));
    }
    var raw := rt.unmarshal(input);
    if raw.None? {
      return None;
    }
    var items := CoarsenItems(raw.value);
    var sum := Zero();
    for i := 0 to |items|
      invariant sum == SumOf(items[..i])
    {
      assert items[..i + 1][..i] == items[..i];
      sum := Add(sum, NumericValue(items[i]));
    }
    assert items[..|items|] == items;
    return Some(rt.marshal(CoarsenResult(sum, |items|)));
  }

  function IdentityText(rt: Runtime, input: string): string {
    if input == "" || input == "null" then input
    else
      var data := rt.unmarshal(input);
      if data.None? then input else rt.marshal(data.value)
  }

  /** The executor dispatches these two commands to the builtins. Nothing is said about others. */
  ghost predicate RunsBuiltins(rt: Runtime) {
    && (forall t: nat, s: string :: rt.exec(t, "builtin:identity", s) == Some(IdentityText(rt, s)))
    && (forall t: nat, s: string :: rt.exec(t, "builtin:coarsen", s) == CoarsenText(rt, s))
  }

  lemma {:induction false} IdentityOfMarshal(rt: Runtime, v: Json)
    requires JsonLaws(rt)
    ensures IdentityText(rt, rt.marshal(v)) == rt.marshal(v)
  {
  }

  /** Text that is not JSON passes through; texts of one value give one output, the canonical text of that value. */
  lemma {:induction false} IdentityIsCanonical(rt: Runtime, x: string, y: string)
    requires JsonLaws(rt)
    ensures rt.unmarshal(x).None? ==> IdentityText(rt, x) == x
    ensures rt.unmarshal(IdentityText(rt, x)) == rt.unmarshal(x)
    ensures rt.unmarshal(x).Some? && rt.unmarshal(x) == rt.unmarshal(y) ==>
              IdentityText(rt, x) == IdentityText(rt, y) == rt.marshal(rt.unmarshal(x).value)
  {
    assert rt.unmarshal(rt.marshal(Null)) == Some(Null);
    if rt.unmarshal(x).Some? {
      assert rt.unmarshal(rt.marshal(rt.unmarshal(x).value)) == rt.unmarshal(x);
    }
  }

  /** No input counts as null; text that is not JSON is an error. */
  lemma {:induction false} CoarsenOfText(rt: Runtime, x: string)
    requires JsonLaws(rt)
    ensures CoarsenText(rt, "") == CoarsenText(rt, rt.marshal(Null))
    ensures x != "" && rt.unmarshal(x).None? ==> CoarsenText(rt, x) == None
  {
    assert rt.unmarshal(rt.marshal(Null)) == Some(Null);
  }

  /** Coarsening the text of a value other than null sums its items. */
  lemma {:induction false} CoarsenOfMarshal(rt: Runtime, v: Json)
    requires JsonLaws(rt) && v != Null
    ensures var items := CoarsenItems(v);
      CoarsenText(rt, rt.marshal(v)) == Some(rt.marshal(CoarsenResult(SumOf(items), |items|)))
  {
    MarshalText(rt, v);
  }

  /** From v, the fields on the path lead to w; a field v counts only where there is no field value. */
  predicate Leads(v: Json, path: seq<string>, w: Json)
    decreases |path|
  {
    if path == [] then v == w
    else
      && v.Obj? && path[0] in v.fields
      && (path[0] == "value" || (path[0] == "v" && "value" !in v.fields))
      && Leads(v.fields[path[0]], path[1..], w)
  }

  /** The numeric value is the number at the end of that path, and zero where the path ends in no number. */
  lemma {:induction false} NumericValueIsAtEnd(v: Json) returns (path: seq<string>, w: Json)
    ensures Leads(v, path, w)
    ensures if w.Num? then NumericValue(v) == w.n
            else NumericValue(v) == 0.0 && !(w.Obj? && ("value" in w.fields || "v" in w.fields))
    decreases v
  {
    path, w := [], v;
    if v.Obj? && ("value" in v.fields || "v" in v.fields) {
      var key := if "value" in v.fields then "value" else "v";
      var rest;
      rest, w := NumericValueIsAtEnd(v.fields[key]);
      path := [key] + rest;
      assert path[1..] == rest;
    }
  }

  lemma {:induction false} LeadsToOne(v: Json, p: seq<string>, x: Json, q: seq<string>, y: Json)
    requires Leads(v, p, x) && Leads(v, q, y)
    requires !(x.Obj? && ("value" in x.fields || "v" in x.fields)) && !(y.Obj? && ("value" in y.fields || "v" in y.fields))
    ensures x == y
    decreases |p|
  {
    if p != [] && q != [] {
      LeadsToOne(v.fields[p[0]], p[1..], x, q[1..], y);
    }
  }

  /** The text that coarsen gives for a value: the sum under both keys, and the number of its items. */
  lemma {:induction false} CoarsenedFields(rt: Runtime, v: Json) returns (fields: map<string, Json>)
    requires JsonLaws(rt)
    ensures var items := if v == Null then [] else if v.Arr? then v.items else [v];
      var out := CoarsenText(rt, rt.marshal(v));
      && out.Some? && rt.unmarshal(out.value) == Some(Obj(fields))
      && fields.Keys == {"value", "v", "parts", "method"}
      && fields["value"] == fields["v"] == Num(SumOf(items))
      && fields["parts"] == Num(FromNat(|items|)) && fields["method"] == Str("sum")
  {
    MarshalText(rt, v);
    var items := if v == Null then [] else CoarsenItems(v);
    var result := CoarsenResult(SumOf(items), |items|);
    fields := result.fields;
    assert rt.unmarshal(rt.marshal(result)) == Some(result);
  }

  lemma {:induction false} CoarsenResultValue(sum: Rational, parts: nat)
    ensures NumericValue(CoarsenResult(sum, parts)) == sum
  {
    var fields := CoarsenResult(sum, parts).fields;
    assert "value" in fields && fields["value"] == Num(sum);
  }
}
