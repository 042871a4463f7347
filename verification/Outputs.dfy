/** The two output validators: the strict `output_value` and the interpreter's. */
module Outputs {
  import opened Text
  import opened Json
  import opened Kinds
  import opened Schemas

  // ----- the strict validator, without its budget

  // Numbers of a rubric field are compared exactly, other numbers as doubles.
  function Measure(o: Value, k: Kind, n: Number): real
    requires o.Object?
  {
    if k.KInteger? || HasKey(o, "rubric") then n.Exact() else n.AsF64()
  }

  predicate InOrder(key: string, value: real, bound: real) {
    if key == "minimum" then bound <= value
    else if key == "maximum" then value <= bound
    else if key == "exclusiveMinimum" then bound < value
    else value < bound
  }

  predicate StrictBound(o: Value, key: string, k: Kind, n: Number)
    requires o.Object?
  {
    HasKey(o, key) ==>
      var b := Get(o, key).value;
      b.Num? && (k.KInteger? ==> b.n.AsI64().Some?) && InOrder(key, Measure(o, k, n), Measure(o, k, b.n))
  }

  predicate StrictBounds(o: Value, k: Kind, n: Number)
    requires o.Object?
  {
    && StrictBound(o, "minimum", k, n) && StrictBound(o, "maximum", k, n)
    && StrictBound(o, "exclusiveMinimum", k, n) && StrictBound(o, "exclusiveMaximum", k, n)
  }

  predicate EnumAllows(o: Value, v: Value)
    requires o.Object?
  {
    HasKey(o, "enum") && Get(o, "enum").value.Array? ==> v in Get(o, "enum").value.items
  }

  predicate StrictOutput(v: Value, o: Value)
    decreases v, 1
  {
    && o.Object?
    && var t := SchemaType(o, true);
       && t.Some?
       && var k := t.value.kind;
          || (v.Null? && t.value.nullable)
          || (&& k.Matches(v) && EnumAllows(o, v)
              && (k.Numeric() ==> StrictBounds(o, k, v.n))
              && (k.KArray? ==>
                    && HasKey(o, "items")
                    && forall i :: 0 <= i < |v.items| ==> StrictOutput(v.items[i], Get(o, "items").value))
              && (k.KObject? ==>
                    && HasKey(o, "properties") && Get(o, "properties").value.Object?
                    && StrictMembers(v, Get(o, "properties").value.members)))
  }

  predicate StrictMembers(v: Value, props: seq<Member>)
    requires v.Object?
    decreases v, 0
  {
    && (forall i :: 0 <= i < |v.members| ==> Has(props, v.members[i].key))
    && forall i :: 0 <= i < |props| ==>
         HasKey(v, props[i].key) && StrictOutput(Get(v, props[i].key).value, props[i].value)
  }

  // ----- the interpreter's validator

  // The loop of `parse_runtime_schema_type`: names are compared as they stand.
  function RuntimeUnion(entries: seq<Value>, nullable: bool, scalar: Option<string>): Option<(string, bool)> {
    if entries == [] then
      if scalar.Some? && nullable then Some((scalar.value, true)) else None
    else if !entries[0].Str? then None
    else if entries[0].s == "null" then RuntimeUnion(entries[1..], true, scalar)
    else if scalar.Some? then None
    else RuntimeUnion(entries[1..], nullable, Some(entries[0].s))
  }

  function RuntimeType(o: Value): Option<(string, bool)>
    requires o.Object?
  {
    match Get(o, "type")
    case Some(Str(s)) => Some((s, false))
    case Some(Array(entries)) => if |entries| == 2 then RuntimeUnion(entries, false, None) else None
    case _ => None
  }

  // A bound of the wrong form is skipped, not refused.
  predicate RuntimeBound(o: Value, key: string, k: Kind, n: Number)
    requires o.Object?
  {
    HasKey(o, key) && Get(o, key).value.Num? && (k.KInteger? ==> Get(o, key).value.n.AsI64().Some?) ==>
      InOrder(key, Rank(k, n), Rank(k, Get(o, key).value.n))
  }

  predicate RuntimeBounds(o: Value, k: Kind, n: Number)
    requires o.Object?
  {
    && RuntimeBound(o, "minimum", k, n) && RuntimeBound(o, "exclusiveMinimum", k, n)
    && RuntimeBound(o, "maximum", k, n) && RuntimeBound(o, "exclusiveMaximum", k, n)
  }

  predicate RuntimeOutput(v: Value, o: Value)
    decreases v, 1
  {
    && o.Object?
    && var t := RuntimeType(o);
       && t.Some?
       && if v.Null? then t.value.1 else
          match NamedKind(t.value.0)
          case Some(KString) =>
            v.Str? && (HasKey(o, "enum") && Get(o, "enum").value.Array? ==> v in Get(o, "enum").value.items)
          case Some(KBoolean) => v.Bool?
          case Some(KArray) =>
            && v.Array? && HasKey(o, "items")
            && forall i :: 0 <= i < |v.items| ==> RuntimeOutput(v.items[i], Get(o, "items").value)
          case Some(KObject) =>
            && v.Object? && HasKey(o, "properties") && Get(o, "properties").value.Object?
            && RuntimeMembers(v, Get(o, "properties").value.members)
          case Some(k) =>
            k.Matches(v) && RuntimeBounds(o, k, v.n)
          case None => false
  }

  predicate RuntimeMembers(v: Value, props: seq<Member>)
    requires v.Object?
    decreases v, 0
  {
    && (forall i :: 0 <= i < |props| ==>
          HasKey(v, props[i].key) && RuntimeOutput(Get(v, props[i].key).value, props[i].value))
    && forall i :: 0 <= i < |v.members| ==> Has(props, v.members[i].key)
  }

  // ----- the definition as a whole

  // `json_schema_value`
  function WrapperSchema(props: seq<Member>): Value {
    Object([Member("type", Str("object")), Member("properties", Object(props)),
            Member("additionalProperties", Bool(false)), Member("required", Array(Names(props)))])
  }

  // `validate_response_value`
  predicate RuntimeResponse(v: Value, props: seq<Member>) {
    if props == [] then v == Object([]) else v.Object? && RuntimeMembers(v, props)
  }
}
