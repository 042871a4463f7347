/** The two normalizers as they run: the interpreter's and the build's. Both update a
    clone of the property in place and re-insert what they parsed. */
module Normalizers {
  import opened Text
  import opened Json
  import opened Kinds
  import opened Schemas
  import opened Outputs
  import opened SchemaLaws
  import opened SchemaAgreement

  // A keyword that is refused, or parsed when present.
  datatype Parsed<T> = Refused | Parsed(value: Option<T>)

  // ----- enum

  function Texts(values: seq<string>): seq<Value> {
    if values == [] then [] else Texts(values[..|values| - 1]) + [Str(values[|values| - 1])]
  }

  predicate EnumEntryOk(impl: Impl, v: Value) {
    v.Str? && if impl.Generated? then Trim(v.s) != "" else v.s != ""
  }

  method ParseEnum(impl: Impl, o: Value, k: Kind) returns (r: Parsed<seq<string>>)
    requires o.Object?
    ensures r.Refused? <==> !EnumOk(impl, o, k)
    ensures r.Parsed? ==>
              Get(o, "enum") == match r.value case Some(values) => Some(Array(Texts(values))) case None => None
  {
    var raw := Get(o, "enum");
    if raw.None? {
      return Parsed(None);
    }
    if !k.KString? || !raw.value.Array? || raw.value.items == [] {
      return Refused;
    }
    r := ParseEntries(impl, raw.value.items);
    EntriesMeaning(impl, raw.value.items);
  }

  ghost predicate EntriesOk(impl: Impl, items: seq<Value>) {
    && (forall i :: 0 <= i < |items| ==> EnumEntryOk(impl, items[i]))
    && (forall i, j :: 0 <= i < j < |items| ==> items[i] != items[j])
  }

  lemma EntriesMeaning(impl: Impl, items: seq<Value>)
    ensures EntriesOk(impl, items)
       <==> && DistinctStrings(items)
            && forall i :: 0 <= i < |items| ==>
                 if impl.Generated? then NonBlank(items[i]).Some? else items[i].s != ""
  {
  }

  method ParseEntries(impl: Impl, items: seq<Value>) returns (r: Parsed<seq<string>>)
    ensures r.Refused? <==> !EntriesOk(impl, items)
    ensures r.Parsed? ==> r.value.Some? && items == Texts(r.value.value)
  {
    var parsed: seq<string> := [];
    var seen: set<string> := {};
    for i := 0 to |items|
      invariant items[..i] == Texts(parsed)
      invariant EntriesOk(impl, items[..i])
      invariant forall s :: s in seen <==> Str(s) in items[..i]
    {
      assert items[..i + 1] == items[..i] + [items[i]];
      EntryAdded(impl, items, i);
      if !EnumEntryOk(impl, items[i]) || items[i].s in seen {
        return Refused;
      }
      assert (parsed + [items[i].s])[..|parsed|] == parsed;
      seen := seen + {items[i].s};
      parsed := parsed + [items[i].s];
    }
    assert items[..|items|] == items;
    return Parsed(Some(parsed));
  }

  // The next entry decides, together with the ones before it.
  lemma EntryAdded(impl: Impl, items: seq<Value>, i: nat)
    requires i < |items| && EntriesOk(impl, items[..i])
    ensures EntriesOk(impl, items[..i + 1]) <==> EnumEntryOk(impl, items[i]) && items[i] !in items[..i]
    ensures EntriesOk(impl, items) ==> EntriesOk(impl, items[..i + 1])
  {
    assert forall j :: 0 <= j < i ==> items[..i][j] == items[..i + 1][j] == items[j];
  }

  // ----- numeric bounds

  datatype Constraint = Whole(i: int) | Double(f: real)
  {
    // `constraint_to_json`
    function ToJson(): Value {
      if Whole? then Num(Int(i)) else Num(Float(f))
    }
  }

  datatype Constraints = Constraints(minimum: Option<Constraint>, maximum: Option<Constraint>,
                                     exclusiveMinimum: Option<Constraint>, exclusiveMaximum: Option<Constraint>)

  // What is written back for a bound, if there is one.
  ghost predicate Written(o: Value, key: string, k: Kind, c: Option<Constraint>)
    requires o.Object?
  {
    if HasKey(o, key) then c.Some? && c.value.ToJson() == NormalBound(k, Get(o, key).value) else c.None?
  }

  ghost predicate AllWritten(o: Value, k: Kind, c: Constraints)
    requires o.Object?
  {
    && Written(o, "minimum", k, c.minimum) && Written(o, "maximum", k, c.maximum)
    && Written(o, "exclusiveMinimum", k, c.exclusiveMinimum) && Written(o, "exclusiveMaximum", k, c.exclusiveMaximum)
  }

  method ParseConstraint(o: Value, key: string, k: Kind) returns (r: Parsed<Constraint>)
    requires o.Object?
    ensures r.Refused? <==> !BoundOk(o, key, k)
    ensures r.Parsed? ==> Written(o, key, k, r.value)
  {
    var value := Get(o, key);
    if value.None? {
      return Parsed(None);
    }
    if !k.Numeric() || !value.value.Num? {
      return Refused;
    }
    var n := value.value.n;
    if k.KInteger? {
      return if n.AsI64().Some? then Parsed(Some(Whole(n.AsI64().value))) else Refused;
    }
    return Parsed(Some(Double(n.AsF64())));
  }

  method ParseConstraints(impl: Impl, o: Value, k: Kind) returns (r: Option<Constraints>)
    requires o.Object?
    ensures r.Some? <==> BoundsOk(o, k) && (impl.Generated? && k.Numeric() ==> BoundsLeaveRoom(o, k))
    ensures r.Some? ==> AllWritten(o, k, r.value)
  {
    var a := ParseConstraint(o, "minimum", k);
    var b := ParseConstraint(o, "maximum", k);
    var c := ParseConstraint(o, "exclusiveMinimum", k);
    var d := ParseConstraint(o, "exclusiveMaximum", k);
    if a.Refused? || b.Refused? || c.Refused? || d.Refused? {
      return None;
    }
    if (a.value.Some? && c.value.Some?) || (b.value.Some? && d.value.Some?) {
      return None;
    }
    if impl.Generated? && k.Numeric() && !BoundsLeaveRoom(o, k) {
      return None;
    }
    return Some(Constraints(a.value, b.value, c.value, d.value));
  }

  // `apply_numeric_constraint`
  method ApplyConstraint(ms: seq<Member>, key: string, c: Option<Constraint>) returns (r: seq<Member>)
    ensures r == if c.Some? then Put(ms, key, c.value.ToJson()) else ms
  {
    r := if c.Some? then Put(ms, key, c.value.ToJson()) else ms;
  }

  // The scalar arm of both: the enum and the bounds go back into the clone.
  method Reinsert(o: Value, k: Kind, typed: seq<Member>, values: Option<seq<string>>, c: Constraints)
    returns (r: seq<Member>)
    requires o.Object? && AllWritten(o, k, c)
    requires values.Some? ==> Find(typed, "enum") == Some(Array(Texts(values.value)))
    ensures r == PutBounds(typed, o, k)
  {
    r := typed;
    if values.Some? {
      r := Put(r, "enum", Array(Texts(values.value)));
    }
    r := ApplyConstraint(r, "minimum", c.minimum);
    r := ApplyConstraint(r, "maximum", c.maximum);
    r := ApplyConstraint(r, "exclusiveMinimum", c.exclusiveMinimum);
    r := ApplyConstraint(r, "exclusiveMaximum", c.exclusiveMaximum);
  }

  // ----- what a normalized property is for its callers

  /** A normalized schema accepts the outputs of its source, for both validators, and
      every property the descriptor accepts has one. */
  lemma NormalizedMeaning(impl: Impl, o: Value, context: Context)
    ensures Normalize(impl, o, context).Some? && RubricFree(o) ==>
              var n := Object(Normalize(impl, o, context).value.members);
              forall v :: StrictOutput(v, o) == StrictOutput(v, n) == RuntimeOutput(v, n)
    ensures forall rubricAllowed ::
              Descriptor(o, context, rubricAllowed).Some? ==> Normalize(impl, o, context).Some?
  {
    if Normalize(impl, o, context).Some? && RubricFree(o) {
      forall v
        ensures var n := Object(Normalize(impl, o, context).value.members);
                StrictOutput(v, o) == StrictOutput(v, n) == RuntimeOutput(v, n)
      {
        NormalizedOutputs(impl, o, context, v);
      }
    }
    forall rubricAllowed | Descriptor(o, context, rubricAllowed).Some?
      ensures Normalize(impl, o, context).Some?
    {
      DescriptorNormalizes(o, context, rubricAllowed);
    }
  }

  // ----- the interpreter's: description, type, context, enum and bounds

  method NormalizeSchemaProperty(o: Value, context: Context) returns (r: Option<Normalized>)
    ensures r == Normalize(Interpreted, o, context)
    decreases o, 1
  {
    if !o.Object? || !DescriptionOk(o) {
      return None;
    }
    var t := ParseFieldType(o, context);
    if t.None? || (context.ObjectProperty? && t.value.kind.Structured()) {
      return None;
    }
    var values := ParseEnum(Interpreted, o, t.value.kind);
    if values.Refused? {
      return None;
    }
    var constraints := ParseConstraints(Interpreted, o, t.value.kind);
    if constraints.None? {
      return None;
    }
    assert Checked(Interpreted, o, context);
    var typed := Put(o.members, "type", TypeValue(t.value));
    PutFind(o.members, "type", TypeValue(t.value), "enum");
    if t.value.kind.KArray? {
      r := SchemaItems(o, t.value, typed);
    } else if t.value.kind.KObject? {
      r := SchemaObject(o, t.value, typed);
    } else {
      var ms := Reinsert(o, t.value.kind, typed, values.value, constraints.value);
      return Some(Normalized(t.value.kind, ms));
    }
  }

  method SchemaItems(o: Value, t: FieldType, typed: seq<Member>) returns (r: Option<Normalized>)
    requires o.Object? && t.kind.KArray? && typed == Put(o.members, "type", TypeValue(t))
    ensures r == Rebuild(Interpreted, o, t)
    decreases o, 0
  {
    if !HasKey(o, "items") {
      return None;
    }
    var items := NormalizeSchemaProperty(Get(o, "items").value, ArrayItem);
    if items.None? || items.value.kind.KArray? {
      return None;
    }
    return Some(Normalized(KArray, Put(typed, "items", Object(items.value.members))));
  }

  method SchemaObject(o: Value, t: FieldType, typed: seq<Member>) returns (r: Option<Normalized>)
    requires o.Object? && t.kind.KObject? && typed == Put(o.members, "type", TypeValue(t))
    ensures r == Rebuild(Interpreted, o, t)
    decreases o, 0
  {
    var properties := Get(o, "properties");
    if properties.None? || !properties.value.Object? || properties.value.members == [] {
      return None;
    }
    var collected, required := SchemaProperties(properties.value.members);
    if collected.None? {
      return None;
    }
    return Some(Normalized(KObject, Closed(typed, collected.value, required)));
  }

  method SchemaProperties(props: seq<Member>) returns (r: Option<seq<Member>>, required: seq<Value>)
    ensures r == NormalizeProperties(Interpreted, props)
    ensures r.Some? ==> required == Names(r.value)
    decreases props, 0
  {
    var collected: seq<Member> := [];
    required := [];
    assert props[0..] == props;
    CollectNothing([], NormalizeProperties(Interpreted, props));
    for i := 0 to |props|
      invariant required == Names(collected)
      invariant NormalizeProperties(Interpreted, props)
             == Collected(collected, NormalizeProperties(Interpreted, props[i..]))
    {
      var p := NormalizeSchemaProperty(props[i].value, ObjectProperty);
      ListStep(Interpreted, props, i, collected, p);
      if p.None? || p.value.kind.Structured() {
        return None, [];
      }
      ghost var before := collected;
      collected := collected + [Member(props[i].key, Object(p.value.members))];
      assert collected[..|collected| - 1] == before;
      required := required + [Str(props[i].key)];
    }
    assert props[|props|..] == [];
    CollectNothing(collected, None);
    r := Some(collected);
  }

  // ----- the build's: type, context, description, enum and bounds, which must leave
  // room; the description is re-inserted as well

  method NormalizeAgentProperty(o: Value, context: Context) returns (r: Option<Normalized>)
    ensures r == Normalize(Generated, o, context)
    decreases o, 1
  {
    if !o.Object? {
      return None;
    }
    var t := ParseFieldType(o, context);
    if t.None? || (context.ObjectProperty? && t.value.kind.Structured()) {
      return None;
    }
    if !DescriptionOk(o) {
      return None;
    }
    var values := ParseEnum(Generated, o, t.value.kind);
    if values.Refused? {
      return None;
    }
    var constraints := ParseConstraints(Generated, o, t.value.kind);
    if constraints.None? {
      return None;
    }
    assert Checked(Generated, o, context);
    var typed := Put(o.members, "type", TypeValue(t.value));
    PutFind(o.members, "type", TypeValue(t.value), "description");
    PutFind(o.members, "type", TypeValue(t.value), "enum");
    if HasKey(o, "description") {
      typed := Put(typed, "description", Str(Get(o, "description").value.s));
    }
    if t.value.kind.KArray? {
      r := AgentItems(o, t.value, typed);
    } else if t.value.kind.KObject? {
      r := AgentObject(o, t.value, typed);
    } else {
      var ms := Reinsert(o, t.value.kind, typed, values.value, constraints.value);
      return Some(Normalized(t.value.kind, ms));
    }
  }

  method AgentItems(o: Value, t: FieldType, typed: seq<Member>) returns (r: Option<Normalized>)
    requires o.Object? && t.kind.KArray? && typed == Put(o.members, "type", TypeValue(t))
    ensures r == Rebuild(Generated, o, t)
    decreases o, 0
  {
    if !HasKey(o, "items") {
      return None;
    }
    var items := NormalizeAgentProperty(Get(o, "items").value, ArrayItem);
    if items.None? || items.value.kind.KArray? {
      return None;
    }
    return Some(Normalized(KArray, Put(typed, "items", Object(items.value.members))));
  }

  method AgentObject(o: Value, t: FieldType, typed: seq<Member>) returns (r: Option<Normalized>)
    requires o.Object? && t.kind.KObject? && typed == Put(o.members, "type", TypeValue(t))
    ensures r == Rebuild(Generated, o, t)
    decreases o, 0
  {
    var properties := Get(o, "properties");
    if properties.None? || !properties.value.Object? || properties.value.members == [] {
      return None;
    }
    var collected, required := AgentProperties(properties.value.members);
    if collected.None? {
      return None;
    }
    return Some(Normalized(KObject, Closed(typed, collected.value, required)));
  }

  method AgentProperties(props: seq<Member>) returns (r: Option<seq<Member>>, required: seq<Value>)
    ensures r == NormalizeProperties(Generated, props)
    ensures r.Some? ==> required == Names(r.value)
    decreases props, 0
  {
    var collected: seq<Member> := [];
    required := [];
    assert props[0..] == props;
    CollectNothing([], NormalizeProperties(Generated, props));
    for i := 0 to |props|
      invariant required == Names(collected)
      invariant NormalizeProperties(Generated, props)
             == Collected(collected, NormalizeProperties(Generated, props[i..]))
    {
      var p := NormalizeAgentProperty(props[i].value, ObjectProperty);
      ListStep(Generated, props, i, collected, p);
      if p.None? || p.value.kind.Structured() {
        return None, [];
      }
      ghost var before := collected;
      collected := collected + [Member(props[i].key, Object(p.value.members))];
      assert collected[..|collected| - 1] == before;
      required := required + [Str(props[i].key)];
    }
    assert props[|props|..] == [];
    CollectNothing(collected, None);
    r := Some(collected);
  }

  // ----- collecting properties one by one

  ghost function Collected(done: seq<Member>, rest: Option<seq<Member>>): Option<seq<Member>> {
    if rest.Some? then Some(done + rest.value) else None
  }

  lemma ListStep(impl: Impl, props: seq<Member>, i: nat, done: seq<Member>, p: Option<Normalized>)
    requires i < |props| && p == Normalize(impl, props[i].value, ObjectProperty)
    ensures var all := Collected(done, NormalizeProperties(impl, props[i..]));
            if p.None? || p.value.kind.Structured() then all == None
            else all == Collected(done + [Member(props[i].key, Object(p.value.members))],
                                  NormalizeProperties(impl, props[i + 1..]))
  {
    assert props[i..][1..] == props[i + 1..];
    var rest := NormalizeProperties(impl, props[i + 1..]);
    if p.Some? && !p.value.kind.Structured() {
      CollectOne(done, props[i].key, p, rest);
    }
  }

  lemma CollectNothing(done: seq<Member>, rest: Option<seq<Member>>)
    ensures Collected([], rest) == rest && Collected(done, Some([])) == Some(done)
  {
    if rest.Some? {
      assert [] + rest.value == rest.value;
    }
    assert done + [] == done;
  }

  lemma CollectOne(done: seq<Member>, key: string, p: Option<Normalized>, rest: Option<seq<Member>>)
    requires p.Some? && !p.value.kind.Structured()
    ensures Collected(done, WithHead(key, p, rest))
         == Collected(done + [Member(key, Object(p.value.members))], rest)
  {
    var m := [Member(key, Object(p.value.members))];
    if rest.Some? {
      assert done + (m + rest.value) == done + m + rest.value;
    }
  }
}
