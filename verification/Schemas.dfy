/** Output schema properties: the strict descriptor check and the two
    normalizers, the interpreter's and the generated agent's. */
module Schemas {
  import opened Text
  import opened Json
  import opened Kinds
  import opened Budgets

  datatype Context = TopLevel | ArrayItem | ObjectProperty
  datatype Impl = Interpreted | Generated
  datatype FieldType = FieldType(kind: Kind, nullable: bool)
  datatype Normalized = Normalized(kind: Kind, members: seq<Member>)

  function Get(o: Value, key: string): (r: Option<Value>)
    requires o.Object?
    ensures r == Find(o.members, key)
    ensures r.Some? ==> r.value < o
  {
    var r := Find(o.members, key);
    assert r.Some? ==> exists i :: 0 <= i < |o.members| && o.members[i] == Member(key, r.value) && o.members[i] < o;
    r
  }

  predicate HasKey(o: Value, key: string)
    requires o.Object?
  { Get(o, key).Some? }

  // ----- type keywords

  // A scalar type and null, in either order.
  function NullablePair(first: Value, second: Value): Option<FieldType> {
    if !first.Str? || !second.Str? then None
    else
      var a, b := Normal(first.s), Normal(second.s);
      if a != "null" && b != "null" then None
      else
        var k := ParseKind(if a == "null" then b else a);
        if k.Some? && !k.value.Structured() then Some(FieldType(k.value, true)) else None
  }

  // `schema_type`
  function SchemaType(o: Value, nullableAllowed: bool): Option<FieldType>
    requires o.Object?
  {
    match Get(o, "type")
    case Some(Str(s)) =>
      var k := ParseKind(s);
      if k.Some? then Some(FieldType(k.value, false)) else None
    case Some(Array(entries)) =>
      if !nullableAllowed || |entries| != 2 then None else NullablePair(entries[0], entries[1])
    case _ => None
  }

  // The loop of `parse_nullable_schema_field_type`, from what it has seen so far.
  function ParseUnion(entries: seq<Value>, nullable: bool, scalar: Option<Kind>): Option<FieldType> {
    if entries == [] then
      if scalar.Some? && nullable then Some(FieldType(scalar.value, true)) else None
    else if !entries[0].Str? then None
    else if Normal(entries[0].s) == "null" then ParseUnion(entries[1..], true, scalar)
    else
      var k := ParseKind(Normal(entries[0].s));
      if k.None? || k.value.Structured() || scalar.Some? then None
      else ParseUnion(entries[1..], nullable, k)
  }

  // `parse_schema_field_type`, alike in both parsers.
  function ParseFieldType(o: Value, context: Context): Option<FieldType>
    requires o.Object?
  {
    match Get(o, "type")
    case Some(Str(s)) =>
      var k := ParseKind(s);
      if k.Some? then Some(FieldType(k.value, false)) else None
    case Some(Array(entries)) =>
      if context.ObjectProperty? && |entries| == 2 then ParseUnion(entries, false, None) else None
    case _ => None
  }

  function TypeValue(t: FieldType): Value {
    if t.nullable then Array([Str(t.kind.Name()), Str("null")]) else Str(t.kind.Name())
  }

  // ----- enum, description and numeric keywords

  predicate DescriptionOk(o: Value)
    requires o.Object?
  {
    HasKey(o, "description") ==> NonBlank(Get(o, "description").value).Some?
  }

  predicate DistinctStrings(values: seq<Value>) {
    && (forall i :: 0 <= i < |values| ==> values[i].Str?)
    && (forall i, j :: 0 <= i < j < |values| ==> values[i] != values[j])
  }

  predicate StrictEnum(v: Value) {
    && v.Array? && 0 < |v.items| <= MAX_PARTS && DistinctStrings(v.items)
    && forall i :: 0 <= i < |v.items| ==> NonBlank(v.items[i]).Some?
  }

  // The interpreter refuses empty enum strings, the build blank ones.
  predicate EnumOk(impl: Impl, o: Value, k: Kind)
    requires o.Object?
  {
    HasKey(o, "enum") ==>
      var v := Get(o, "enum").value;
      && k.KString? && v.Array? && v.items != [] && DistinctStrings(v.items)
      && forall i :: 0 <= i < |v.items| ==>
           if impl.Generated? then NonBlank(v.items[i]).Some? else v.items[i].s != ""
  }

  predicate IsBoundKey(key: string) {
    key == "minimum" || key == "maximum" || key == "exclusiveMinimum" || key == "exclusiveMaximum"
  }

  predicate BoundOk(o: Value, key: string, k: Kind)
    requires o.Object?
  {
    HasKey(o, key) ==> k.Numeric() && k.Matches(Get(o, key).value)
  }

  predicate BoundsOk(o: Value, k: Kind)
    requires o.Object?
  {
    && BoundOk(o, "minimum", k) && BoundOk(o, "maximum", k)
    && BoundOk(o, "exclusiveMinimum", k) && BoundOk(o, "exclusiveMaximum", k)
    && !(HasKey(o, "minimum") && HasKey(o, "exclusiveMinimum"))
    && !(HasKey(o, "maximum") && HasKey(o, "exclusiveMaximum"))
  }

  // What a bound compares as: an exact integer, or a double.
  function Rank(k: Kind, n: Number): real {
    if k.KInteger? then n.Exact() else n.AsF64()
  }

  predicate BoundsLeaveRoom(o: Value, k: Kind)
    requires o.Object? && k.Numeric() && BoundsOk(o, k)
  {
    var lower := if HasKey(o, "minimum") then Get(o, "minimum") else Get(o, "exclusiveMinimum");
    var upper := if HasKey(o, "maximum") then Get(o, "maximum") else Get(o, "exclusiveMaximum");
    lower.Some? && upper.Some? ==>
      var a, b := Rank(k, lower.value.n), Rank(k, upper.value.n);
      if HasKey(o, "exclusiveMinimum") || HasKey(o, "exclusiveMaximum") then a < b else a <= b
  }

  // ----- the strict descriptor

  predicate AllowedKey(k: Kind, rubric: bool, key: string) {
    || key == "type" || key == "description"
    || match k
       case KString => key == "enum"
       case KBoolean => false
       case KArray => key == "items"
       case KObject => key == "properties"
       case _ => IsBoundKey(key) || (rubric && k.KNumber? && key == "rubric")
  }

  predicate KeysAllowed(o: Value, k: Kind, rubric: bool)
    requires o.Object?
  {
    forall i :: 0 <= i < |o.members| ==> AllowedKey(k, rubric, o.members[i].key)
  }

  // From 2^1024 - 2^970 on, a difference of doubles rounds to infinity.
  const TWO_256: int := 0x1_0000_0000_0000_0000_0000_0000_0000_0000_0000_0000_0000_0000_0000_0000_0000_0000
  const TWO_202: int := 0x400_0000_0000_0000_0000_0000_0000_0000_0000_0000_0000_0000_0000
  const SPAN_LIMIT: int := TWO_256 * TWO_256 * TWO_256 * (TWO_256 - TWO_202)

  predicate RubricOk(o: Value, k: Kind)
    requires o.Object? && (k.Numeric() ==> BoundsOk(o, k))
  {
    HasKey(o, "rubric") ==>
      var levels := Get(o, "rubric").value;
      && levels.Array? && 2 <= |levels.items| <= 10
      && (forall i :: 0 <= i < |levels.items| ==> NonBlank(levels.items[i]).Some?)
      && HasKey(o, "description")
      && !HasKey(o, "exclusiveMinimum") && !HasKey(o, "exclusiveMaximum")
      && HasKey(o, "minimum") && HasKey(o, "maximum")
      && k.KNumber? && Get(o, "minimum").value.n.AsF64() < Get(o, "maximum").value.n.AsF64()
      && Get(o, "maximum").value.n.AsF64() - Get(o, "minimum").value.n.AsF64() < SPAN_LIMIT as real
  }

  // Everything the descriptor checks but the schemas below.
  predicate LevelOk(o: Value, context: Context, rubricAllowed: bool, k: Kind)
    requires o.Object?
  {
    && KeysAllowed(o, k, rubricAllowed && context.TopLevel?)
    && DescriptionOk(o)
    && !(context.ObjectProperty? && k.Structured())
    && !(context.ArrayItem? && k.KArray?)
    && (HasKey(o, "enum") ==> StrictEnum(Get(o, "enum").value))
    && (k.Numeric() ==> BoundsOk(o, k) && BoundsLeaveRoom(o, k))
    && RubricOk(o, k)
  }

  function Descriptor(o: Value, context: Context, rubricAllowed: bool): Option<Kind>
    decreases o
  {
    if !o.Object? then None
    else
      var t := SchemaType(o, context.ObjectProperty?);
      if t.None? then None
      else
        var k := t.value.kind;
        if
          && LevelOk(o, context, rubricAllowed, k)
          && (k.KArray? ==> HasKey(o, "items") && Descriptor(Get(o, "items").value, ArrayItem, rubricAllowed).Some?)
          && (k.KObject? ==>
                && HasKey(o, "properties")
                && var props := Get(o, "properties").value;
                   && props.Object? && 0 < |props.members| <= MAX_DECLARATIONS
                   && forall i :: 0 <= i < |props.members| ==>
                        Descriptor(props.members[i].value, ObjectProperty, rubricAllowed).Some?)
        then Some(k) else None
  }

  // ----- the normalizers

  function NormalBound(k: Kind, v: Value): Value {
    if k.KNumber? && v.Num? then Num(Float(v.n.AsF64())) else v
  }

  function PutBound(ms: seq<Member>, o: Value, key: string, k: Kind): seq<Member>
    requires o.Object?
  {
    if HasKey(o, key) then Put(ms, key, NormalBound(k, Get(o, key).value)) else ms
  }

  function PutBounds(ms: seq<Member>, o: Value, k: Kind): seq<Member>
    requires o.Object?
  {
    var ms1 := PutBound(ms, o, "minimum", k);
    var ms2 := PutBound(ms1, o, "maximum", k);
    var ms3 := PutBound(ms2, o, "exclusiveMinimum", k);
    PutBound(ms3, o, "exclusiveMaximum", k)
  }

  function Names(props: seq<Member>): seq<Value> {
    if props == [] then [] else Names(props[..|props| - 1]) + [Str(props[|props| - 1].key)]
  }

  // The checks before the schema is rebuilt. Integer bounds and enum values are
  // re-inserted as they were, so only the type and double bounds change.
  predicate Checked(impl: Impl, o: Value, context: Context)
    requires o.Object?
  {
    && DescriptionOk(o)
    && var t := ParseFieldType(o, context);
       && t.Some?
       && !(context.ObjectProperty? && t.value.kind.Structured())
       && EnumOk(impl, o, t.value.kind)
       && BoundsOk(o, t.value.kind)
       && (impl.Generated? && t.value.kind.Numeric() ==> BoundsLeaveRoom(o, t.value.kind))
  }

  function Normalize(impl: Impl, o: Value, context: Context): Option<Normalized>
    decreases o, 3
  {
    if !o.Object? || !Checked(impl, o, context) then None
    else Rebuild(impl, o, ParseFieldType(o, context).value)
  }

  // A checked schema of type t, with its type, children and bounds normalized.
  function Rebuild(impl: Impl, o: Value, t: FieldType): Option<Normalized>
    requires o.Object?
    decreases o, 2
  {
    var typed := Put(o.members, "type", TypeValue(t));
    match t.kind
    case KArray => RebuildArray(impl, o, typed)
    case KObject => RebuildObject(impl, o, typed)
    case k => Some(Normalized(k, PutBounds(typed, o, k)))
  }

  function RebuildArray(impl: Impl, o: Value, typed: seq<Member>): Option<Normalized>
    requires o.Object?
    decreases o, 1
  {
    if !HasKey(o, "items") then None
    else
      var items := Normalize(impl, Get(o, "items").value, ArrayItem);
      if items.None? || items.value.kind.KArray? then None
      else Some(Normalized(KArray, Put(typed, "items", Object(items.value.members))))
  }

  function RebuildObject(impl: Impl, o: Value, typed: seq<Member>): Option<Normalized>
    requires o.Object?
    decreases o, 1
  {
    if !HasKey(o, "properties") || !Get(o, "properties").value.Object?
       || Get(o, "properties").value.members == [] then None
    else
      var props := NormalizeProperties(impl, Get(o, "properties").value.members);
      if props.None? then None else Some(Normalized(KObject, Closed(typed, props.value, Names(props.value))))
  }

  // The three insertions that close an object.
  function Closed(typed: seq<Member>, props: seq<Member>, required: seq<Value>): seq<Member> {
    var ms1 := Put(typed, "properties", Object(props));
    var ms2 := Put(ms1, "additionalProperties", Bool(false));
    Put(ms2, "required", Array(required))
  }

  function NormalizeProperties(impl: Impl, props: seq<Member>): (r: Option<seq<Member>>)
    ensures r.Some? ==> |r.value| == |props|
    decreases props
  {
    if props == [] then Some([])
    else
      WithHead(props[0].key, Normalize(impl, props[0].value, ObjectProperty),
               NormalizeProperties(impl, props[1..]))
  }

  function WithHead(key: string, head: Option<Normalized>, rest: Option<seq<Member>>): (r: Option<seq<Member>>)
    ensures r.Some? ==> rest.Some? && |r.value| == |rest.value| + 1
  {
    if head.None? || head.value.kind.Structured() || rest.None? then None
    else Some([Member(key, Object(head.value.members))] + rest.value)
  }

  lemma Rebuilds(impl: Impl, o: Value, context: Context)
    requires Normalize(impl, o, context).Some?
    ensures o.Object? && Checked(impl, o, context)
    ensures Normalize(impl, o, context) == Rebuild(impl, o, ParseFieldType(o, context).value)
    ensures Normalize(impl, o, context).value.kind == ParseFieldType(o, context).value.kind
  {
    RebuildKind(impl, o, ParseFieldType(o, context).value);
  }

  lemma RebuildKind(impl: Impl, o: Value, t: FieldType)
    requires o.Object?
    ensures Rebuild(impl, o, t).Some? ==> Rebuild(impl, o, t).value.kind == t.kind
    ensures t.kind.KArray? ==> Rebuild(impl, o, t) == RebuildArray(impl, o, Put(o.members, "type", TypeValue(t)))
    ensures t.kind.KObject? ==> Rebuild(impl, o, t) == RebuildObject(impl, o, Put(o.members, "type", TypeValue(t)))
  {
  }
}
