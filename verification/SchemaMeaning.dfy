/** Output properties by their keywords alone: what the gate and the normalizers ask of one,
    what a normalized one looks like, and which outputs it allows. */
module SchemaMeaning {
  import opened Text
  import opened Json
  import opened Kinds
  import opened Schemas
  import opened Outputs
  import opened SchemaLaws
  import opened SchemaAgreement

  // ----- types

  predicate IsWord(word: string, k: Kind) {
    match k
    case KString => word == "string"
    case KBoolean => word == "boolean"
    case KInteger => word == "integer"
    case KNumber => word == "number"
    case KArray => word == "array"
    case KObject => word == "object"
  }

  // A type word in any case, with space around it.
  predicate Says(v: Value, k: Kind) {
    v.Str? && IsWord(AsciiLower(Trim(v.s)), k)
  }

  predicate SaysNull(v: Value) {
    v.Str? && AsciiLower(Trim(v.s)) == "null"
  }

  // One word, or a scalar word and null in either order.
  predicate ReadsAs(v: Value, k: Kind, nullable: bool) {
    match v
    case Str(_) => !nullable && Says(v, k)
    case Array(es) =>
      && nullable && |es| == 2 && k in {KString, KBoolean, KInteger, KNumber}
      && ((Says(es[0], k) && SaysNull(es[1])) || (SaysNull(es[0]) && Says(es[1], k)))
    case _ => false
  }

  lemma WordIff(s: string, k: Kind)
    ensures ParseKind(s) == Some(k) <==> IsWord(AsciiLower(Trim(s)), k)
  {
  }

  // Trimming and lowering twice is doing so once.
  lemma NormalTwice(s: string)
    ensures Normal(Normal(s)) == Normal(s)
  {
    var t := Trim(s);
    if t != [] {
      TrimIdempotent(s);
      assert !IsWhitespace(t[0]) by {
        assert TrimStart(s) != [] && t[0] == TrimStart(s)[0];
      }
      assert !IsWhitespace(t[|t| - 1]);
    }
    assert Trim(AsciiLower(t)) == AsciiLower(t);
    assert AsciiLower(AsciiLower(t)) == AsciiLower(t);
  }

  lemma OtherWord(s: string, k: Kind)
    ensures ParseKind(Normal(s)) == Some(k) <==> IsWord(Normal(s), k)
    ensures IsWord(Normal(s), k) ==> Normal(s) != "null"
  {
    NormalTwice(s);
    WordIff(Normal(s), k);
  }

  lemma PairSplit(a: Value, b: Value, k: Kind, nullable: bool)
    requires a.Str? && b.Str?
    ensures NullablePair(a, b) == Some(FieldType(k, nullable))
       <==> && (SaysNull(a) || SaysNull(b)) && nullable && !k.Structured()
            && ParseKind(if Normal(a.s) == "null" then Normal(b.s) else Normal(a.s)) == Some(k)
  {
  }

  lemma PairIff(a: Value, b: Value, k: Kind, nullable: bool)
    ensures NullablePair(a, b) == Some(FieldType(k, nullable)) <==> ReadsAs(Array([a, b]), k, nullable)
  {
    if a.Str? && b.Str? {
      PairSplit(a, b, k, nullable);
      OtherWord(a.s, k);
      OtherWord(b.s, k);
      PairWords(a, b, k, nullable, ParseKind(if Normal(a.s) == "null" then Normal(b.s) else Normal(a.s)));
    }
  }

  lemma PairWords(a: Value, b: Value, k: Kind, nullable: bool, other: Option<Kind>)
    requires a.Str? && b.Str?
    requires other == Some(k) <==> IsWord(if Normal(a.s) == "null" then Normal(b.s) else Normal(a.s), k)
    requires IsWord(Normal(a.s), k) ==> Normal(a.s) != "null"
    requires IsWord(Normal(b.s), k) ==> Normal(b.s) != "null"
    ensures (SaysNull(a) || SaysNull(b)) && other == Some(k) && !k.Structured() && nullable
       <==> ReadsAs(Array([a, b]), k, nullable)
  {
  }

  lemma TypeIff(o: Value, nullableAllowed: bool, k: Kind, nullable: bool)
    requires o.Object?
    ensures SchemaType(o, nullableAllowed) == Some(FieldType(k, nullable))
       <==> HasKey(o, "type") && (nullable ==> nullableAllowed) && ReadsAs(Get(o, "type").value, k, nullable)
  {
    match Get(o, "type")
    case Some(Str(s)) => WordIff(s, k);
    case Some(Array(es)) =>
      if |es| == 2 {
        PairIff(es[0], es[1], k, nullable);
        assert es == [es[0], es[1]];
      }
    case _ =>
  }

  // ----- keywords

  const LOWER: set<string> := {"minimum", "exclusiveMinimum"}
  const UPPER: set<string> := {"maximum", "exclusiveMaximum"}

  ghost predicate OnlyKeys(o: Value, allowed: set<string>)
    requires o.Object?
  {
    forall i :: 0 <= i < |o.members| ==> o.members[i].key in allowed
  }

  predicate IsText(v: Value) {
    v.Str? && Trim(v.s) != ""
  }

  ghost predicate AllText(v: Value, least: nat, most: nat) {
    v.Array? && least <= |v.items| <= most && forall i :: 0 <= i < |v.items| ==> IsText(v.items[i])
  }

  ghost predicate NoRepeats(values: seq<Value>) {
    forall i, j :: 0 <= i < j < |values| ==> values[i] != values[j]
  }

  // Whole numbers compare exactly, others as doubles.
  function Size(k: Kind, n: Number): real {
    if k == KInteger then n.Exact() else n.AsF64()
  }

  ghost predicate BoundsWritten(o: Value, k: Kind)
    requires o.Object?
  {
    && (forall key :: key in LOWER + UPPER && HasKey(o, key) ==>
          && k in {KInteger, KNumber} && Get(o, key).value.Num?
          && (k == KInteger ==> Get(o, key).value.n.Int? && Get(o, key).value.n.i < 0x8000_0000_0000_0000))
    && !(HasKey(o, "minimum") && HasKey(o, "exclusiveMinimum"))
    && !(HasKey(o, "maximum") && HasKey(o, "exclusiveMaximum"))
  }

  // Some number is allowed; the bounds themselves only if both are inclusive.
  ghost predicate BoundsMeet(o: Value, k: Kind)
    requires o.Object? && BoundsWritten(o, k)
  {
    forall low, high :: low in LOWER && high in UPPER && HasKey(o, low) && HasKey(o, high) ==>
      var (a, b) := (Size(k, Get(o, low).value.n), Size(k, Get(o, high).value.n));
      a < b || (a == b && low == "minimum" && high == "maximum")
  }

  lemma BoundWrittenIff(o: Value, k: Kind)
    requires o.Object?
    ensures (forall key :: key in LOWER + UPPER ==> BoundOk(o, key, k))
       <==> BoundOk(o, "minimum", k) && BoundOk(o, "maximum", k)
            && BoundOk(o, "exclusiveMinimum", k) && BoundOk(o, "exclusiveMaximum", k)
  {
  }

  lemma BoundsIff(o: Value, k: Kind)
    requires o.Object?
    ensures BoundsOk(o, k) <==> BoundsWritten(o, k)
  {
    BoundWrittenIff(o, k);
    assert forall key :: BoundOk(o, key, k) <==>
      (HasKey(o, key) ==>
         && k in {KInteger, KNumber} && Get(o, key).value.Num?
         && (k == KInteger ==> Get(o, key).value.n.Int? && Get(o, key).value.n.i < 0x8000_0000_0000_0000));
  }

  lemma RoomIff(o: Value, k: Kind)
    requires o.Object? && BoundsOk(o, k) && BoundsWritten(o, k) && k.Numeric()
    ensures BoundsLeaveRoom(o, k) <==> BoundsMeet(o, k)
  {
    assert "minimum" in LOWER && "exclusiveMinimum" in LOWER && "maximum" in UPPER && "exclusiveMaximum" in UPPER;
  }

  // ----- what the gate accepts

  ghost predicate RubricWritten(o: Value)
    requires o.Object? && BoundsWritten(o, KNumber)
  {
    HasKey(o, "rubric") ==>
      && AllText(Get(o, "rubric").value, 2, 10) && HasKey(o, "description")
      && HasKey(o, "minimum") && HasKey(o, "maximum")
      && var (a, b) := (Get(o, "minimum").value.n.AsF64(), Get(o, "maximum").value.n.AsF64());
         a < b < a + SPAN_LIMIT as real
  }

  ghost predicate GateAsks(o: Value, k: Kind, context: Context, rubricAllowed: bool)
    requires o.Object?
  {
    && (HasKey(o, "description") ==> IsText(Get(o, "description").value))
    && match k
       case KString =>
         && OnlyKeys(o, {"type", "description", "enum"})
         && (HasKey(o, "enum") ==>
               AllText(Get(o, "enum").value, 1, 1024) && NoRepeats(Get(o, "enum").value.items))
       case KBoolean => OnlyKeys(o, {"type", "description"})
       case KInteger =>
         && OnlyKeys(o, {"type", "description"} + LOWER + UPPER)
         && BoundsWritten(o, k) && BoundsMeet(o, k)
       case KNumber =>
         && OnlyKeys(o, {"type", "description"} + LOWER + UPPER
                        + if rubricAllowed && context == TopLevel then {"rubric"} else {})
         && BoundsWritten(o, k) && BoundsMeet(o, k) && RubricWritten(o)
       case KArray =>
         && OnlyKeys(o, {"type", "description", "items"}) && context == TopLevel
         && HasKey(o, "items") && Descriptor(Get(o, "items").value, ArrayItem, rubricAllowed).Some?
       case KObject =>
         && OnlyKeys(o, {"type", "description", "properties"}) && context != ObjectProperty
         && HasKey(o, "properties") && Get(o, "properties").value.Object?
         && 1 <= |Get(o, "properties").value.members| <= 256
         && forall m :: m in Get(o, "properties").value.members ==> Descriptor(m.value, ObjectProperty, rubricAllowed).Some?
  }

  lemma KeysIff(o: Value, k: Kind, rubric: bool)
    requires o.Object?
    ensures KeysAllowed(o, k, rubric)
       <==> OnlyKeys(o, match k
                        case KString => {"type", "description", "enum"}
                        case KBoolean => {"type", "description"}
                        case KArray => {"type", "description", "items"}
                        case KObject => {"type", "description", "properties"}
                        case KInteger => {"type", "description"} + LOWER + UPPER
                        case KNumber => {"type", "description"} + LOWER + UPPER + if rubric then {"rubric"} else {})
  {
  }

  // The keywords no kind but its own may have, checked where absent.
  lemma TextLevel(o: Value, k: Kind, context: Context, rubricAllowed: bool)
    requires o.Object? && DescriptionOk(o) && (k.KString? || k.KBoolean?)
    ensures LevelOk(o, context, rubricAllowed, k) <==> GateAsks(o, k, context, rubricAllowed)
  {
    KeysIff(o, k, false);
    KeysIff(o, k, true);
    if KeysAllowed(o, k, rubricAllowed && context.TopLevel?) {
      AllowedKeysRuleOut(o, k, rubricAllowed && context.TopLevel?);
    }
  }

  lemma RubricIff(o: Value, k: Kind)
    requires o.Object? && k.Numeric() && BoundsOk(o, k) && BoundsWritten(o, k) && BoundsWritten(o, KNumber)
    requires DescriptionOk(o) && (HasKey(o, "rubric") ==> k.KNumber?)
    ensures RubricOk(o, k) <==> RubricWritten(o)
  {
  }

  lemma NumberLevel(o: Value, k: Kind, context: Context, rubricAllowed: bool)
    requires o.Object? && DescriptionOk(o) && k.Numeric()
    ensures LevelOk(o, context, rubricAllowed, k) <==> GateAsks(o, k, context, rubricAllowed)
  {
    var rubric := rubricAllowed && context.TopLevel?;
    KeysIff(o, k, rubric);
    BoundsIff(o, k);
    if KeysAllowed(o, k, rubric) && BoundsOk(o, k) {
      AllowedKeysRuleOut(o, k, rubric);
      RoomIff(o, k);
      RubricIff(o, k);
    }
  }

  lemma StructuredLevel(o: Value, k: Kind, context: Context, rubricAllowed: bool)
    requires o.Object? && DescriptionOk(o) && k.Structured()
    ensures LevelOk(o, context, rubricAllowed, k)
       <==> && OnlyKeys(o, if k == KArray then {"type", "description", "items"} else {"type", "description", "properties"})
            && context != ObjectProperty && (k == KArray ==> context != ArrayItem)
  {
    KeysIff(o, k, rubricAllowed && context.TopLevel?);
    if KeysAllowed(o, k, rubricAllowed && context.TopLevel?) {
      AllowedKeysRuleOut(o, k, rubricAllowed && context.TopLevel?);
    }
  }

  // One level and the schemas below it.
  ghost predicate AllLevelsOk(o: Value, context: Context, rubricAllowed: bool, k: Kind)
    requires o.Object?
  {
    && LevelOk(o, context, rubricAllowed, k)
    && (k.KArray? ==> HasKey(o, "items") && Descriptor(Get(o, "items").value, ArrayItem, rubricAllowed).Some?)
    && (k.KObject? ==>
          && HasKey(o, "properties")
          && var props := Get(o, "properties").value;
             && props.Object? && 0 < |props.members| <= 256
             && forall m :: m in props.members ==> Descriptor(m.value, ObjectProperty, rubricAllowed).Some?)
  }

  lemma LevelIff(o: Value, context: Context, rubricAllowed: bool, k: Kind)
    requires o.Object? && DescriptionOk(o)
    ensures AllLevelsOk(o, context, rubricAllowed, k) <==> GateAsks(o, k, context, rubricAllowed)
  {
    if k.Structured() {
      StructuredLevel(o, k, context, rubricAllowed);
    } else if k.Numeric() {
      NumberLevel(o, k, context, rubricAllowed);
    } else {
      TextLevel(o, k, context, rubricAllowed);
    }
  }

  lemma DescriptorLevels(o: Value, context: Context, rubricAllowed: bool, k: Kind)
    requires o.Object?
    ensures Descriptor(o, context, rubricAllowed) == Some(k)
       <==> && SchemaType(o, context.ObjectProperty?).Some? && SchemaType(o, context.ObjectProperty?).value.kind == k
            && AllLevelsOk(o, context, rubricAllowed, k)
  {
    if HasKey(o, "properties") && Get(o, "properties").value.Object? {
      var ms := Get(o, "properties").value.members;
      assert forall i :: 0 <= i < |ms| ==> ms[i] in ms;
    }
  }

  /** The gate accepts a property with kind k if and only if its type says so and its
      other keywords are the ones of that kind, each in its form. */
  lemma DescriptorIff(o: Value, context: Context, rubricAllowed: bool, k: Kind)
    requires o.Object?
    ensures Descriptor(o, context, rubricAllowed) == Some(k)
       <==> && HasKey(o, "type")
            && (ReadsAs(Get(o, "type").value, k, false)
                || (context == ObjectProperty && ReadsAs(Get(o, "type").value, k, true)))
            && GateAsks(o, k, context, rubricAllowed)
  {
    TypeIff(o, context.ObjectProperty?, k, false);
    TypeIff(o, context.ObjectProperty?, k, true);
    DescriptorLevels(o, context, rubricAllowed, k);
    if DescriptionOk(o) {
      LevelIff(o, context, rubricAllowed, k);
    }
  }

  // ----- what a normalized property looks like

  // What both parsers ask of a property, the build a little more: of its own keywords,
  // and of the schemas below.
  ghost predicate ParserAsks(impl: Impl, o: Value, k: Kind, context: Context)
    requires o.Object?
  {
    KeywordsAsked(impl, o, k, context) && BelowAsked(impl, o, k)
  }

  ghost predicate KeywordsAsked(impl: Impl, o: Value, k: Kind, context: Context)
    requires o.Object?
  {
    && (HasKey(o, "description") ==> IsText(Get(o, "description").value))
    && (HasKey(o, "enum") ==> k == KString && EnumAsked(impl, Get(o, "enum").value))
    && BoundsWritten(o, k) && (impl == Generated && k in {KInteger, KNumber} ==> BoundsMeet(o, k))
    && (k in {KArray, KObject} ==> context != ObjectProperty)
  }

  ghost predicate EnumAsked(impl: Impl, v: Value) {
    && v.Array? && v.items != [] && NoRepeats(v.items)
    && forall x :: x in v.items ==> x.Str? && x.s != "" && (impl == Generated ==> IsText(x))
  }

  ghost predicate BelowAsked(impl: Impl, o: Value, k: Kind)
    requires o.Object?
  {
    && (k == KArray ==>
          && HasKey(o, "items") && Normalize(impl, Get(o, "items").value, ArrayItem).Some?
          && Normalize(impl, Get(o, "items").value, ArrayItem).value.kind != KArray)
    && (k == KObject ==>
          && HasKey(o, "properties") && Get(o, "properties").value.Object?
          && Get(o, "properties").value.members != []
          && forall m :: m in Get(o, "properties").value.members ==> NormalizesFlat(impl, m.value))
  }

  // A property inside an object is scalar.
  ghost predicate NormalizesFlat(impl: Impl, v: Value) {
    && Normalize(impl, v, ObjectProperty).Some?
    && Normalize(impl, v, ObjectProperty).value.kind in {KString, KBoolean, KInteger, KNumber}
  }

  lemma EnumIff(impl: Impl, o: Value, k: Kind)
    requires o.Object?
    ensures EnumOk(impl, o, k) <==> (HasKey(o, "enum") ==> k == KString && EnumAsked(impl, Get(o, "enum").value))
  {
    if HasKey(o, "enum") && Get(o, "enum").value.Array? {
      var items := Get(o, "enum").value.items;
      assert forall i :: 0 <= i < |items| ==> items[i] in items;
      assert Trim("") == "";
    }
  }

  lemma CheckedIff(impl: Impl, o: Value, context: Context, t: FieldType)
    requires o.Object? && ParseFieldType(o, context) == Some(t)
    ensures Checked(impl, o, context) <==> KeywordsAsked(impl, o, t.kind, context)
  {
    EnumIff(impl, o, t.kind);
    BoundsIff(o, t.kind);
    if BoundsOk(o, t.kind) && t.kind.Numeric() {
      RoomIff(o, t.kind);
    }
  }

  lemma {:induction false} FlatList(impl: Impl, props: seq<Member>)
    ensures NormalizeProperties(impl, props).Some? <==> forall m :: m in props ==> NormalizesFlat(impl, m.value)
  {
    if props != [] {
      FlatList(impl, props[1..]);
      assert forall m :: m in props <==> m == props[0] || m in props[1..];
      HeadNormalizes(impl, props);
    }
  }

  lemma RebuildIff(impl: Impl, o: Value, t: FieldType)
    requires o.Object?
    ensures Rebuild(impl, o, t).Some? <==> BelowAsked(impl, o, t.kind)
  {
    RebuildKind(impl, o, t);
    if HasKey(o, "properties") && Get(o, "properties").value.Object? {
      FlatList(impl, Get(o, "properties").value.members);
    }
  }

  lemma NormalizeParts(impl: Impl, o: Value, context: Context, k: Kind)
    requires o.Object?
    ensures Normalize(impl, o, context).Some? && Normalize(impl, o, context).value.kind == k
       <==> && ParseFieldType(o, context).Some? && ParseFieldType(o, context).value.kind == k
            && Checked(impl, o, context) && Rebuild(impl, o, ParseFieldType(o, context).value).Some?
  {
    if ParseFieldType(o, context).Some? {
      RebuildKind(impl, o, ParseFieldType(o, context).value);
    }
  }

  /** Each parser normalizes a property, with kind k, if and only if its type says so and
      its keywords have the form that parser asks for. */
  lemma NormalizesIff(impl: Impl, o: Value, context: Context, k: Kind)
    requires o.Object?
    ensures Normalize(impl, o, context).Some? && Normalize(impl, o, context).value.kind == k
       <==> && HasKey(o, "type")
            && (ReadsAs(Get(o, "type").value, k, false)
                || (context == ObjectProperty && ReadsAs(Get(o, "type").value, k, true)))
            && ParserAsks(impl, o, k, context)
  {
    TypesAgree(o, context);
    TypeIff(o, context.ObjectProperty?, k, false);
    TypeIff(o, context.ObjectProperty?, k, true);
    NormalizeParts(impl, o, context, k);
    var t := ParseFieldType(o, context);
    if t.Some? && t.value.kind == k {
      CheckedIff(impl, o, context, t.value);
      RebuildIff(impl, o, t.value);
    }
  }

  ghost predicate NormalProperties(impl: Impl, raw: seq<Member>, props: seq<Member>) {
    && |props| == |raw|
    && forall i :: 0 <= i < |raw| ==>
         && props[i].key == raw[i].key && Normalize(impl, raw[i].value, ObjectProperty).Some?
         && props[i].value == Object(Normalize(impl, raw[i].value, ObjectProperty).value.members)
  }

  ghost predicate Lists(names: Value, raw: seq<Member>) {
    names.Array? && |names.items| == |raw| && forall i :: 0 <= i < |raw| ==> names.items[i] == Str(raw[i].key)
  }

  // The value under one key of a normalized property.
  ghost predicate NormalAt(impl: Impl, o: Value, k: Kind, key: string, now: Option<Value>)
    requires o.Object? && HasKey(o, "type")
  {
    if key == "type" then
      exists word, nullable :: && IsWord(word, k) && ReadsAs(Get(o, "type").value, k, nullable)
                               && now == Some(if nullable then Array([Str(word), Str("null")]) else Str(word))
    else if k == KArray && key == "items" then
      && HasKey(o, "items") && Normalize(impl, Get(o, "items").value, ArrayItem).Some?
      && now == Some(Object(Normalize(impl, Get(o, "items").value, ArrayItem).value.members))
    else if k == KObject && key in {"properties", "additionalProperties", "required"} then
      && HasKey(o, "properties") && Get(o, "properties").value.Object? && now.Some?
      && var raw := Get(o, "properties").value.members;
         if key == "properties" then now.value.Object? && NormalProperties(impl, raw, now.value.members)
         else if key == "required" then Lists(now.value, raw)
         else now == Some(Bool(false))
    else if k == KNumber && key in LOWER + UPPER && HasKey(o, key) then
      Get(o, key).value.Num? && now == Some(Num(Float(Get(o, key).value.n.AsF64())))
    else now == Get(o, key)
  }

  lemma {:induction false} NamesList(props: seq<Member>)
    ensures Lists(Array(Names(props)), props)
  {
    if props != [] {
      NamesList(props[..|props| - 1]);
    }
  }

  lemma TypeNow(impl: Impl, o: Value, context: Context, k: Kind)
    requires o.Object? && ParseFieldType(o, context).Some? && ParseFieldType(o, context).value.kind == k
    ensures HasKey(o, "type")
    ensures NormalAt(impl, o, k, "type", Some(TypeValue(ParseFieldType(o, context).value)))
  {
    var t := ParseFieldType(o, context).value;
    TypesAgree(o, context);
    TypeIff(o, context.ObjectProperty?, k, t.nullable);
    assert IsWord(k.Name(), k) && ReadsAs(Get(o, "type").value, k, t.nullable);
  }

  lemma PropertiesNow(impl: Impl, raw: seq<Member>)
    requires NormalizeProperties(impl, raw).Some?
    ensures var props := NormalizeProperties(impl, raw).value;
            NormalProperties(impl, raw, props) && Lists(Array(Names(props)), raw)
  {
    var props := NormalizeProperties(impl, raw).value;
    forall i | 0 <= i < |raw|
      ensures props[i].key == raw[i].key && Normalize(impl, raw[i].value, ObjectProperty).Some?
      ensures props[i].value == Object(Normalize(impl, raw[i].value, ObjectProperty).value.members)
    {
      PropertyAt(impl, raw, i);
    }
    NamesList(props);
  }

  lemma ObjectNow(impl: Impl, o: Value, context: Context, key: string)
    requires Normalize(impl, o, context).Some? && Normalize(impl, o, context).value.kind == KObject && key != "type"
    requires o.Object? && HasKey(o, "type")
    ensures NormalAt(impl, o, KObject, key, Find(Normalize(impl, o, context).value.members, key))
  {
    ObjectLookups(impl, o, context, key);
    PropertiesNow(impl, Get(o, "properties").value.members);
  }

  lemma ArrayNow(impl: Impl, o: Value, context: Context, key: string)
    requires Normalize(impl, o, context).Some? && Normalize(impl, o, context).value.kind == KArray && key != "type"
    requires o.Object? && HasKey(o, "type")
    ensures NormalAt(impl, o, KArray, key, Find(Normalize(impl, o, context).value.members, key))
  {
    ArrayLookups(impl, o, context, key);
  }

  lemma BoundKeyNames(key: string)
    ensures key in LOWER + UPPER <==> IsBoundKey(key)
  {
  }

  lemma ScalarNow(impl: Impl, o: Value, context: Context, key: string)
    requires Normalize(impl, o, context).Some? && !Normalize(impl, o, context).value.kind.Structured() && key != "type"
    requires o.Object? && HasKey(o, "type")
    ensures var n := Normalize(impl, o, context).value; NormalAt(impl, o, n.kind, key, Find(n.members, key))
  {
    Rebuilds(impl, o, context);
    ScalarLookups(impl, o, context, key);
    BoundKeyNames(key);
  }

  /** Every keyword of a normalized property: its type in plain words, number bounds as
      doubles, its schemas below normalized, an object closed over exactly its properties
      in their order, and everything else as it was written. */
  lemma NormalMeaning(impl: Impl, o: Value, context: Context, key: string)
    requires Normalize(impl, o, context).Some?
    ensures o.Object? && HasKey(o, "type")
    ensures var n := Normalize(impl, o, context).value; NormalAt(impl, o, n.kind, key, Find(n.members, key))
  {
    var k := Normalize(impl, o, context).value.kind;
    Rebuilds(impl, o, context);
    TypeNow(impl, o, context, k);
    if key == "type" {
      KeywordAt(impl, o, context, key);
    } else if k == KObject {
      ObjectNow(impl, o, context, key);
    } else if k == KArray {
      ArrayNow(impl, o, context, key);
    } else {
      ScalarNow(impl, o, context, key);
    }
  }

  // ----- which outputs a property allows

  // Rubric scores and whole numbers are compared exactly, other numbers as doubles.
  function Compared(o: Value, k: Kind, n: Number): real
    requires o.Object?
  {
    if k == KInteger || HasKey(o, "rubric") then n.Exact() else n.AsF64()
  }

  ghost predicate InBounds(o: Value, k: Kind, n: Number)
    requires o.Object? && BoundsWritten(o, k)
  {
    var x := Compared(o, k, n);
    && (HasKey(o, "minimum") ==> Compared(o, k, Get(o, "minimum").value.n) <= x)
    && (HasKey(o, "exclusiveMinimum") ==> Compared(o, k, Get(o, "exclusiveMinimum").value.n) < x)
    && (HasKey(o, "maximum") ==> x <= Compared(o, k, Get(o, "maximum").value.n))
    && (HasKey(o, "exclusiveMaximum") ==> x < Compared(o, k, Get(o, "exclusiveMaximum").value.n))
  }

  // Values of kind k under a property accepted with that kind; the schemas below decide
  // their own values.
  ghost predicate Allows(v: Value, o: Value, k: Kind)
    requires o.Object? && BoundsWritten(o, k)
  {
    match k
    case KString => v.Str? && (HasKey(o, "enum") && Get(o, "enum").value.Array? ==> v in Get(o, "enum").value.items)
    case KBoolean => v.Bool?
    case KInteger => v.Num? && v.n.Int? && v.n.i < 0x8000_0000_0000_0000 && InBounds(o, k, v.n)
    case KNumber => v.Num? && InBounds(o, k, v.n)
    case KArray =>
      v.Array? && HasKey(o, "items") && forall x :: x in v.items ==> StrictOutput(x, Get(o, "items").value)
    case KObject =>
      && v.Object? && HasKey(o, "properties") && Get(o, "properties").value.Object?
      && var props := Get(o, "properties").value.members;
         ObjectAllows(v, props)
  }

  // Exactly the declared keys, each with a valid value.
  ghost predicate ObjectAllows(v: Value, props: seq<Member>)
    requires v.Object?
  {
    forall key :: if Has(props, key) then HasKey(v, key) && StrictOutput(Get(v, key).value, Find(props, key).value)
                  else !HasKey(v, key)
  }

  lemma BoundsInIff(o: Value, k: Kind, n: Number)
    requires o.Object? && BoundsWritten(o, k) && k.Numeric()
    ensures StrictBounds(o, k, n) <==> InBounds(o, k, n)
  {
    assert "minimum" in LOWER && "exclusiveMinimum" in LOWER && "maximum" in UPPER && "exclusiveMaximum" in UPPER;
  }

  lemma MembersAllowed(v: Value, props: seq<Member>)
    requires v.Object? && Distinct(props) && StrictMembers(v, props)
    ensures ObjectAllows(v, props)
  {
    forall key
      ensures if Has(props, key) then HasKey(v, key) && StrictOutput(Get(v, key).value, Find(props, key).value)
              else !HasKey(v, key)
    {
      if Has(props, key) {
        var i :| 0 <= i < |props| && props[i].key == key;
        FindAt(props, i);
      }
    }
  }

  lemma AllowedMembers(v: Value, props: seq<Member>)
    requires v.Object? && Distinct(props) && ObjectAllows(v, props)
    ensures StrictMembers(v, props)
  {
    forall i | 0 <= i < |v.members| ensures Has(props, v.members[i].key) {
      assert HasKey(v, v.members[i].key);
    }
    forall i | 0 <= i < |props|
      ensures HasKey(v, props[i].key) && StrictOutput(Get(v, props[i].key).value, props[i].value)
    {
      FindAt(props, i);
    }
  }

  lemma ScalarAllowed(v: Value, o: Value, t: FieldType)
    requires o.Object? && SchemaType(o, true) == Some(t) && !t.kind.Structured() && BoundsWritten(o, t.kind)
    requires HasKey(o, "enum") ==> t.kind == KString
    ensures StrictOutput(v, o) <==> (v == Null && t.nullable) || Allows(v, o, t.kind)
  {
    StrictScalar(o, t, v);
    if v.Num? && t.kind.Numeric() {
      BoundsInIff(o, t.kind, v.n);
    }
  }

  lemma StructuredAllowed(v: Value, o: Value, t: FieldType)
    requires WellFormed(o) && o.Object? && SchemaType(o, true) == Some(t) && t.kind.Structured() && BoundsWritten(o, t.kind)
    requires !HasKey(o, "enum")
    requires t.kind == KArray ==> HasKey(o, "items")
    requires t.kind == KObject ==> HasKey(o, "properties") && Get(o, "properties").value.Object?
    ensures StrictOutput(v, o) <==> (v == Null && t.nullable) || Allows(v, o, t.kind)
  {
    if t.kind == KArray {
      StrictArray(o, t, v, Get(o, "items").value);
      assert v.Array? ==> forall i :: 0 <= i < |v.items| ==> v.items[i] in v.items;
    } else {
      FindValue(o.members, "properties");
      StrictObject(o, t, v, Get(o, "properties").value.members);
      var props := Get(o, "properties").value.members;
      if v.Object? && StrictMembers(v, props) {
        MembersAllowed(v, props);
      } else if v.Object? && ObjectAllows(v, props) {
        AllowedMembers(v, props);
      }
    }
  }

  /** An output is valid for an accepted property if and only if it is a null the type
      allows or a value of its kind within its enum, bounds and schemas below; an object
      has exactly the declared keys. */
  lemma OutputsIff(v: Value, o: Value, context: Context, rubricAllowed: bool)
    requires WellFormed(o) && Descriptor(o, context, rubricAllowed).Some?
    ensures o.Object? && HasKey(o, "type") && BoundsWritten(o, Descriptor(o, context, rubricAllowed).value)
    ensures var k := Descriptor(o, context, rubricAllowed).value;
            StrictOutput(v, o) <==> (v == Null && ReadsAs(Get(o, "type").value, k, true)) || Allows(v, o, k)
  {
    var k := Descriptor(o, context, rubricAllowed).value;
    DescriptorChecked(Interpreted, o, context, rubricAllowed);
    TypeReadBack(o, context);
    var t := ParseFieldType(o, context).value;
    TypeIff(o, true, k, true);
    BoundsIff(o, k);
    DescriptorLevels(o, context, rubricAllowed, k);
    DescriptorKeys(o, context, rubricAllowed);
    AllowedKeysRuleOut(o, k, rubricAllowed && context.TopLevel?);
    if k.Structured() {
      StructuredAllowed(v, o, t);
    } else {
      ScalarAllowed(v, o, t);
    }
  }
}
