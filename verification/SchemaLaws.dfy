/** What normalization and the two output validators promise together. */
module SchemaLaws {
  import opened Text
  import opened Json
  import opened Kinds
  import opened Schemas
  import opened Outputs

  // ----- types

  lemma NullIsNormal()
    ensures Normal("null") == "null"
  {
    NormalOfPlain("null");
  }

  lemma TypesAgree(o: Value, context: Context)
    requires o.Object?
    ensures SchemaType(o, context.ObjectProperty?) == ParseFieldType(o, context)
  {
    var t := Get(o, "type");
    if t.Some? && t.value.Array? && |t.value.items| == 2 {
      UnionIsPair(t.value.items);
    }
  }

  lemma UnionIsPair(entries: seq<Value>)
    requires |entries| == 2
    ensures ParseUnion(entries, false, None) == NullablePair(entries[0], entries[1])
  {
    NullIsNormal();
    assert entries == [entries[0]] + [entries[1]] && entries[1..] == [entries[1]];
    UnionOfOne(entries[1], true, None);
    if entries[0].Str? {
      var k := ParseKind(Normal(entries[0].s));
      UnionOfOne(entries[1], false, k);
    }
  }

  lemma UnionOfOne(e: Value, nullable: bool, scalar: Option<Kind>)
    ensures ParseUnion([e], nullable, scalar)
         == if !e.Str? then None
            else if Normal(e.s) == "null" then ParseUnion([], true, scalar)
            else
              var k := ParseKind(Normal(e.s));
              if k.None? || k.value.Structured() || scalar.Some? then None else ParseUnion([], nullable, k)
  {
    assert [e][1..] == [];
  }

  // The strict output validator reads the type the parsers read.
  lemma TypeReadBack(o: Value, context: Context)
    requires o.Object? && ParseFieldType(o, context).Some?
    ensures SchemaType(o, true) == ParseFieldType(o, context)
    ensures var t := ParseFieldType(o, context).value; t.nullable ==> context.ObjectProperty? && !t.kind.Structured()
  {
    TypesAgree(o, context);
  }

  lemma NormalTypeReadBack(n: Value, t: FieldType, context: Context)
    requires n.Object? && Get(n, "type") == Some(TypeValue(t))
    requires t.nullable ==> context.ObjectProperty? && !t.kind.Structured()
    ensures SchemaType(n, true) == ParseFieldType(n, context) == Some(t)
    ensures RuntimeType(n) == Some((t.kind.Name(), t.nullable))
  {
    NullIsNormal();
    KindNameParses(t.kind);
    if t.nullable {
      var entries := [Str(t.kind.Name()), Str("null")];
      assert entries[1..] == [Str("null")] && entries[1..][1..] == [];
    }
    TypesAgree(n, context);
  }

  // ----- what normalization leaves and what it changes

  lemma PutBoundsLookup(ms: seq<Member>, o: Value, k: Kind, key: string)
    requires o.Object?
    ensures Find(PutBounds(ms, o, k), key)
         == if IsBoundKey(key) && HasKey(o, key) then Some(NormalBound(k, Get(o, key).value)) else Find(ms, key)
  {
    var ms1 := PutBound(ms, o, "minimum", k);
    var ms2 := PutBound(ms1, o, "maximum", k);
    var ms3 := PutBound(ms2, o, "exclusiveMinimum", k);
    PutBoundLookup(ms, o, "minimum", k, key);
    PutBoundLookup(ms1, o, "maximum", k, key);
    PutBoundLookup(ms2, o, "exclusiveMinimum", k, key);
    PutBoundLookup(ms3, o, "exclusiveMaximum", k, key);
  }

  lemma PutBoundLookup(ms: seq<Member>, o: Value, bound: string, k: Kind, key: string)
    requires o.Object?
    ensures Find(PutBound(ms, o, bound, k), key)
         == if key == bound && HasKey(o, key) then Some(NormalBound(k, Get(o, key).value)) else Find(ms, key)
  {
    if HasKey(o, bound) {
      PutFind(ms, bound, NormalBound(k, Get(o, bound).value), key);
    }
  }

  lemma ScalarLookups(impl: Impl, o: Value, context: Context, key: string)
    requires Normalize(impl, o, context).Some? && !Normalize(impl, o, context).value.kind.Structured()
    ensures var t := ParseFieldType(o, context).value;
            var r := Normalize(impl, o, context).value;
            && r.kind == t.kind
            && Find(r.members, key)
               == if key == "type" then Some(TypeValue(t))
                  else if IsBoundKey(key) && HasKey(o, key) then Some(NormalBound(t.kind, Get(o, key).value))
                  else Get(o, key)
  {
    var t := ParseFieldType(o, context).value;
    Rebuilds(impl, o, context);
    PutFind(o.members, "type", TypeValue(t), key);
    PutBoundsLookup(Put(o.members, "type", TypeValue(t)), o, t.kind, key);
  }

  lemma ArrayLookups(impl: Impl, o: Value, context: Context, key: string)
    requires Normalize(impl, o, context).Some? && Normalize(impl, o, context).value.kind.KArray?
    ensures var t := ParseFieldType(o, context).value;
            && t.kind.KArray? && HasKey(o, "items")
            && var items := Normalize(impl, Get(o, "items").value, ArrayItem);
               && items.Some? && !items.value.kind.KArray?
               && Find(Normalize(impl, o, context).value.members, key)
                  == if key == "items" then Some(Object(items.value.members))
                     else if key == "type" then Some(TypeValue(t))
                     else Get(o, key)
  {
    var t := TypeValue(ParseFieldType(o, context).value);
    Rebuilds(impl, o, context);
    PutFind(o.members, "type", t, key);
    PutFind(Put(o.members, "type", t), "items",
            Object(Normalize(impl, Get(o, "items").value, ArrayItem).value.members), key);
  }

  lemma ObjectLookups(impl: Impl, o: Value, context: Context, key: string)
    requires Normalize(impl, o, context).Some? && Normalize(impl, o, context).value.kind.KObject?
    ensures var t := ParseFieldType(o, context).value;
            && t.kind.KObject? && HasKey(o, "properties") && Get(o, "properties").value.Object?
            && Get(o, "properties").value.members != []
            && var props := NormalizeProperties(impl, Get(o, "properties").value.members);
               && props.Some?
               && Find(Normalize(impl, o, context).value.members, key)
                  == if key == "required" then Some(Array(Names(props.value)))
                     else if key == "additionalProperties" then Some(Bool(false))
                     else if key == "properties" then Some(Object(props.value))
                     else if key == "type" then Some(TypeValue(t))
                     else Get(o, key)
  {
    Rebuilds(impl, o, context);
    var props := NormalizeProperties(impl, Get(o, "properties").value.members).value;
    RebuiltLookup(o.members, TypeValue(ParseFieldType(o, context).value), props, key);
  }

  lemma RebuiltLookup(ms: seq<Member>, t: Value, props: seq<Member>, key: string)
    ensures Find(Closed(Put(ms, "type", t), props, Names(props)), key)
         == if key == "required" then Some(Array(Names(props)))
            else if key == "additionalProperties" then Some(Bool(false))
            else if key == "properties" then Some(Object(props))
            else if key == "type" then Some(t)
            else Find(ms, key)
  {
    var ms0 := Put(ms, "type", t);
    var ms1 := Put(ms0, "properties", Object(props));
    var ms2 := Put(ms1, "additionalProperties", Bool(false));
    PutFind(ms, "type", t, key);
    PutFind(ms0, "properties", Object(props), key);
    PutFind(ms1, "additionalProperties", Bool(false), key);
    PutFind(ms2, "required", Array(Names(props)), key);
  }

  lemma {:induction false} PropertyAt(impl: Impl, props: seq<Member>, i: nat)
    requires NormalizeProperties(impl, props).Some? && i < |props|
    ensures var head := Normalize(impl, props[i].value, ObjectProperty);
            && head.Some? && !head.value.kind.Structured()
            && NormalizeProperties(impl, props).value[i] == Member(props[i].key, Object(head.value.members))
  {
    var head := Normalize(impl, props[0].value, ObjectProperty);
    var rest := NormalizeProperties(impl, props[1..]);
    assert NormalizeProperties(impl, props) == WithHead(props[0].key, head, rest);
    WithHeadAt(props[0].key, head, rest, i);
    if i > 0 {
      PropertyAt(impl, props[1..], i - 1);
      assert props[1..][i - 1] == props[i];
    }
  }

  lemma WithHeadAt(key: string, head: Option<Normalized>, rest: Option<seq<Member>>, i: nat)
    requires WithHead(key, head, rest).Some? && i <= |rest.value|
    ensures head.Some? && !head.value.kind.Structured()
    ensures WithHead(key, head, rest).value[i]
         == if i == 0 then Member(key, Object(head.value.members)) else rest.value[i - 1]
  {
  }

  lemma {:induction false} PropertyNames(impl: Impl, props: seq<Member>, key: string)
    requires NormalizeProperties(impl, props).Some?
    ensures Has(NormalizeProperties(impl, props).value, key) <==> Has(props, key)
  {
    var r := NormalizeProperties(impl, props).value;
    forall i | 0 <= i < |props| ensures r[i].key == props[i].key {
      PropertyAt(impl, props, i);
    }
  }

  // ----- normalization keeps the accepted outputs

  // No schema in o has a rubric keyword; a property may still be called "rubric".
  ghost predicate RubricFree(o: Value) {
    o.Object? ==>
      && !HasKey(o, "rubric")
      && (HasKey(o, "items") ==> RubricFree(Get(o, "items").value))
      && (HasKey(o, "properties") && Get(o, "properties").value.Object? ==>
            PropertiesRubricFree(Get(o, "properties").value))
  }

  ghost predicate PropertiesRubricFree(props: Value)
    requires props.Object?
  {
    forall i :: 0 <= i < |props.members| ==> RubricFree(props.members[i].value)
  }

  lemma BoundKeys()
    ensures IsBoundKey("minimum") && IsBoundKey("maximum")
    ensures IsBoundKey("exclusiveMinimum") && IsBoundKey("exclusiveMaximum")
  {
  }

  // A normalized bound compares as the bound it came from.
  lemma BoundKept(o: Value, n: Value, key: string, k: Kind, x: Number)
    requires o.Object? && n.Object? && !HasKey(o, "rubric") && !HasKey(n, "rubric")
    requires BoundOk(o, key, k)
    requires Get(n, key) == if HasKey(o, key) then Some(NormalBound(k, Get(o, key).value)) else None
    ensures StrictBound(o, key, k, x) <==> StrictBound(n, key, k, x)
    ensures k.Numeric() ==> (StrictBound(n, key, k, x) <==> RuntimeBound(n, key, k, x))
  {
  }

  // Both schemas read as type t, the normalized one also for the interpreter.
  ghost predicate SameType(o: Value, n: Value, t: FieldType) {
    && o.Object? && n.Object?
    && SchemaType(o, true) == SchemaType(n, true) == Some(t)
    && RuntimeType(n) == Some((t.kind.Name(), t.nullable))
    && Get(n, "enum") == Get(o, "enum")
    && (HasKey(o, "enum") ==> t.kind.KString?)
  }

  lemma StrictScalar(o: Value, t: FieldType, v: Value)
    requires o.Object? && SchemaType(o, true) == Some(t) && !t.kind.Structured()
    ensures StrictOutput(v, o)
       <==> (v.Null? && t.nullable)
            || (t.kind.Matches(v) && EnumAllows(o, v) && (t.kind.Numeric() ==> StrictBounds(o, t.kind, v.n)))
  {
  }

  // Both schemas carry the same bounds, the second one normalized.
  ghost predicate BoundsNormalized(o: Value, n: Value, k: Kind)
    requires o.Object? && n.Object?
  {
    forall key :: IsBoundKey(key) ==>
      Get(n, key) == if HasKey(o, key) then Some(NormalBound(k, Get(o, key).value)) else None
  }

  lemma BoundsKept(o: Value, n: Value, k: Kind, x: Number)
    requires o.Object? && n.Object? && !HasKey(o, "rubric") && !HasKey(n, "rubric")
    requires k.Numeric() && BoundsOk(o, k) && BoundsNormalized(o, n, k)
    ensures StrictBounds(o, k, x) == StrictBounds(n, k, x) == RuntimeBounds(n, k, x)
  {
    BoundKeys();
    BoundKept(o, n, "minimum", k, x);
    BoundKept(o, n, "maximum", k, x);
    BoundKept(o, n, "exclusiveMinimum", k, x);
    BoundKept(o, n, "exclusiveMaximum", k, x);
  }

  lemma RuntimeScalar(n: Value, t: FieldType, v: Value)
    requires n.Object? && RuntimeType(n) == Some((t.kind.Name(), t.nullable)) && !t.kind.Structured()
    requires HasKey(n, "enum") ==> t.kind.KString?
    ensures RuntimeOutput(v, n)
       <==> (v.Null? && t.nullable)
            || (t.kind.Matches(v) && EnumAllows(n, v) && (t.kind.Numeric() ==> RuntimeBounds(n, t.kind, v.n)))
  {
    KindNameParses(t.kind);
  }

  lemma ScalarOutputs(o: Value, n: Value, t: FieldType, v: Value)
    requires SameType(o, n, t) && !t.kind.Structured() && BoundsOk(o, t.kind)
    requires !HasKey(o, "rubric") && !HasKey(n, "rubric") && BoundsNormalized(o, n, t.kind)
    ensures StrictOutput(v, o) == StrictOutput(v, n) == RuntimeOutput(v, n)
  {
    StrictScalar(o, t, v);
    StrictScalar(n, t, v);
    RuntimeScalar(n, t, v);
    if t.kind.Numeric() && v.Num? {
      BoundsKept(o, n, t.kind, v.n);
    }
  }

  lemma StrictArray(o: Value, t: FieldType, v: Value, items: Value)
    requires o.Object? && SchemaType(o, true) == Some(t) && t.kind.KArray?
    requires !HasKey(o, "enum") && Get(o, "items") == Some(items)
    ensures StrictOutput(v, o)
       <==> (v.Null? && t.nullable) || (v.Array? && forall i :: 0 <= i < |v.items| ==> StrictOutput(v.items[i], items))
  {
  }

  lemma RuntimeArray(n: Value, nullable: bool, v: Value, items: Value)
    requires n.Object? && RuntimeType(n) == Some((KArray.Name(), nullable)) && Get(n, "items") == Some(items)
    ensures RuntimeOutput(v, n)
       <==> (v.Null? && nullable) || (v.Array? && forall i :: 0 <= i < |v.items| ==> RuntimeOutput(v.items[i], items))
  {
    KindNameParses(KArray);
  }

  lemma ArrayOutputs(o: Value, n: Value, t: FieldType, v: Value)
    requires SameType(o, n, t) && t.kind.KArray? && HasKey(o, "items") && HasKey(n, "items")
    requires v.Array? ==> forall i :: 0 <= i < |v.items| ==>
               StrictOutput(v.items[i], Get(o, "items").value) == StrictOutput(v.items[i], Get(n, "items").value)
               == RuntimeOutput(v.items[i], Get(n, "items").value)
    ensures StrictOutput(v, o) == StrictOutput(v, n) == RuntimeOutput(v, n)
  {
    StrictArray(o, t, v, Get(o, "items").value);
    StrictArray(n, t, v, Get(n, "items").value);
    RuntimeArray(n, t.nullable, v, Get(n, "items").value);
  }

  // Property lists with the same names whose schemas accept the same values.
  ghost predicate SameProperties(raw: seq<Member>, props: seq<Member>, v: Value)
    requires v.Object?
  {
    && |raw| == |props|
    && (forall key :: Has(props, key) <==> Has(raw, key))
    && forall i :: 0 <= i < |props| ==>
         && props[i].key == raw[i].key
         && (HasKey(v, props[i].key) ==>
               var x := Get(v, props[i].key).value;
               StrictOutput(x, raw[i].value) == StrictOutput(x, props[i].value) == RuntimeOutput(x, props[i].value))
  }

  lemma MembersAgree(raw: seq<Member>, props: seq<Member>, v: Value)
    requires v.Object? && SameProperties(raw, props, v)
    ensures StrictMembers(v, raw) == StrictMembers(v, props) == RuntimeMembers(v, props)
  {
  }

  lemma StrictObject(o: Value, t: FieldType, v: Value, raw: seq<Member>)
    requires o.Object? && SchemaType(o, true) == Some(t) && t.kind.KObject?
    requires !HasKey(o, "enum") && Get(o, "properties") == Some(Object(raw))
    ensures StrictOutput(v, o) <==> (v.Null? && t.nullable) || (v.Object? && StrictMembers(v, raw))
  {
  }

  lemma RuntimeObject(n: Value, nullable: bool, v: Value, props: seq<Member>)
    requires n.Object? && RuntimeType(n) == Some((KObject.Name(), nullable))
    requires Get(n, "properties") == Some(Object(props))
    ensures RuntimeOutput(v, n) <==> (v.Null? && nullable) || (v.Object? && RuntimeMembers(v, props))
  {
    KindNameParses(KObject);
  }

  lemma ObjectOutputs(o: Value, n: Value, t: FieldType, v: Value, raw: seq<Member>, props: seq<Member>)
    requires SameType(o, n, t) && t.kind.KObject?
    requires Get(o, "properties") == Some(Object(raw)) && Get(n, "properties") == Some(Object(props))
    requires v.Object? ==> StrictMembers(v, raw) == StrictMembers(v, props) == RuntimeMembers(v, props)
    ensures StrictOutput(v, o) == StrictOutput(v, n) == RuntimeOutput(v, n)
  {
    StrictObject(o, t, v, raw);
    StrictObject(n, t, v, props);
    RuntimeObject(n, t.nullable, v, props);
  }

  lemma TypesPreserved(impl: Impl, o: Value, context: Context)
    requires Normalize(impl, o, context).Some?
    ensures var n := Object(Normalize(impl, o, context).value.members);
            var t := ParseFieldType(o, context).value;
            SameType(o, n, t) && Normalize(impl, o, context).value.kind == t.kind
  {
    var r := Normalize(impl, o, context).value;
    var t := ParseFieldType(o, context).value;
    TypeReadBack(o, context);
    if r.kind.KArray? {
      ArrayLookups(impl, o, context, "type");
      ArrayLookups(impl, o, context, "enum");
    } else if r.kind.KObject? {
      ObjectLookups(impl, o, context, "type");
      ObjectLookups(impl, o, context, "enum");
    } else {
      ScalarLookups(impl, o, context, "type");
      ScalarLookups(impl, o, context, "enum");
    }
    NormalTypeReadBack(Object(r.members), t, context);
  }

  /** Normalizing keeps exactly the accepted outputs, and on the normalized schema
      the strict and the interpreter's validators accept the same outputs. */
  lemma {:induction false} NormalizedOutputs(impl: Impl, o: Value, context: Context, v: Value)
    requires Normalize(impl, o, context).Some? && RubricFree(o)
    ensures var n := Object(Normalize(impl, o, context).value.members);
            StrictOutput(v, o) == StrictOutput(v, n) == RuntimeOutput(v, n)
    decreases o, 1
  {
    var r := Normalize(impl, o, context).value;
    if r.kind.KArray? {
      NormalizedArray(impl, o, context, v);
    } else if r.kind.KObject? {
      NormalizedObject(impl, o, context, v);
    } else {
      NormalizedScalar(impl, o, context, v);
    }
  }

  lemma ScalarBoundsNormalized(impl: Impl, o: Value, context: Context)
    requires Normalize(impl, o, context).Some? && !Normalize(impl, o, context).value.kind.Structured()
    ensures BoundsNormalized(o, Object(Normalize(impl, o, context).value.members), ParseFieldType(o, context).value.kind)
  {
    var n := Object(Normalize(impl, o, context).value.members);
    var k := ParseFieldType(o, context).value.kind;
    forall key | IsBoundKey(key)
      ensures Get(n, key) == if HasKey(o, key) then Some(NormalBound(k, Get(o, key).value)) else None
    {
      ScalarLookups(impl, o, context, key);
    }
  }

  lemma NormalizedScalar(impl: Impl, o: Value, context: Context, v: Value)
    requires Normalize(impl, o, context).Some? && !HasKey(o, "rubric")
    requires !Normalize(impl, o, context).value.kind.Structured()
    ensures var n := Object(Normalize(impl, o, context).value.members);
            StrictOutput(v, o) == StrictOutput(v, n) == RuntimeOutput(v, n)
  {
    var n := Object(Normalize(impl, o, context).value.members);
    TypesPreserved(impl, o, context);
    ScalarLookups(impl, o, context, "rubric");
    ScalarBoundsNormalized(impl, o, context);
    ScalarOutputs(o, n, ParseFieldType(o, context).value, v);
  }

  lemma {:induction false} NormalizedArray(impl: Impl, o: Value, context: Context, v: Value)
    requires Normalize(impl, o, context).Some? && RubricFree(o)
    requires Normalize(impl, o, context).value.kind.KArray?
    ensures var n := Object(Normalize(impl, o, context).value.members);
            StrictOutput(v, o) == StrictOutput(v, n) == RuntimeOutput(v, n)
    decreases o, 0
  {
    var n := Object(Normalize(impl, o, context).value.members);
    TypesPreserved(impl, o, context);
    ArrayLookups(impl, o, context, "items");
    var raw := Get(o, "items").value;
    if v.Array? {
      forall i | 0 <= i < |v.items|
        ensures StrictOutput(v.items[i], raw) == StrictOutput(v.items[i], Get(n, "items").value)
             == RuntimeOutput(v.items[i], Get(n, "items").value)
      {
        NormalizedOutputs(impl, raw, ArrayItem, v.items[i]);
      }
    }
    ArrayOutputs(o, n, ParseFieldType(o, context).value, v);
  }

  lemma {:induction false} NormalizedObject(impl: Impl, o: Value, context: Context, v: Value)
    requires Normalize(impl, o, context).Some? && RubricFree(o)
    requires Normalize(impl, o, context).value.kind.KObject?
    ensures var n := Object(Normalize(impl, o, context).value.members);
            StrictOutput(v, o) == StrictOutput(v, n) == RuntimeOutput(v, n)
    decreases o, 0
  {
    var n := Object(Normalize(impl, o, context).value.members);
    TypesPreserved(impl, o, context);
    ObjectLookups(impl, o, context, "properties");
    var raw := Get(o, "properties").value;
    if v.Object? {
      NormalizedPropertyList(impl, raw, v);
      MembersAgree(raw.members, NormalizeProperties(impl, raw.members).value, v);
    }
    ObjectOutputs(o, n, ParseFieldType(o, context).value, v, raw.members,
                  NormalizeProperties(impl, raw.members).value);
  }

  lemma {:induction false} NormalizedPropertyList(impl: Impl, raw: Value, v: Value)
    requires raw.Object? && PropertiesRubricFree(raw) && v.Object?
    requires NormalizeProperties(impl, raw.members).Some?
    ensures SameProperties(raw.members, NormalizeProperties(impl, raw.members).value, v)
    decreases raw
  {
    var props := NormalizeProperties(impl, raw.members).value;
    forall key ensures Has(props, key) <==> Has(raw.members, key) {
      PropertyNames(impl, raw.members, key);
    }
    forall i | 0 <= i < |props|
      ensures props[i].key == raw.members[i].key
      ensures HasKey(v, props[i].key) ==>
                var x := Get(v, props[i].key).value;
                StrictOutput(x, raw.members[i].value) == StrictOutput(x, props[i].value) == RuntimeOutput(x, props[i].value)
    {
      PropertyAt(impl, raw.members, i);
      if HasKey(v, props[i].key) {
        NormalizedOutputs(impl, raw.members[i].value, ObjectProperty, Get(v, props[i].key).value);
      }
    }
  }

  // ----- normalization keeps objects well formed: no key appears twice

  lemma PutBoundWellFormed(ms: seq<Member>, o: Value, key: string, k: Kind)
    requires WellFormed(Object(ms)) && o.Object? && WellFormed(o)
    ensures WellFormed(Object(PutBound(ms, o, key, k)))
  {
    if HasKey(o, key) {
      FindValue(o.members, key);
      PutWellFormed(ms, key, NormalBound(k, Get(o, key).value));
    }
  }

  lemma PutBoundsWellFormed(ms: seq<Member>, o: Value, k: Kind)
    requires WellFormed(Object(ms)) && o.Object? && WellFormed(o)
    ensures WellFormed(Object(PutBounds(ms, o, k)))
  {
    var ms1 := PutBound(ms, o, "minimum", k);
    var ms2 := PutBound(ms1, o, "maximum", k);
    var ms3 := PutBound(ms2, o, "exclusiveMinimum", k);
    PutBoundWellFormed(ms, o, "minimum", k);
    PutBoundWellFormed(ms1, o, "maximum", k);
    PutBoundWellFormed(ms2, o, "exclusiveMinimum", k);
    PutBoundWellFormed(ms3, o, "exclusiveMaximum", k);
  }

  lemma {:induction false} NamesWellFormed(props: seq<Member>)
    ensures forall i :: 0 <= i < |Names(props)| ==> WellFormed(Names(props)[i])
  {
    if props != [] {
      NamesWellFormed(props[..|props| - 1]);
    }
  }

  lemma ClosedWellFormed(typed: seq<Member>, props: seq<Member>)
    requires WellFormed(Object(typed)) && WellFormed(Object(props))
    ensures WellFormed(Object(Closed(typed, props, Names(props))))
  {
    var ms1 := Put(typed, "properties", Object(props));
    var ms2 := Put(ms1, "additionalProperties", Bool(false));
    PutWellFormed(typed, "properties", Object(props));
    PutWellFormed(ms1, "additionalProperties", Bool(false));
    NamesWellFormed(props);
    PutWellFormed(ms2, "required", Array(Names(props)));
  }

  /** Normalizing a well-formed schema gives a well-formed one. */
  lemma {:induction false} NormalizedWellFormed(impl: Impl, o: Value, context: Context)
    requires Normalize(impl, o, context).Some? && WellFormed(o)
    ensures WellFormed(Object(Normalize(impl, o, context).value.members))
    decreases o, 2
  {
    Rebuilds(impl, o, context);
    RebuiltWellFormed(impl, o, ParseFieldType(o, context).value);
  }

  lemma {:induction false} RebuiltWellFormed(impl: Impl, o: Value, t: FieldType)
    requires o.Object? && WellFormed(o) && Rebuild(impl, o, t).Some?
    ensures WellFormed(Object(Rebuild(impl, o, t).value.members))
    decreases o, 1
  {
    var typed := Put(o.members, "type", TypeValue(t));
    PutWellFormed(o.members, "type", TypeValue(t));
    if t.kind.KArray? {
      var items := Get(o, "items").value;
      FindValue(o.members, "items");
      NormalizedWellFormed(impl, items, ArrayItem);
      PutWellFormed(typed, "items", Object(Normalize(impl, items, ArrayItem).value.members));
    } else if t.kind.KObject? {
      var raw := Get(o, "properties").value;
      FindValue(o.members, "properties");
      PropertiesWellFormed(impl, raw);
      ClosedWellFormed(typed, NormalizeProperties(impl, raw.members).value);
    } else {
      PutBoundsWellFormed(typed, o, t.kind);
    }
  }

  lemma {:induction false} PropertiesWellFormed(impl: Impl, raw: Value)
    requires raw.Object? && WellFormed(raw) && NormalizeProperties(impl, raw.members).Some?
    ensures WellFormed(Object(NormalizeProperties(impl, raw.members).value))
    decreases raw, 0
  {
    var r := NormalizeProperties(impl, raw.members).value;
    forall i | 0 <= i < |r| ensures r[i].key == raw.members[i].key && WellFormed(r[i].value) {
      PropertyAt(impl, raw.members, i);
      NormalizedWellFormed(impl, raw.members[i].value, ObjectProperty);
    }
  }
}
