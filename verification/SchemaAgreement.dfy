/** Descriptor acceptance, idempotent normalization, and whole definitions. */
module SchemaAgreement {
  import opened Text
  import opened Json
  import opened Kinds
  import opened Schemas
  import opened Outputs
  import opened SchemaLaws

  // ----- what the descriptor accepts, both normalizers normalize alike

  lemma KeyPresentAllowed(o: Value, k: Kind, rubric: bool, key: string)
    requires o.Object? && KeysAllowed(o, k, rubric) && HasKey(o, key)
    ensures AllowedKey(k, rubric, key)
  {
  }

  lemma AllowedKeysRuleOut(o: Value, k: Kind, rubric: bool)
    requires o.Object? && KeysAllowed(o, k, rubric)
    ensures HasKey(o, "enum") ==> k.KString?
    ensures forall key :: IsBoundKey(key) && HasKey(o, key) ==> k.Numeric()
    ensures HasKey(o, "rubric") ==> rubric && k.KNumber?
    ensures HasKey(o, "items") ==> k.KArray?
    ensures HasKey(o, "properties") ==> k.KObject?
  {
    if HasKey(o, "enum") { KeyPresentAllowed(o, k, rubric, "enum"); }
    if HasKey(o, "rubric") { KeyPresentAllowed(o, k, rubric, "rubric"); }
    if HasKey(o, "items") { KeyPresentAllowed(o, k, rubric, "items"); }
    if HasKey(o, "properties") { KeyPresentAllowed(o, k, rubric, "properties"); }
    forall key | IsBoundKey(key) && HasKey(o, key) ensures k.Numeric() {
      KeyPresentAllowed(o, k, rubric, key);
    }
  }

  lemma DescriptorChecked(impl: Impl, o: Value, context: Context, rubricAllowed: bool)
    requires Descriptor(o, context, rubricAllowed).Some?
    ensures o.Object? && Checked(impl, o, context)
    ensures ParseFieldType(o, context).value.kind == Descriptor(o, context, rubricAllowed).value
    ensures HasKey(o, "rubric") ==> rubricAllowed && context.TopLevel?
  {
    TypesAgree(o, context);
    var k := ParseFieldType(o, context).value.kind;
    AllowedKeysRuleOut(o, k, rubricAllowed && context.TopLevel?);
    BoundKeys();
  }

  // Both normalizers succeed, with the same result of kind k.
  ghost predicate NormalizesTo(o: Value, context: Context, k: Kind) {
    && Normalize(Interpreted, o, context).Some?
    && Normalize(Generated, o, context) == Normalize(Interpreted, o, context)
    && Normalize(Interpreted, o, context).value.kind == k
  }

  /** Every property the descriptor accepts is normalized by both normalizers, to
      the same schema and with the descriptor's kind. */
  lemma {:induction false} DescriptorNormalizes(o: Value, context: Context, rubricAllowed: bool)
    requires Descriptor(o, context, rubricAllowed).Some?
    ensures NormalizesTo(o, context, Descriptor(o, context, rubricAllowed).value)
    decreases o
  {
    DescriptorChecked(Interpreted, o, context, rubricAllowed);
    DescriptorChecked(Generated, o, context, rubricAllowed);
    DescriptorParts(o, context, rubricAllowed);
    var k := Descriptor(o, context, rubricAllowed).value;
    if k.KArray? {
      var items := Get(o, "items").value;
      DescriptorNormalizes(items, ArrayItem, rubricAllowed);
      DescriptorKind(items, ArrayItem, rubricAllowed);
      ArrayNormalizes(o, context, Descriptor(items, ArrayItem, rubricAllowed).value);
    } else if k.KObject? {
      var props := Get(o, "properties").value;
      DescriptorsNormalize(props, props.members, rubricAllowed);
      ObjectNormalizes(o, context);
    } else {
      ScalarNormalizes(o, context);
    }
  }

  lemma DescriptorParts(o: Value, context: Context, rubricAllowed: bool)
    requires Descriptor(o, context, rubricAllowed).Some?
    ensures o.Object?
    ensures Descriptor(o, context, rubricAllowed).value.KArray? ==>
              HasKey(o, "items") && Descriptor(Get(o, "items").value, ArrayItem, rubricAllowed).Some?
    ensures Descriptor(o, context, rubricAllowed).value.KObject? ==>
              && HasKey(o, "properties") && Get(o, "properties").value.Object?
              && var props := Get(o, "properties").value.members;
                 props != [] && forall i :: 0 <= i < |props| ==>
                   Descriptor(props[i].value, ObjectProperty, rubricAllowed).Some?
  {
  }

  ghost predicate BothChecked(o: Value, context: Context, k: Kind) {
    && o.Object? && Checked(Interpreted, o, context) && Checked(Generated, o, context)
    && ParseFieldType(o, context).value.kind == k
  }

  lemma ScalarNormalizes(o: Value, context: Context)
    requires o.Object? && ParseFieldType(o, context).Some?
    requires var k := ParseFieldType(o, context).value.kind; BothChecked(o, context, k) && !k.Structured()
    ensures NormalizesTo(o, context, ParseFieldType(o, context).value.kind)
  {
  }

  lemma CheckedRebuilds(impl: Impl, o: Value, context: Context)
    requires o.Object? && Checked(impl, o, context)
    ensures Normalize(impl, o, context) == Rebuild(impl, o, ParseFieldType(o, context).value)
  {
  }

  lemma ArrayForm(impl: Impl, o: Value, typed: seq<Member>, items: Normalized)
    requires o.Object? && HasKey(o, "items") && !items.kind.KArray?
    requires Normalize(impl, Get(o, "items").value, ArrayItem) == Some(items)
    ensures RebuildArray(impl, o, typed) == Some(Normalized(KArray, Put(typed, "items", Object(items.members))))
  {
  }

  lemma ObjectForm(impl: Impl, o: Value, typed: seq<Member>, raw: seq<Member>, props: seq<Member>)
    requires o.Object? && raw != []
    requires Get(o, "properties") == Some(Object(raw)) && NormalizeProperties(impl, raw) == Some(props)
    ensures RebuildObject(impl, o, typed) == Some(Normalized(KObject, Closed(typed, props, Names(props))))
  {
  }

  lemma ArrayNormalizes(o: Value, context: Context, item: Kind)
    requires BothChecked(o, context, KArray) && HasKey(o, "items")
    requires NormalizesTo(Get(o, "items").value, ArrayItem, item) && !item.KArray?
    ensures NormalizesTo(o, context, KArray)
  {
    var t := ParseFieldType(o, context).value;
    var typed := Put(o.members, "type", TypeValue(t));
    var items := Normalize(Interpreted, Get(o, "items").value, ArrayItem).value;
    CheckedRebuilds(Interpreted, o, context);
    CheckedRebuilds(Generated, o, context);
    RebuildKind(Interpreted, o, t);
    RebuildKind(Generated, o, t);
    ArrayForm(Interpreted, o, typed, items);
    ArrayForm(Generated, o, typed, items);
  }

  lemma ObjectNormalizes(o: Value, context: Context)
    requires BothChecked(o, context, KObject) && HasKey(o, "properties") && Get(o, "properties").value.Object?
    requires var props := Get(o, "properties").value.members;
             && props != [] && NormalizeProperties(Interpreted, props).Some?
             && NormalizeProperties(Generated, props) == NormalizeProperties(Interpreted, props)
    ensures NormalizesTo(o, context, KObject)
  {
    var t := ParseFieldType(o, context).value;
    var typed := Put(o.members, "type", TypeValue(t));
    var raw := Get(o, "properties").value.members;
    var props := NormalizeProperties(Interpreted, raw).value;
    CheckedRebuilds(Interpreted, o, context);
    CheckedRebuilds(Generated, o, context);
    RebuildKind(Interpreted, o, t);
    RebuildKind(Generated, o, t);
    ObjectForm(Interpreted, o, typed, raw, props);
    ObjectForm(Generated, o, typed, raw, props);
  }

  lemma DescriptorKind(o: Value, context: Context, rubricAllowed: bool)
    requires Descriptor(o, context, rubricAllowed).Some?
    ensures context.ArrayItem? ==> !Descriptor(o, context, rubricAllowed).value.KArray?
    ensures context.ObjectProperty? ==> !Descriptor(o, context, rubricAllowed).value.Structured()
  {
  }

  lemma {:induction false} DescriptorsNormalize(o: Value, props: seq<Member>, rubricAllowed: bool)
    requires forall i :: 0 <= i < |props| ==>
               props[i].value < o && Descriptor(props[i].value, ObjectProperty, rubricAllowed).Some?
    ensures NormalizeProperties(Interpreted, props).Some?
    ensures NormalizeProperties(Generated, props) == NormalizeProperties(Interpreted, props)
    decreases o, |props|
  {
    if props != [] {
      DescriptorNormalizes(props[0].value, ObjectProperty, rubricAllowed);
      DescriptorKind(props[0].value, ObjectProperty, rubricAllowed);
      DescriptorsNormalize(o, props[1..], rubricAllowed);
      HeadNormalizes(Interpreted, props);
      HeadNormalizes(Generated, props);
    }
  }

  lemma HeadNormalizes(impl: Impl, props: seq<Member>)
    requires props != []
    ensures NormalizeProperties(impl, props)
         == WithHead(props[0].key, Normalize(impl, props[0].value, ObjectProperty), NormalizeProperties(impl, props[1..]))
  {
  }

  // ----- where the two normalizers differ, descriptor or not

  // What only the build demands of one level: nonblank enum strings, and room
  // between the bounds.
  predicate LevelReady(o: Value, k: Kind)
    requires o.Object? && BoundsOk(o, k)
  {
    && (HasKey(o, "enum") && Get(o, "enum").value.Array? ==>
          forall i :: 0 <= i < |Get(o, "enum").value.items| ==> NonBlank(Get(o, "enum").value.items[i]).Some?)
    && (k.Numeric() ==> BoundsLeaveRoom(o, k))
  }

  // The same at every level that normalization reaches.
  ghost predicate BuildReady(o: Value, context: Context)
    decreases o, 1
  {
    o.Object? && ParseFieldType(o, context).Some? && BoundsOk(o, ParseFieldType(o, context).value.kind) ==>
      var k := ParseFieldType(o, context).value.kind;
      && LevelReady(o, k)
      && (k.KArray? && HasKey(o, "items") ==> BuildReady(Get(o, "items").value, ArrayItem))
      && (k.KObject? && HasKey(o, "properties") && Get(o, "properties").value.Object? ==>
            ListReady(Get(o, "properties").value, Get(o, "properties").value.members))
  }

  ghost predicate ListReady(o: Value, props: seq<Member>)
    requires forall i :: 0 <= i < |props| ==> props[i].value < o
    decreases o, 0, |props|
  {
    props == [] || (BuildReady(props[0].value, ObjectProperty) && ListReady(o, props[1..]))
  }

  lemma EnumsDiffer(o: Value, k: Kind)
    requires o.Object? && BoundsOk(o, k)
    ensures EnumOk(Generated, o, k) && (k.Numeric() ==> BoundsLeaveRoom(o, k))
       <==> EnumOk(Interpreted, o, k) && LevelReady(o, k)
  {
  }

  lemma ChecksDiffer(o: Value, context: Context)
    requires o.Object?
    ensures Checked(Generated, o, context) ==> Checked(Interpreted, o, context)
    ensures Checked(Interpreted, o, context) ==>
              (Checked(Generated, o, context) <==> LevelReady(o, ParseFieldType(o, context).value.kind))
  {
    var t := ParseFieldType(o, context);
    if t.Some? && BoundsOk(o, t.value.kind) {
      EnumsDiffer(o, t.value.kind);
    }
  }

  // Succeeding less often with the same results.
  ghost predicate Narrows<T(!new)>(ready: bool, interpreted: Option<T>, generated: Option<T>) {
    && (generated.Some? <==> interpreted.Some? && ready)
    && (generated.Some? ==> generated == interpreted)
  }

  /** Legacy properties never pass the descriptor. The build normalizes a property if
      and only if the interpreter does and, at every level, enum strings are nonblank
      and numeric bounds leave room; both then give the same schema. */
  lemma {:induction false} BuildNormalizesIff(o: Value, context: Context)
    ensures Narrows(BuildReady(o, context), Normalize(Interpreted, o, context), Normalize(Generated, o, context))
    decreases o, 2
  {
    if o.Object? {
      ChecksDiffer(o, context);
      if Checked(Interpreted, o, context) {
        CheckedRebuilds(Interpreted, o, context);
        if Checked(Generated, o, context) {
          CheckedRebuilds(Generated, o, context);
          RebuildNarrows(o, context, ParseFieldType(o, context).value);
        }
      }
    }
  }

  lemma {:induction false} RebuildNarrows(o: Value, context: Context, t: FieldType)
    requires o.Object? && ParseFieldType(o, context) == Some(t) && BoundsOk(o, t.kind) && LevelReady(o, t.kind)
    ensures Narrows(BuildReady(o, context), Rebuild(Interpreted, o, t), Rebuild(Generated, o, t))
    decreases o, 1
  {
    var typed := Put(o.members, "type", TypeValue(t));
    RebuildKind(Interpreted, o, t);
    RebuildKind(Generated, o, t);
    if t.kind.KArray? {
      if HasKey(o, "items") {
        BuildNormalizesIff(Get(o, "items").value, ArrayItem);
      }
      ArrayParts(Interpreted, o, typed);
      ArrayParts(Generated, o, typed);
    } else if t.kind.KObject? {
      if HasKey(o, "properties") && Get(o, "properties").value.Object? {
        var raw := Get(o, "properties").value;
        PropertiesNarrow(raw, raw.members);
      }
      ObjectParts(Interpreted, o, typed);
      ObjectParts(Generated, o, typed);
    }
  }

  lemma ArrayParts(impl: Impl, o: Value, typed: seq<Member>)
    requires o.Object?
    ensures RebuildArray(impl, o, typed)
         == if HasKey(o, "items") then WithItems(typed, Normalize(impl, Get(o, "items").value, ArrayItem)) else None
  {
  }

  function WithItems(typed: seq<Member>, items: Option<Normalized>): Option<Normalized> {
    if items.None? || items.value.kind.KArray? then None
    else Some(Normalized(KArray, Put(typed, "items", Object(items.value.members))))
  }

  lemma ObjectParts(impl: Impl, o: Value, typed: seq<Member>)
    requires o.Object?
    ensures RebuildObject(impl, o, typed)
         == if HasKey(o, "properties") && Get(o, "properties").value.Object?
               && Get(o, "properties").value.members != []
            then WithProperties(typed, NormalizeProperties(impl, Get(o, "properties").value.members)) else None
  {
  }

  function WithProperties(typed: seq<Member>, props: Option<seq<Member>>): Option<Normalized> {
    if props.None? then None else Some(Normalized(KObject, Closed(typed, props.value, Names(props.value))))
  }

  lemma HeadNarrows(key: string, r: bool, a: Option<Normalized>, b: Option<Normalized>,
                    rs: bool, xs: Option<seq<Member>>, ys: Option<seq<Member>>)
    requires Narrows(r, a, b) && Narrows(rs, xs, ys)
    ensures Narrows(r && rs, WithHead(key, a, xs), WithHead(key, b, ys))
  {
  }

  lemma {:induction false} PropertiesNarrow(o: Value, props: seq<Member>)
    requires forall i :: 0 <= i < |props| ==> props[i].value < o
    ensures Narrows(ListReady(o, props), NormalizeProperties(Interpreted, props), NormalizeProperties(Generated, props))
    decreases o, 0, |props|
  {
    if props != [] {
      var v := props[0].value;
      BuildNormalizesIff(v, ObjectProperty);
      PropertiesNarrow(o, props[1..]);
      HeadNarrows(props[0].key,
                  BuildReady(v, ObjectProperty),
                  Normalize(Interpreted, v, ObjectProperty), Normalize(Generated, v, ObjectProperty),
                  ListReady(o, props[1..]),
                  NormalizeProperties(Interpreted, props[1..]), NormalizeProperties(Generated, props[1..]));
      HeadNormalizes(Interpreted, props);
      HeadNormalizes(Generated, props);
    }
  }

  // ----- normalization is idempotent

  lemma NormalBoundsChecked(o: Value, n: Value, k: Kind)
    requires o.Object? && n.Object? && BoundsOk(o, k) && BoundsNormalized(o, n, k)
    ensures BoundsOk(n, k)
    ensures k.Numeric() && BoundsLeaveRoom(o, k) ==> BoundsLeaveRoom(n, k)
  {
    BoundKeys();
  }

  lemma NormalBoundFixed(o: Value, n: Value, key: string, k: Kind)
    requires o.Object? && n.Object?
    requires Get(n, key) == if HasKey(o, key) then Some(NormalBound(k, Get(o, key).value)) else None
    ensures PutBound(n.members, n, key, k) == n.members
  {
  }

  lemma NormalBoundsFixed(o: Value, n: Value, k: Kind)
    requires o.Object? && n.Object? && BoundsNormalized(o, n, k)
    ensures PutBounds(n.members, n, k) == n.members
  {
    BoundKeys();
    NormalBoundFixed(o, n, "minimum", k);
    NormalBoundFixed(o, n, "maximum", k);
    NormalBoundFixed(o, n, "exclusiveMinimum", k);
    NormalBoundFixed(o, n, "exclusiveMaximum", k);
  }

  lemma NormalTypeKept(o: Value, n: Value, context: Context)
    requires o.Object? && n.Object? && ParseFieldType(o, context).Some?
    requires Get(n, "type") == Some(TypeValue(ParseFieldType(o, context).value))
    ensures ParseFieldType(n, context) == ParseFieldType(o, context)
    ensures Put(n.members, "type", TypeValue(ParseFieldType(n, context).value)) == n.members
  {
    TypeReadBack(o, context);
    NormalTypeReadBack(n, ParseFieldType(o, context).value, context);
  }

  // The checks depend on the type and on the keywords that stay.
  lemma CheckedAgain(impl: Impl, o: Value, n: Value, context: Context)
    requires o.Object? && n.Object? && Checked(impl, o, context)
    requires ParseFieldType(n, context) == ParseFieldType(o, context)
    requires Get(n, "description") == Get(o, "description") && Get(n, "enum") == Get(o, "enum")
    requires var k := ParseFieldType(o, context).value.kind;
             BoundsOk(n, k) && (k.Numeric() && BoundsLeaveRoom(o, k) ==> BoundsLeaveRoom(n, k))
    ensures Checked(impl, n, context)
  {
  }

  // The keywords every normalized schema shares with its source.
  ghost predicate KeywordsKept(o: Value, n: Value, t: FieldType)
    requires o.Object? && n.Object?
  {
    && Get(n, "type") == Some(TypeValue(t))
    && Get(n, "description") == Get(o, "description") && Get(n, "enum") == Get(o, "enum")
    && BoundsNormalized(o, n, t.kind)
  }

  lemma NormalChecked(impl: Impl, o: Value, n: Value, context: Context)
    requires o.Object? && n.Object? && Checked(impl, o, context)
    requires KeywordsKept(o, n, ParseFieldType(o, context).value)
    ensures Checked(impl, n, context) && ParseFieldType(n, context) == ParseFieldType(o, context)
    ensures Put(n.members, "type", TypeValue(ParseFieldType(n, context).value)) == n.members
  {
    NormalTypeKept(o, n, context);
    NormalBoundsChecked(o, n, ParseFieldType(o, context).value.kind);
    CheckedAgain(impl, o, n, context);
  }

  predicate IsKeyword(key: string) {
    key == "type" || key == "description" || key == "enum" || IsBoundKey(key)
  }

  function KeywordValue(o: Value, t: FieldType, key: string): Option<Value>
    requires o.Object?
  {
    if key == "type" then Some(TypeValue(t))
    else if IsBoundKey(key) && HasKey(o, key) then Some(NormalBound(t.kind, Get(o, key).value))
    else Get(o, key)
  }

  lemma NoBoundsOnStructured(o: Value, k: Kind, key: string)
    requires o.Object? && BoundsOk(o, k) && !k.Numeric() && IsBoundKey(key)
    ensures !HasKey(o, key)
  {
  }

  lemma KeywordAt(impl: Impl, o: Value, context: Context, key: string)
    requires Normalize(impl, o, context).Some? && IsKeyword(key)
    ensures Find(Normalize(impl, o, context).value.members, key)
         == KeywordValue(o, ParseFieldType(o, context).value, key)
  {
    var k := Normalize(impl, o, context).value.kind;
    if k.KArray? {
      ArrayLookups(impl, o, context, key);
    } else if k.KObject? {
      ObjectLookups(impl, o, context, key);
    } else {
      ScalarLookups(impl, o, context, key);
    }
    if k.Structured() && IsBoundKey(key) {
      NoBoundsOnStructured(o, k, key);
    }
  }

  lemma NormalKeywords(impl: Impl, o: Value, context: Context)
    requires Normalize(impl, o, context).Some?
    ensures o.Object? && ParseFieldType(o, context).Some?
    ensures KeywordsKept(o, Object(Normalize(impl, o, context).value.members), ParseFieldType(o, context).value)
  {
    var k := ParseFieldType(o, context).value.kind;
    KeywordAt(impl, o, context, "type");
    KeywordAt(impl, o, context, "description");
    KeywordAt(impl, o, context, "enum");
    forall key | IsBoundKey(key)
      ensures Find(Normalize(impl, o, context).value.members, key)
           == if HasKey(o, key) then Some(NormalBound(k, Get(o, key).value)) else None
    {
      KeywordAt(impl, o, context, key);
    }
  }

  lemma NormalForm(impl: Impl, o: Value, context: Context)
    requires Normalize(impl, o, context).Some?
    ensures var r := Normalize(impl, o, context).value;
            TypeNormal(impl, Object(r.members), context, r.kind)
  {
    NormalKeywords(impl, o, context);
    NormalChecked(impl, o, Object(Normalize(impl, o, context).value.members), context);
    ScalarKind(impl, o, context);
  }

  /** Normalizing a normalized schema changes nothing. */
  lemma {:induction false} NormalizeIdempotent(impl: Impl, o: Value, context: Context)
    requires Normalize(impl, o, context).Some?
    ensures Normalize(impl, Object(Normalize(impl, o, context).value.members), context) == Normalize(impl, o, context)
    decreases o, 1
  {
    var r := Normalize(impl, o, context).value;
    var n := Object(r.members);
    NormalForm(impl, o, context);
    NormalRebuilds(impl, n, context, r.kind);
    RebuildIdempotent(impl, o, context, n);
  }

  lemma BoundsFixed(impl: Impl, o: Value, context: Context)
    requires Normalize(impl, o, context).Some?
    ensures var r := Normalize(impl, o, context).value;
            PutBounds(r.members, Object(r.members), r.kind) == r.members
  {
    var r := Normalize(impl, o, context).value;
    NormalKeywords(impl, o, context);
    ScalarKind(impl, o, context);
    NormalBoundsFixed(o, Object(r.members), r.kind);
  }

  lemma {:induction false} RebuildIdempotent(impl: Impl, o: Value, context: Context, n: Value)
    requires Normalize(impl, o, context).Some? && n == Object(Normalize(impl, o, context).value.members)
    requires TypeNormal(impl, n, context, Normalize(impl, o, context).value.kind)
    ensures Rebuild(impl, n, ParseFieldType(n, context).value) == Normalize(impl, o, context)
    decreases o, 0
  {
    var k := Normalize(impl, o, context).value.kind;
    var t := ParseFieldType(n, context).value;
    if k.KArray? {
      ArrayLookups(impl, o, context, "items");
      var items := Get(o, "items").value;
      NormalizeIdempotent(impl, items, ArrayItem);
      ArrayRebuilt(impl, n, t, Normalize(impl, items, ArrayItem).value);
    } else if k.KObject? {
      NormalObjectParts(impl, o, context);
      var raw := Get(o, "properties").value;
      PropertiesIdempotent(impl, raw, raw.members);
      ObjectRebuilt(impl, n, t, NormalizeProperties(impl, raw.members).value);
    } else {
      BoundsFixed(impl, o, context);
      ScalarRebuilt(impl, n, t);
    }
  }

  lemma NormalObjectParts(impl: Impl, o: Value, context: Context)
    requires Normalize(impl, o, context).Some? && Normalize(impl, o, context).value.kind.KObject?
    ensures o.Object? && HasKey(o, "properties") && Get(o, "properties").value.Object?
    ensures Get(o, "properties").value.members != []
    ensures var props := NormalizeProperties(impl, Get(o, "properties").value.members);
            var n := Object(Normalize(impl, o, context).value.members);
            && props.Some? && Get(n, "properties") == Some(Object(props.value))
            && Get(n, "additionalProperties") == Some(Bool(false))
            && Get(n, "required") == Some(Array(Names(props.value)))
  {
    ObjectLookups(impl, o, context, "properties");
    ObjectLookups(impl, o, context, "additionalProperties");
    ObjectLookups(impl, o, context, "required");
  }

  lemma ScalarKind(impl: Impl, o: Value, context: Context)
    requires Normalize(impl, o, context).Some?
    ensures Normalize(impl, o, context).value.kind == ParseFieldType(o, context).value.kind
  {
    Rebuilds(impl, o, context);
  }

  // A checked schema that already has the normal form is left as it is.
  ghost predicate TypeNormal(impl: Impl, n: Value, context: Context, k: Kind) {
    && n.Object? && Checked(impl, n, context)
    && ParseFieldType(n, context).value.kind == k
    && Put(n.members, "type", TypeValue(ParseFieldType(n, context).value)) == n.members
  }

  lemma NormalRebuilds(impl: Impl, n: Value, context: Context, k: Kind)
    requires TypeNormal(impl, n, context, k)
    ensures Normalize(impl, n, context) == Rebuild(impl, n, ParseFieldType(n, context).value)
  {
  }

  lemma ScalarRebuilt(impl: Impl, n: Value, t: FieldType)
    requires n.Object? && Put(n.members, "type", TypeValue(t)) == n.members
    requires !t.kind.Structured() && PutBounds(n.members, n, t.kind) == n.members
    ensures Rebuild(impl, n, t) == Some(Normalized(t.kind, n.members))
  {
  }

  lemma ArrayRebuilt(impl: Impl, n: Value, t: FieldType, items: Normalized)
    requires n.Object? && Put(n.members, "type", TypeValue(t)) == n.members
    requires t.kind.KArray? && !items.kind.KArray?
    requires Get(n, "items") == Some(Object(items.members))
    requires Normalize(impl, Object(items.members), ArrayItem) == Some(items)
    ensures Rebuild(impl, n, t) == Some(Normalized(KArray, n.members))
  {
  }

  lemma ClosedFixed(ms: seq<Member>, t: Value, props: seq<Member>)
    requires Put(ms, "type", t) == ms && Find(ms, "properties") == Some(Object(props))
    requires Find(ms, "additionalProperties") == Some(Bool(false)) && Find(ms, "required") == Some(Array(Names(props)))
    ensures Closed(Put(ms, "type", t), props, Names(props)) == ms
  {
  }

  lemma ObjectRebuilt(impl: Impl, n: Value, t: FieldType, props: seq<Member>)
    requires n.Object? && Put(n.members, "type", TypeValue(t)) == n.members
    requires t.kind.KObject? && props != []
    requires Get(n, "properties") == Some(Object(props)) && NormalizeProperties(impl, props) == Some(props)
    requires Get(n, "additionalProperties") == Some(Bool(false)) && Get(n, "required") == Some(Array(Names(props)))
    ensures Rebuild(impl, n, t) == Some(Normalized(KObject, n.members))
  {
    ClosedFixed(n.members, TypeValue(t), props);
    RebuildKind(impl, n, t);
    ObjectForm(impl, n, n.members, props, props);
  }

  lemma {:induction false} PropertiesIdempotent(impl: Impl, o: Value, props: seq<Member>)
    requires NormalizeProperties(impl, props).Some? && forall i :: 0 <= i < |props| ==> props[i].value < o
    ensures NormalizeProperties(impl, NormalizeProperties(impl, props).value) == NormalizeProperties(impl, props)
    decreases o, 0, |props|
  {
    if props != [] {
      HeadNormalizes(impl, props);
      NormalizeIdempotent(impl, props[0].value, ObjectProperty);
      PropertiesIdempotent(impl, o, props[1..]);
      var r := NormalizeProperties(impl, props).value;
      assert r[1..] == NormalizeProperties(impl, props[1..]).value;
      HeadNormalizes(impl, r);
    }
  }

  // ----- whole definitions

  // The two endpoints put back.
  function Restored(ms: seq<Member>, lower: Value, upper: Value): seq<Member> {
    Put(Put(ms, "minimum", lower), "maximum", upper)
  }

  // `parse_schema_properties`: the normalized property, with the authored
  // endpoints of a rubric restored.
  function ParseTopLevel(impl: Impl, o: Value, rubricEnabled: bool): Option<Normalized> {
    var r := Normalize(impl, o, TopLevel);
    if r.Some? && rubricEnabled && HasKey(o, "rubric") && HasKey(o, "minimum") && HasKey(o, "maximum") then
      Some(r.value.(members :=
        Restored(r.value.members, Get(o, "minimum").value, Get(o, "maximum").value)))
    else r
  }

  lemma {:induction false} DescriptorRubricFree(o: Value, context: Context, rubricAllowed: bool)
    requires Descriptor(o, context, rubricAllowed).Some? && o.Object? && !HasKey(o, "rubric")
    ensures RubricFree(o)
    decreases o
  {
    var k := Descriptor(o, context, rubricAllowed).value;
    DescriptorParts(o, context, rubricAllowed);
    DescriptorStructure(o, context, rubricAllowed);
    if HasKey(o, "items") {
      var items := Get(o, "items").value;
      DescriptorChecked(Interpreted, items, ArrayItem, rubricAllowed);
      DescriptorRubricFree(items, ArrayItem, rubricAllowed);
    }
    if HasKey(o, "properties") {
      var props := Get(o, "properties").value;
      forall i | 0 <= i < |props.members| ensures RubricFree(props.members[i].value) {
        DescriptorChecked(Interpreted, props.members[i].value, ObjectProperty, rubricAllowed);
        DescriptorRubricFree(props.members[i].value, ObjectProperty, rubricAllowed);
      }
    }
  }

  lemma DescriptorStructure(o: Value, context: Context, rubricAllowed: bool)
    requires Descriptor(o, context, rubricAllowed).Some? && o.Object?
    ensures HasKey(o, "items") ==> Descriptor(o, context, rubricAllowed).value.KArray?
    ensures HasKey(o, "properties") ==> Descriptor(o, context, rubricAllowed).value.KObject?
  {
    DescriptorKeys(o, context, rubricAllowed);
    AllowedKeysRuleOut(o, Descriptor(o, context, rubricAllowed).value, rubricAllowed && context.TopLevel?);
  }

  lemma DescriptorKeys(o: Value, context: Context, rubricAllowed: bool)
    requires Descriptor(o, context, rubricAllowed).Some? && o.Object?
    ensures KeysAllowed(o, Descriptor(o, context, rubricAllowed).value, rubricAllowed && context.TopLevel?)
  {
  }

  lemma RubricBounds(o: Value)
    requires Descriptor(o, TopLevel, true).Some? && HasKey(o, "rubric")
    ensures Descriptor(o, TopLevel, true).value.KNumber?
    ensures HasKey(o, "minimum") && HasKey(o, "maximum")
    ensures !HasKey(o, "exclusiveMinimum") && !HasKey(o, "exclusiveMaximum") && !HasKey(o, "enum")
  {
    AllowedKeysRuleOut(o, Descriptor(o, TopLevel, true).value, true);
  }

  lemma RubricOutputs(o: Value, n: Value, v: Value, t: FieldType)
    requires SameType(o, n, t) && t.kind.KNumber? && Get(n, "rubric") == Get(o, "rubric") != None
    requires forall key :: IsBoundKey(key) ==> Get(n, key) == Get(o, key)
    ensures StrictOutput(v, o) == StrictOutput(v, n)
  {
    StrictScalar(o, t, v);
    StrictScalar(n, t, v);
    if v.Num? {
      RubricBoundsKept(o, n, v.n);
    }
  }

  lemma RubricBoundsKept(o: Value, n: Value, x: Number)
    requires o.Object? && n.Object? && HasKey(o, "rubric") && HasKey(n, "rubric")
    requires forall key :: IsBoundKey(key) ==> Get(n, key) == Get(o, key)
    ensures StrictBounds(o, KNumber, x) == StrictBounds(n, KNumber, x)
  {
    forall key | IsBoundKey(key)
      ensures StrictBound(o, key, KNumber, x) == StrictBound(n, key, KNumber, x)
    {
      RubricBoundKept(o, n, key, x);
    }
    BoundKeys();
  }

  lemma RubricBoundKept(o: Value, n: Value, key: string, x: Number)
    requires o.Object? && n.Object? && HasKey(o, "rubric") && HasKey(n, "rubric") && Get(n, key) == Get(o, key)
    ensures StrictBound(o, key, KNumber, x) == StrictBound(n, key, KNumber, x)
  {
  }

  lemma RestoredAt(ms: seq<Member>, lower: Value, upper: Value, key: string)
    ensures Find(Restored(ms, lower, upper), key)
         == if key == "maximum" then Some(upper) else if key == "minimum" then Some(lower) else Find(ms, key)
  {
    PutFind(ms, "minimum", lower, key);
    PutFind(Put(ms, "minimum", lower), "maximum", upper, key);
  }

  lemma RubricParsedAs(impl: Impl, o: Value)
    requires Descriptor(o, TopLevel, true).Some? && HasKey(o, "rubric")
    ensures HasKey(o, "minimum") && HasKey(o, "maximum")
    ensures !HasKey(o, "exclusiveMinimum") && !HasKey(o, "exclusiveMaximum")
    ensures Normalize(impl, o, TopLevel).Some? && Normalize(impl, o, TopLevel).value.kind.KNumber?
    ensures ParseTopLevel(impl, o, true)
         == Some(Normalized(KNumber, Restored(Normalize(impl, o, TopLevel).value.members,
                                              Get(o, "minimum").value, Get(o, "maximum").value)))
  {
    DescriptorNormalizes(o, TopLevel, true);
    RubricBounds(o);
  }

  lemma RubricRestored(impl: Impl, o: Value, key: string)
    requires o.Object? && Normalize(impl, o, TopLevel).Some? && Normalize(impl, o, TopLevel).value.kind.KNumber?
    requires HasKey(o, "minimum") && HasKey(o, "maximum")
    requires !HasKey(o, "exclusiveMinimum") && !HasKey(o, "exclusiveMaximum")
    requires IsBoundKey(key) || key == "rubric" || key == "type" || key == "enum"
    ensures Find(Restored(Normalize(impl, o, TopLevel).value.members, Get(o, "minimum").value, Get(o, "maximum").value), key)
         == if key == "type" then Some(TypeValue(ParseFieldType(o, TopLevel).value)) else Get(o, key)
  {
    ScalarLookups(impl, o, TopLevel, key);
    RestoredAt(Normalize(impl, o, TopLevel).value.members, Get(o, "minimum").value, Get(o, "maximum").value, key);
  }

  /** What the descriptor accepts keeps its outputs when parsed, with and without a
      rubric; without one the interpreter's validator accepts the same outputs too. */
  lemma AcceptedPropertyOutputs(impl: Impl, o: Value, rubricAllowed: bool, v: Value)
    requires Descriptor(o, TopLevel, rubricAllowed).Some?
    ensures ParseTopLevel(impl, o, rubricAllowed).Some? && o.Object?
    ensures var n := Object(ParseTopLevel(impl, o, rubricAllowed).value.members);
            && StrictOutput(v, o) == StrictOutput(v, n)
            && (!HasKey(o, "rubric") ==> StrictOutput(v, n) == RuntimeOutput(v, n))
  {
    DescriptorNormalizes(o, TopLevel, rubricAllowed);
    DescriptorChecked(impl, o, TopLevel, rubricAllowed);
    if HasKey(o, "rubric") {
      RubricParsed(impl, o, v);
    } else {
      DescriptorRubricFree(o, TopLevel, rubricAllowed);
      NormalizedOutputs(impl, o, TopLevel, v);
    }
  }

  // What parsing keeps of a rubric property.
  lemma RubricKeeps(impl: Impl, o: Value)
    requires Descriptor(o, TopLevel, true).Some? && HasKey(o, "rubric")
    ensures ParseTopLevel(impl, o, true).Some? && ParseFieldType(o, TopLevel).Some?
    ensures var n := Object(ParseTopLevel(impl, o, true).value.members);
            && Get(n, "type") == Some(TypeValue(ParseFieldType(o, TopLevel).value))
            && Get(n, "rubric") == Get(o, "rubric") && Get(n, "enum") == Get(o, "enum")
            && forall key :: IsBoundKey(key) ==> Get(n, key) == Get(o, key)
  {
    RubricParsedAs(impl, o);
    Rebuilds(impl, o, TopLevel);
    RubricRestored(impl, o, "type");
    RubricRestored(impl, o, "rubric");
    RubricRestored(impl, o, "enum");
    forall key | IsBoundKey(key)
      ensures Find(ParseTopLevel(impl, o, true).value.members, key) == Get(o, key)
    {
      RubricRestored(impl, o, key);
    }
  }

  lemma RubricParsed(impl: Impl, o: Value, v: Value)
    requires Descriptor(o, TopLevel, true).Some? && HasKey(o, "rubric")
    ensures ParseTopLevel(impl, o, true).Some?
    ensures StrictOutput(v, o) == StrictOutput(v, Object(ParseTopLevel(impl, o, true).value.members))
  {
    RubricKeeps(impl, o);
    RubricBounds(o);
    DescriptorChecked(impl, o, TopLevel, true);
    var t := ParseFieldType(o, TopLevel).value;
    var n := Object(ParseTopLevel(impl, o, true).value.members);
    TypeReadBack(o, TopLevel);
    NormalTypeReadBack(n, t, TopLevel);
    RubricOutputs(o, n, v, t);
  }
}
