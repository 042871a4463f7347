/** The output schema of a whole definition: what was authored, what the parsers make
    of it, and the outputs both mean. */
module DefinitionOutputs {
  import opened Text
  import opened Json
  import opened Kinds
  import opened Sums
  import opened Schemas
  import opened Outputs
  import opened SchemaLaws
  import opened SchemaAgreement
  import opened Rubrics
  import opened Versions

  // ----- rubrics and revisions

  predicate AllowsRubric(root: seq<Member>) {
    var text := Find(root, VERSION_KEY);
    text.Some? && text.value.Str? && SupportsRubric(text.value.s)
  }

  predicate IsStrict(root: seq<Member>) {
    DefinitionRevision(Object(root)) == Supported(Strict)
  }

  /** A definition whose version supports rubrics is strict, so its outputs are never
      checked by the validator that compares rubric numbers as doubles. */
  lemma RubricDefinitionsAreStrict(root: seq<Member>)
    requires DefinitionRevision(Object(root)).Supported? && AllowsRubric(root)
    ensures IsStrict(root)
  {
    RevisionMeaning(root, Find(root, VERSION_KEY).value.s);
  }

  // ----- authored and parsed properties

  // `parse_schema_properties` on every property.
  ghost predicate Parsed(impl: Impl, rubricAllowed: bool, raw: seq<Member>, props: seq<Member>) {
    && |raw| == |props|
    && forall i :: 0 <= i < |props| ==>
         props[i].key == raw[i].key && PropertyParsed(impl, rubricAllowed, raw[i].value, props[i].value)
  }

  ghost predicate PropertyParsed(impl: Impl, rubricAllowed: bool, o: Value, n: Value) {
    var r := ParseTopLevel(impl, o, rubricAllowed);
    r.Some? && n == Object(r.value.members)
  }

  ghost predicate GateAccepted(raw: seq<Member>, rubricAllowed: bool) {
    forall i :: 0 <= i < |raw| ==> Descriptor(raw[i].value, TopLevel, rubricAllowed).Some?
  }

  // One turn of the loop of `parse_schema_properties`, and the loop.
  function PropertyParser(impl: Impl, rubricAllowed: bool): Member -> Option<Member> {
    (m: Member) =>
      var r := ParseTopLevel(impl, m.value, rubricAllowed);
      if r.None? then None else Some(Member(m.key, Object(r.value.members)))
  }

  function ParseAll(impl: Impl, rubricAllowed: bool, raw: seq<Member>): Option<seq<Member>> {
    Collect(raw, PropertyParser(impl, rubricAllowed))
  }

  lemma ParserMeaning(impl: Impl, rubricAllowed: bool, m: Member, p: Member)
    ensures PropertyParser(impl, rubricAllowed)(m) == Some(p)
       <==> p.key == m.key && PropertyParsed(impl, rubricAllowed, m.value, p.value)
  {
  }

  lemma ParseAllMeaning(impl: Impl, rubricAllowed: bool, raw: seq<Member>, props: seq<Member>)
    ensures ParseAll(impl, rubricAllowed, raw) == Some(props) <==> Parsed(impl, rubricAllowed, raw, props)
  {
    CollectMeaning(raw, PropertyParser(impl, rubricAllowed), props);
    if |raw| == |props| {
      forall i | 0 <= i < |raw|
        ensures PropertyParser(impl, rubricAllowed)(raw[i]) == Some(props[i])
           <==> props[i].key == raw[i].key && PropertyParsed(impl, rubricAllowed, raw[i].value, props[i].value)
      {
        ParserMeaning(impl, rubricAllowed, raw[i], props[i]);
      }
    }
  }

  lemma BothParse(m: Member, rubricAllowed: bool)
    requires Descriptor(m.value, TopLevel, rubricAllowed).Some?
    ensures PropertyParser(Interpreted, rubricAllowed)(m).Some?
    ensures PropertyParser(Generated, rubricAllowed)(m) == PropertyParser(Interpreted, rubricAllowed)(m)
  {
    DescriptorNormalizes(m.value, TopLevel, rubricAllowed);
  }

  lemma BothParseAll(rubricAllowed: bool, raw: seq<Member>)
    requires GateAccepted(raw, rubricAllowed)
    ensures ParseAll(Interpreted, rubricAllowed, raw).Some?
    ensures ParseAll(Generated, rubricAllowed, raw) == ParseAll(Interpreted, rubricAllowed, raw)
  {
    var (f, g) := (PropertyParser(Interpreted, rubricAllowed), PropertyParser(Generated, rubricAllowed));
    forall m | m in raw ensures f(m).Some? && g(m) == f(m) {
      BothParse(m, rubricAllowed);
    }
    CollectSame(raw, f, g);
  }

  /** Every list of properties the gate accepts is parsed by both parsers, and to one and
      the same list. */
  lemma GateParsesAlike(rubricAllowed: bool, raw: seq<Member>) returns (props: seq<Member>)
    requires GateAccepted(raw, rubricAllowed)
    ensures forall impl, other :: Parsed(impl, rubricAllowed, raw, other) <==> other == props
  {
    BothParseAll(rubricAllowed, raw);
    props := ParseAll(Interpreted, rubricAllowed, raw).value;
    forall impl, other ensures Parsed(impl, rubricAllowed, raw, other) <==> other == props {
      ParseAllMeaning(impl, rubricAllowed, raw, other);
      assert impl == Interpreted || impl == Generated;
    }
  }

  lemma SameNames(raw: seq<Member>, props: seq<Member>, key: string)
    requires |raw| == |props| && forall i :: 0 <= i < |props| ==> props[i].key == raw[i].key
    ensures Has(props, key) <==> Has(raw, key)
  {
  }

  // Property lists with the same names that strictly accept the same values.
  ghost predicate SameStrict(raw: seq<Member>, props: seq<Member>, v: Value)
    requires v.Object?
  {
    && |raw| == |props|
    && (forall key :: Has(props, key) <==> Has(raw, key))
    && forall i :: 0 <= i < |props| ==>
         && props[i].key == raw[i].key
         && (HasKey(v, props[i].key) ==>
               var x := Get(v, props[i].key).value; StrictOutput(x, raw[i].value) == StrictOutput(x, props[i].value))
  }

  lemma SameStrictMembers(raw: seq<Member>, props: seq<Member>, v: Value)
    requires v.Object? && SameStrict(raw, props, v)
    ensures StrictMembers(v, raw) == StrictMembers(v, props)
  {
  }

  lemma WrapperOutputs(v: Value, props: seq<Member>)
    ensures StrictOutput(v, WrapperSchema(props)) <==> v.Object? && StrictMembers(v, props)
  {
    var w := WrapperSchema(props);
    var t := FieldType(KObject, false);
    assert w.members[0] == Member("type", Str("object")) && w.members[1] == Member("properties", Object(props));
    assert w.members[1..][0] == w.members[1];
    assert Get(w, "type") == Some(TypeValue(t)) && Get(w, "properties") == Some(Object(props));
    NormalTypeReadBack(w, t, TopLevel);
    assert !HasKey(w, "enum");
    StrictObject(w, t, v, props);
  }

  /** For every definition the gate accepts, rubrics included, parsing its properties
      keeps exactly the outputs of what was authored. */
  lemma DefinitionOutputsKept(impl: Impl, rubricAllowed: bool, raw: seq<Member>, props: seq<Member>, v: Value)
    requires Parsed(impl, rubricAllowed, raw, props) && GateAccepted(raw, rubricAllowed)
    ensures StrictOutput(v, WrapperSchema(raw)) == StrictOutput(v, WrapperSchema(props))
  {
    WrapperOutputs(v, raw);
    WrapperOutputs(v, props);
    if v.Object? {
      forall key ensures Has(props, key) <==> Has(raw, key) {
        SameNames(raw, props, key);
      }
      forall i | 0 <= i < |props| && HasKey(v, props[i].key)
        ensures var x := Get(v, props[i].key).value;
                StrictOutput(x, raw[i].value) == StrictOutput(x, props[i].value)
      {
        assert PropertyParsed(impl, rubricAllowed, raw[i].value, props[i].value);
        AcceptedPropertyOutputs(impl, raw[i].value, rubricAllowed, Get(v, props[i].key).value);
      }
      SameStrictMembers(raw, props, v);
    }
  }

  // ----- where the interpreter's response validator agrees

  // A property without rubrics, or an accepted rubric whose bounds are exact.
  ghost predicate Comparable(o: Value, rubricAllowed: bool) {
    || RubricFree(o)
    || (&& rubricAllowed && Descriptor(o, TopLevel, true).Some? && HasKey(o, "rubric")
        && RubricExact(o))
  }

  ghost predicate RubricExact(o: Value)
    requires o.Object?
  {
    match (Get(o, "minimum"), Get(o, "maximum"))
    case (Some(Num(low)), Some(Num(high))) =>
      JsonNumber(low) && JsonNumber(high) && LowerExact(low) && UpperExact(high)
    case _ => false
  }

  // The numbers of an output are numbers as serde_json holds them.
  ghost predicate NumbersHeld(v: Value)
    requires v.Object?
  {
    forall i :: 0 <= i < |v.members| && v.members[i].value.Num? ==> JsonNumber(v.members[i].value.n)
  }

  lemma RubricFreeParsed(impl: Impl, o: Value, rubricAllowed: bool, n: Value, x: Value)
    requires PropertyParsed(impl, rubricAllowed, o, n) && RubricFree(o)
    ensures StrictOutput(x, o) == StrictOutput(x, n) == RuntimeOutput(x, n)
  {
    NormalizedOutputs(impl, o, TopLevel, x);
  }

  lemma RubricOrdered(o: Value)
    requires Descriptor(o, TopLevel, true).Some? && HasKey(o, "rubric")
    ensures HasKey(o, "minimum") && Get(o, "minimum").value.Num? && HasKey(o, "maximum") && Get(o, "maximum").value.Num?
    ensures Get(o, "minimum").value.n.AsF64() < Get(o, "maximum").value.n.AsF64()
  {
    RubricTyped(o);
  }

  lemma OtherValuesAgree(n: Value, x: Value)
    requires IsRubric(n) && !x.Num?
    ensures StrictOutput(x, n) == RuntimeOutput(x, n) == false
  {
    StrictScalar(n, FieldType(KNumber, false), x);
    RuntimeScalar(n, FieldType(KNumber, false), x);
  }

  lemma RubricParsedAgrees(impl: Impl, o: Value, n: Value, x: Value)
    requires Descriptor(o, TopLevel, true).Some? && HasKey(o, "rubric") && RubricExact(o)
    requires PropertyParsed(impl, true, o, n) && (x.Num? ==> JsonNumber(x.n))
    ensures StrictOutput(x, n) == RuntimeOutput(x, n)
  {
    ParsedIsRubric(impl, o);
    RubricOrdered(o);
    if x.Num? {
      RubricAgreeOn(n, Get(o, "minimum").value.n, Get(o, "maximum").value.n, x.n);
    } else {
      OtherValuesAgree(n, x);
    }
  }

  lemma ComparableAgrees(impl: Impl, rubricAllowed: bool, o: Value, n: Value, x: Value)
    requires PropertyParsed(impl, rubricAllowed, o, n) && Comparable(o, rubricAllowed)
    requires x.Num? ==> JsonNumber(x.n)
    ensures StrictOutput(x, n) == RuntimeOutput(x, n)
  {
    if RubricFree(o) {
      RubricFreeParsed(impl, o, rubricAllowed, n, x);
    } else {
      RubricParsedAgrees(impl, o, n, x);
    }
  }

  lemma ParsedMembers(impl: Impl, rubricAllowed: bool, raw: seq<Member>, props: seq<Member>, v: Value)
    requires Parsed(impl, rubricAllowed, raw, props) && v.Object? && NumbersHeld(v)
    requires forall i :: 0 <= i < |raw| ==> Comparable(raw[i].value, rubricAllowed)
    ensures StrictMembers(v, props) == RuntimeMembers(v, props)
  {
    forall i | 0 <= i < |props| && HasKey(v, props[i].key)
      ensures StrictOutput(Get(v, props[i].key).value, props[i].value)
           == RuntimeOutput(Get(v, props[i].key).value, props[i].value)
    {
      var x := Get(v, props[i].key).value;
      assert exists j :: 0 <= j < |v.members| && v.members[j] == Member(props[i].key, x);
      assert PropertyParsed(impl, rubricAllowed, raw[i].value, props[i].value);
      ComparableAgrees(impl, rubricAllowed, raw[i].value, props[i].value, x);
    }
  }

  /** The strict validator on the wrapper schema and the interpreter's response
      validator accept the same model outputs, also when nothing is declared, for every
      definition whose rubrics, if it has any, have exact bounds. */
  lemma DefinitionOutputsAgree(impl: Impl, rubricAllowed: bool, raw: seq<Member>, props: seq<Member>, v: Value)
    requires Parsed(impl, rubricAllowed, raw, props) && (v.Object? ==> NumbersHeld(v))
    requires forall i :: 0 <= i < |raw| ==> Comparable(raw[i].value, rubricAllowed)
    ensures StrictOutput(v, WrapperSchema(props)) == RuntimeResponse(v, props)
  {
    WrapperOutputs(v, props);
    if v.Object? {
      ParsedMembers(impl, rubricAllowed, raw, props, v);
      if props == [] && v.members != [] {
        assert !Has(props, v.members[0].key);
      }
    }
  }

  // Without rubrics parsing keeps the outputs for both validators, gate or no gate.
  lemma LegacyOutputsAgree(impl: Impl, raw: seq<Member>, props: seq<Member>, v: Value)
    requires Parsed(impl, false, raw, props)
    ensures (forall i :: 0 <= i < |raw| ==> RubricFree(raw[i].value)) ==>
              StrictOutput(v, WrapperSchema(raw)) == StrictOutput(v, WrapperSchema(props)) == RuntimeResponse(v, props)
  {
    WrapperOutputs(v, raw);
    WrapperOutputs(v, props);
    if v.Object? && forall i :: 0 <= i < |raw| ==> RubricFree(raw[i].value) {
      forall key ensures Has(props, key) <==> Has(raw, key) {
        SameNames(raw, props, key);
      }
      forall i | 0 <= i < |props| && HasKey(v, props[i].key)
        ensures var x := Get(v, props[i].key).value;
                StrictOutput(x, raw[i].value) == StrictOutput(x, props[i].value) == RuntimeOutput(x, props[i].value)
      {
        assert PropertyParsed(impl, false, raw[i].value, props[i].value);
        RubricFreeParsed(impl, raw[i].value, false, props[i].value, Get(v, props[i].key).value);
      }
      MembersAgree(raw, props, v);
      if props == [] && v.members != [] {
        assert !Has(props, v.members[0].key);
      }
    }
  }
}
