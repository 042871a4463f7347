/** What the output check and the descriptor charge, counted by what is there and not by
    how it is looked up. */
module WorkMeaning {
  import opened Text
  import opened Json
  import opened Sums
  import opened Kinds
  import opened Schemas
  import opened Outputs
  import opened SchemaLaws
  import opened ModelOutput
  import DefinitionGate

  const BOUNDS: set<string> := {"minimum", "maximum", "exclusiveMinimum", "exclusiveMaximum"}

  // ----- outputs

  const BOUND_KEYS: seq<string> := ["minimum", "maximum", "exclusiveMinimum", "exclusiveMaximum"]

  function Present(o: Value): string -> nat
    requires o.Object?
  {
    (key: string) => if HasKey(o, key) then 1 else 0
  }

  lemma BoundsWork(o: Value)
    requires o.Object?
    ensures BoundsCost(o) == Total(BOUND_KEYS, Present(o))
  {
    var (a, b, c, d) := (BOUND_KEYS[0], BOUND_KEYS[1], BOUND_KEYS[2], BOUND_KEYS[3]);
    TotalOne(a, Present(o));
    TotalOne(b, Present(o));
    TotalOne(c, Present(o));
    TotalOne(d, Present(o));
    TotalAppend([a], [b], Present(o));
    TotalAppend([a] + [b], [c], Present(o));
    TotalAppend([a] + [b] + [c], [d], Present(o));
    assert BOUND_KEYS == [a] + [b] + [c] + [d];
  }

  lemma {:induction false} EnumWork(values: seq<Value>, v: Value)
    requires v in values
    ensures exists i :: 0 <= i < |values| && values[i] == v && v !in values[..i] && EnumCost(values, v) == i + 1
  {
    if values[0] == v {
      assert v !in values[..0];
    } else {
      EnumWork(values[1..], v);
      var i :| 0 <= i < |values[1..]| && values[1..][i] == v && v !in values[1..][..i] && EnumCost(values[1..], v) == i + 1;
      assert values[..i + 1] == [values[0]] + values[1..][..i];
      assert values[i + 1] == v && v !in values[..i + 1];
    }
  }

  function ItemWork(items: Value): Value -> nat {
    (x: Value) => OutputCost(x, items)
  }

  lemma {:induction false} ItemsWork(v: Value, xs: seq<Value>, items: Value)
    requires forall i :: 0 <= i < |xs| ==> xs[i] < v
    ensures ItemsCost(v, xs, items) == Total(xs, ItemWork(items))
  {
    if xs != [] {
      ItemsWork(v, xs[1..], items);
    }
  }

  // One unit, plus what the kind adds: the enum values up to the match, the bounds there
  // are, the entries, or the values of the declared keys.
  ghost predicate ChargedFor(v: Value, o: Value, k: Kind, work: nat)
    requires o.Object? && k.Matches(v)
  {
    match k
    case KString =>
      if HasKey(o, "enum") && Get(o, "enum").value.Array? then
        var values := Get(o, "enum").value.items;
        exists i :: 0 <= i < |values| && values[i] == v && v !in values[..i] && work == 1 + (i + 1)
      else work == 1
    case KBoolean => work == 1
    case KArray => HasKey(o, "items") && work == 1 + Total(v.items, ItemWork(Get(o, "items").value))
    case KObject =>
      && HasKey(o, "properties") && Get(o, "properties").value.Object?
      && work == 1 + Total(Get(o, "properties").value.members, PropertyCost(v))
    case _ => work == 1 + Total(BOUND_KEYS, Present(o))
  }

  lemma StringWork(v: Value, o: Value)
    requires o.Object? && v.Str? && EnumAllows(o, v)
    ensures ChargedFor(v, o, KString, 1 + ScalarCost(v, o, KString))
  {
    if HasKey(o, "enum") && Get(o, "enum").value.Array? {
      EnumWork(Get(o, "enum").value.items, v);
    }
  }

  /** A valid output is charged by its own form: a null the type allows one unit, anything
      else as its kind says. */
  lemma OutputWork(v: Value, o: Value, t: FieldType)
    requires o.Object? && SchemaType(o, true) == Some(t) && StrictOutput(v, o)
    requires HasKey(o, "enum") ==> t.kind == KString
    ensures v == Null && t.nullable ==> OutputCost(v, o) == 1
    ensures !(v == Null && t.nullable) ==> t.kind.Matches(v) && ChargedFor(v, o, t.kind, OutputCost(v, o))
  {
    if !(v == Null && t.nullable) {
      match t.kind
      case KString => StringWork(v, o);
      case KBoolean =>
      case KArray => ItemsWork(v, v.items, Get(o, "items").value);
      case KObject => MembersCostTotal(v, Get(o, "properties").value.members);
      case _ => BoundsWork(o);
    }
  }

  // ----- descriptors

  // What one keyword of a property adds.
  function MemberWork(m: Member): nat {
    if m.key in BOUNDS then 1
    else if m.key in {"enum", "rubric"} then if m.value.Array? then |m.value.items| else 0
    else if m.key == "items" then DefinitionGate.DescriptorCost(m.value)
    else if m.key == "properties" && m.value.Object? then Total(m.value.members, DefinitionGate.CostOf)
    else 0
  }

  // What the keyword under this key adds, if it is there.
  function Term(ms: seq<Member>, key: string): nat {
    if Has(ms, key) then MemberWork(Member(key, Find(ms, key).value)) else 0
  }

  lemma TermStep(ms: seq<Member>, key: string)
    requires ms != [] && Distinct(ms)
    ensures Term(ms, key) == (if ms[0].key == key then MemberWork(ms[0]) else 0) + Term(ms[1..], key)
  {
    if ms[0].key == key {
      assert !Has(ms[1..], key);
      assert Member(key, ms[0].value) == ms[0];
    }
  }

  function Terms(ms: seq<Member>): nat {
    Term(ms, "minimum") + Term(ms, "maximum") + Term(ms, "exclusiveMinimum") + Term(ms, "exclusiveMaximum")
    + Term(ms, "enum") + Term(ms, "rubric") + Term(ms, "items") + Term(ms, "properties")
  }

  lemma {:induction false} TermsTotal(ms: seq<Member>)
    requires Distinct(ms)
    ensures Terms(ms) == Total(ms, MemberWork)
  {
    if ms != [] {
      TermsTotal(ms[1..]);
      TermStep(ms, "minimum");
      TermStep(ms, "maximum");
      TermStep(ms, "exclusiveMinimum");
      TermStep(ms, "exclusiveMaximum");
      TermStep(ms, "enum");
      TermStep(ms, "rubric");
      TermStep(ms, "items");
      TermStep(ms, "properties");
      OneKey(ms[0].key);
    }
  }

  // The keys counted differ, and other keys add nothing.
  lemma OneKey(key: string)
    ensures (if key == "minimum" then 1 else 0) + (if key == "maximum" then 1 else 0)
            + (if key == "exclusiveMinimum" then 1 else 0) + (if key == "exclusiveMaximum" then 1 else 0)
            + (if key == "enum" then 1 else 0) + (if key == "rubric" then 1 else 0)
            + (if key == "items" then 1 else 0) + (if key == "properties" then 1 else 0)
            == if key in BOUNDS || key in {"enum", "rubric", "items", "properties"} then 1 else 0
  {
  }

  lemma BoundTerm(o: Value, key: string)
    requires o.Object? && key in BOUNDS
    ensures Term(o.members, key) == KeyCost(o, key)
  {
  }

  lemma ListTerm(o: Value, key: string)
    requires o.Object? && key in {"enum", "rubric"}
    ensures Term(o.members, key) == DefinitionGate.ListSize(o, key)
  {
  }

  lemma ChildTerms(o: Value)
    requires o.Object?
    ensures Term(o.members, "items") + Term(o.members, "properties") == DefinitionGate.ChildrenCost(o)
  {
    if HasKey(o, "properties") && Get(o, "properties").value.Object? {
      var props := Get(o, "properties").value;
      DefinitionGate.ListCostTotal(props, props.members);
    }
  }

  lemma LevelWork(o: Value)
    requires o.Object?
    ensures DefinitionGate.DescriptorCost(o) == 1 + Terms(o.members)
  {
    BoundTerm(o, "minimum");
    BoundTerm(o, "maximum");
    BoundTerm(o, "exclusiveMinimum");
    BoundTerm(o, "exclusiveMaximum");
    ListTerm(o, "enum");
    ListTerm(o, "rubric");
    ChildTerms(o);
  }

  /** A property costs one unit, one for each bound, enum value and rubric level, and what
      the schemas below it cost. */
  lemma DescriptorWork(o: Value)
    requires o.Object? && Distinct(o.members)
    ensures DefinitionGate.DescriptorCost(o) == 1 + Total(o.members, MemberWork)
  {
    LevelWork(o);
    TermsTotal(o.members);
  }
}
