/** `validate_model_output`: the data budget first, then `output_value` on what
    is left of the same budget. */
module ModelOutput {
  import opened Json
  import opened Canonical
  import opened Kinds
  import opened Budgets
  import opened Sums
  import opened DataBudgets
  import opened Schemas
  import opened Outputs
  import opened SchemaLaws
  import opened Versions
  import opened DefinitionOutputs

  // ----- what an accepted output costs

  // Enum values compared up to and including the first match.
  function EnumCost(values: seq<Value>, v: Value): nat {
    if values == [] then 0 else if values[0] == v then 1 else 1 + EnumCost(values[1..], v)
  }

  function KeyCost(o: Value, key: string): nat
    requires o.Object?
  {
    if HasKey(o, key) then 1 else 0
  }

  function BoundsCost(o: Value): nat
    requires o.Object?
  {
    KeyCost(o, "minimum") + KeyCost(o, "maximum") + KeyCost(o, "exclusiveMinimum") + KeyCost(o, "exclusiveMaximum")
  }

  // One unit per value visited, enum value compared and bound compared.
  function OutputCost(v: Value, o: Value): nat
    decreases v, 1
  {
    if !o.Object? || SchemaType(o, true).None? then 1
    else
      var t := SchemaType(o, true).value;
      if v.Null? && t.nullable then 1 else 1 + ScalarCost(v, o, t.kind) + ChildrenCost(v, o, t.kind)
  }

  function ScalarCost(v: Value, o: Value, k: Kind): nat
    requires o.Object?
  {
    (if HasKey(o, "enum") && Get(o, "enum").value.Array? then EnumCost(Get(o, "enum").value.items, v) else 0)
    + if k.Numeric() then BoundsCost(o) else 0
  }

  function ChildrenCost(v: Value, o: Value, k: Kind): nat
    requires o.Object?
    decreases v, 0, 1
  {
    if k.KArray? && v.Array? && HasKey(o, "items") then ItemsCost(v, v.items, Get(o, "items").value)
    else if k.KObject? && v.Object? && HasKey(o, "properties") && Get(o, "properties").value.Object? then
      MembersCost(v, Get(o, "properties").value.members)
    else 0
  }

  function ItemsCost(v: Value, items: seq<Value>, o: Value): nat
    requires forall i :: 0 <= i < |items| ==> items[i] < v
    decreases v, 0, 0, |items|
  {
    if items == [] then 0 else OutputCost(items[0], o) + ItemsCost(v, items[1..], o)
  }

  function MembersCost(v: Value, props: seq<Member>): nat
    requires v.Object?
    decreases v, 0, 0, |props|
  {
    if props == [] then 0
    else
      (if HasKey(v, props[0].key) then OutputCost(Get(v, props[0].key).value, props[0].value) else 0)
      + MembersCost(v, props[1..])
  }

  // ----- `output_value`

  method CheckEnum(values: seq<Value>, v: Value, budget: Budget) returns (ok: bool)
    requires budget.work <= MAX_WORK
    modifies budget
    ensures ok <==> v in values && old(budget.work) + EnumCost(values, v) <= MAX_WORK
    ensures ok ==> budget.work == old(budget.work) + EnumCost(values, v)
  {
    for i := 0 to |values|
      invariant v !in values[..i] && budget.work <= MAX_WORK
      invariant budget.work + EnumCost(values[i..], v) == old(budget.work) + EnumCost(values, v)
    {
      assert values[i..][1..] == values[i + 1..];
      ok := budget.Charge(1);
      if !ok {
        return;
      }
      if v == values[i] {
        return true;
      }
    }
    return false;
  }

  method CheckBound(o: Value, key: string, k: Kind, n: Number, budget: Budget) returns (ok: bool)
    requires o.Object? && budget.work <= MAX_WORK
    modifies budget
    ensures ok <==> StrictBound(o, key, k, n) && old(budget.work) + KeyCost(o, key) <= MAX_WORK
    ensures ok ==> budget.work == old(budget.work) + KeyCost(o, key)
  {
    if !HasKey(o, key) {
      return true;
    }
    ok := budget.Charge(1);
    if ok {
      ok := StrictBound(o, key, k, n);
    }
  }

  method CheckBounds(o: Value, k: Kind, n: Number, budget: Budget) returns (ok: bool)
    requires o.Object? && budget.work <= MAX_WORK
    modifies budget
    ensures ok <==> StrictBounds(o, k, n) && old(budget.work) + BoundsCost(o) <= MAX_WORK
    ensures ok ==> budget.work == old(budget.work) + BoundsCost(o)
  {
    ok := CheckBound(o, "minimum", k, n, budget);
    if ok { ok := CheckBound(o, "maximum", k, n, budget); }
    if ok { ok := CheckBound(o, "exclusiveMinimum", k, n, budget); }
    if ok { ok := CheckBound(o, "exclusiveMaximum", k, n, budget); }
  }

  // Kind, enum and bounds of one value.
  method CheckScalar(v: Value, o: Value, k: Kind, budget: Budget) returns (ok: bool)
    requires o.Object? && budget.work <= MAX_WORK && k.Matches(v)
    modifies budget
    ensures ok <==> && EnumAllows(o, v) && (k.Numeric() ==> StrictBounds(o, k, v.n))
                    && old(budget.work) + ScalarCost(v, o, k) <= MAX_WORK
    ensures ok ==> budget.work == old(budget.work) + ScalarCost(v, o, k)
  {
    ok := true;
    if HasKey(o, "enum") && Get(o, "enum").value.Array? {
      ok := CheckEnum(Get(o, "enum").value.items, v, budget);
    }
    if ok && k.Numeric() {
      ok := CheckBounds(o, k, v.n, budget);
    }
  }

  method CheckItems(v: Value, o: Value, budget: Budget) returns (ok: bool)
    requires v.Array? && budget.work <= MAX_WORK
    modifies budget
    ensures ok <==> && (forall i :: 0 <= i < |v.items| ==> StrictOutput(v.items[i], o))
                    && old(budget.work) + ItemsCost(v, v.items, o) <= MAX_WORK
    ensures ok ==> budget.work == old(budget.work) + ItemsCost(v, v.items, o)
    decreases v, 0
  {
    for i := 0 to |v.items|
      invariant budget.work <= MAX_WORK
      invariant forall j :: 0 <= j < i ==> StrictOutput(v.items[j], o)
      invariant budget.work + ItemsCost(v, v.items[i..], o) == old(budget.work) + ItemsCost(v, v.items, o)
    {
      assert v.items[i..][1..] == v.items[i + 1..];
      ok := OutputValue(v.items[i], o, budget);
      if !ok {
        return;
      }
    }
    return true;
  }

  function PropertyCost(v: Value): Member -> nat
    requires v.Object?
  {
    (m: Member) => if HasKey(v, m.key) then OutputCost(Get(v, m.key).value, m.value) else 0
  }

  lemma {:induction false} MembersCostTotal(v: Value, props: seq<Member>)
    requires v.Object?
    ensures MembersCost(v, props) == Total(props, PropertyCost(v))
  {
    if props != [] {
      MembersCostTotal(v, props[1..]);
    }
  }

  predicate PropertyOk(v: Value, m: Member)
    requires v.Object?
  {
    HasKey(v, m.key) && StrictOutput(Get(v, m.key).value, m.value)
  }

  predicate PropertiesOk(v: Value, props: seq<Member>)
    requires v.Object?
  {
    props == [] || (PropertyOk(v, props[0]) && PropertiesOk(v, props[1..]))
  }

  method CheckProperties(v: Value, props: seq<Member>, budget: Budget) returns (ok: bool)
    requires v.Object? && budget.work <= MAX_WORK
    modifies budget
    ensures ok <==> PropertiesOk(v, props) && old(budget.work) + Total(props, PropertyCost(v)) <= MAX_WORK
    ensures ok ==> budget.work == old(budget.work) + Total(props, PropertyCost(v))
    decreases v, 0, 0
  {
    ghost var cost := PropertyCost(v);
    for i := 0 to |props|
      invariant budget.work <= MAX_WORK
      invariant PropertiesOk(v, props) <==> PropertiesOk(v, props[i..])
      invariant budget.work + Total(props[i..], cost) == old(budget.work) + Total(props, cost)
    {
      assert props[i..][1..] == props[i + 1..];
      if !HasKey(v, props[i].key) {
        assert !PropertyOk(v, props[i]);
        return false;
      }
      ok := OutputValue(Get(v, props[i].key).value, props[i].value, budget);
      if !ok {
        assert cost(props[i]) + Total(props[i + 1..], cost) == Total(props[i..], cost);
        return;
      }
    }
    return true;
  }

  predicate KeysKnown(v: Value, props: seq<Member>)
    requires v.Object?
  {
    forall i :: 0 <= i < |v.members| ==> Has(props, v.members[i].key)
  }

  lemma {:induction false} PropertiesMeaning(v: Value, props: seq<Member>)
    requires v.Object?
    ensures PropertiesOk(v, props) <==> forall m :: m in props ==> PropertyOk(v, m)
  {
    if props != [] {
      PropertiesMeaning(v, props[1..]);
    }
  }

  // Walking the properties in key order checks and costs the same.
  lemma MembersMeaning(v: Value, props: seq<Member>)
    requires v.Object?
    ensures StrictMembers(v, props) <==> KeysKnown(v, props) && PropertiesOk(v, SortMembers(props))
    ensures Total(SortMembers(props), PropertyCost(v)) == MembersCost(v, props)
  {
    SortTotal(props, PropertyCost(v));
    MembersCostTotal(v, props);
    PropertiesMeaning(v, SortMembers(props));
    assert forall i :: 0 <= i < |props| ==> props[i] in SortMembers(props);
  }

  method CheckKeys(v: Value, props: seq<Member>) returns (ok: bool)
    requires v.Object?
    ensures ok <==> KeysKnown(v, props)
  {
    for i := 0 to |v.members|
      invariant forall j :: 0 <= j < i ==> Has(props, v.members[j].key)
    {
      if !Has(props, v.members[i].key) {
        return false;
      }
    }
    return true;
  }

  method CheckMembers(v: Value, props: seq<Member>, budget: Budget) returns (ok: bool)
    requires v.Object? && budget.work <= MAX_WORK
    modifies budget
    ensures ok <==> StrictMembers(v, props) && old(budget.work) + MembersCost(v, props) <= MAX_WORK
    ensures ok ==> budget.work == old(budget.work) + MembersCost(v, props)
    decreases v, 0, 1
  {
    MembersMeaning(v, props);
    ok := CheckKeys(v, props);
    if ok {
      ok := CheckProperties(v, SortMembers(props), budget);
    }
  }

  method OutputValue(v: Value, o: Value, budget: Budget) returns (ok: bool)
    modifies budget
    ensures ok <==> StrictOutput(v, o) && old(budget.work) + OutputCost(v, o) <= MAX_WORK
    ensures ok ==> budget.work == old(budget.work) + OutputCost(v, o)
    decreases v, 2
  {
    ok := budget.Charge(1);
    if !ok {
      return;
    }
    if !o.Object? || SchemaType(o, true).None? {
      return false;
    }
    var t := SchemaType(o, true).value;
    if v.Null? && t.nullable {
      return true;
    }
    if !t.kind.Matches(v) {
      return false;
    }
    ok := CheckScalar(v, o, t.kind, budget);
    if !ok {
      return;
    }
    if t.kind.KArray? {
      if !HasKey(o, "items") {
        return false;
      }
      ok := CheckItems(v, Get(o, "items").value, budget);
    } else if t.kind.KObject? {
      if !HasKey(o, "properties") || !Get(o, "properties").value.Object? {
        return false;
      }
      ok := CheckMembers(v, Get(o, "properties").value.members, budget);
    }
  }

  // ----- the whole check of a provider's output

  method ValidateModelOutput(v: Value, schema: Value) returns (ok: bool)
    ensures ok <==> WithinLimits(v) && StrictOutput(v, schema) && Nodes(v) + OutputCost(v, schema) <= MAX_WORK
  {
    var error, budget := DataBudget(v, []);
    if error.Some? {
      return false;
    }
    ok := OutputValue(v, schema, budget);
  }

  /** `validate_provider_output`: a strict definition accepts exactly the outputs of its
      authored schema, rubrics included, that are also within the limits and the budget;
      a legacy one what the response validator accepts, which without rubrics is the
      same. Definitions whose version supports rubrics are never legacy. */
  method ValidateProviderOutput(root: seq<Member>, impl: Impl, ghost raw: seq<Member>, props: seq<Member>, v: Value)
    returns (ok: bool)
    requires DefinitionRevision(Object(root)).Supported? && Parsed(impl, AllowsRubric(root), raw, props)
    requires IsStrict(root) ==> GateAccepted(raw, AllowsRubric(root))
    ensures IsStrict(root) ==>
              (ok <==> && StrictOutput(v, WrapperSchema(raw)) && WithinLimits(v)
                       && Nodes(v) + OutputCost(v, WrapperSchema(props)) <= MAX_WORK)
    ensures !IsStrict(root) ==> (ok <==> RuntimeResponse(v, props))
    ensures !IsStrict(root) && (forall i :: 0 <= i < |raw| ==> RubricFree(raw[i].value)) ==>
              (ok <==> StrictOutput(v, WrapperSchema(raw)))
    ensures AllowsRubric(root) ==> IsStrict(root)
  {
    if AllowsRubric(root) {
      RubricDefinitionsAreStrict(root);
    }
    if DefinitionRevision(Object(root)) == Supported(Strict) {
      DefinitionOutputsKept(impl, AllowsRubric(root), raw, props, v);
      ok := ValidateModelOutput(v, WrapperSchema(props));
    } else {
      LegacyOutputsAgree(impl, raw, props, v);
      ok := RuntimeResponse(v, props);
    }
  }
}
