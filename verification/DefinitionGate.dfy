/** The definition gate with its one work budget: the data budget, then the descriptors of
    all properties, then all actions. */
module DefinitionGate {
  import opened Text
  import opened Json
  import opened Canonical
  import opened Sums
  import opened Kinds
  import opened Budgets
  import opened DataBudgets
  import opened LogicCheckers
  import opened CaptureScopes
  import opened Schemas
  import opened SchemaAgreement
  import opened ModelOutput

  // ----- what an accepted descriptor costs

  function ListSize(o: Value, key: string): nat
    requires o.Object?
  {
    if HasKey(o, key) && Get(o, key).value.Array? then |Get(o, key).value.items| else 0
  }

  // One unit for the schema, each enum value, each bound and each rubric level.
  function LevelCost(o: Value): nat
    requires o.Object?
  {
    1 + ListSize(o, "enum") + BoundsCost(o) + ListSize(o, "rubric")
  }

  function DescriptorCost(o: Value): nat
    decreases o, 1
  {
    if !o.Object? then 1 else LevelCost(o) + ChildrenCost(o)
  }

  function ChildrenCost(o: Value): nat
    requires o.Object?
    decreases o, 0
  {
    (if HasKey(o, "items") then DescriptorCost(Get(o, "items").value) else 0)
    + if HasKey(o, "properties") && Get(o, "properties").value.Object?
      then ListCost(Get(o, "properties").value, Get(o, "properties").value.members) else 0
  }

  function ListCost(o: Value, props: seq<Member>): nat
    requires forall i :: 0 <= i < |props| ==> props[i].value < o
    decreases o, 0, |props|
  {
    if props == [] then 0 else DescriptorCost(props[0].value) + ListCost(o, props[1..])
  }

  // The same over members in any order.
  function CostOf(m: Member): nat {
    DescriptorCost(m.value)
  }

  lemma {:induction false} ListCostTotal(o: Value, props: seq<Member>)
    requires forall i :: 0 <= i < |props| ==> props[i].value < o
    ensures ListCost(o, props) == Total(props, CostOf)
  {
    if props != [] {
      ListCostTotal(o, props[1..]);
    }
  }

  // ----- one level

  // `enum` values and rubric levels: each is charged, then must be a nonblank string.
  method CheckTexts(values: seq<Value>, distinct: bool, budget: Budget) returns (ok: bool)
    requires budget.work <= MAX_WORK
    modifies budget
    ensures ok <==> && (forall i :: 0 <= i < |values| ==> NonBlank(values[i]).Some?)
                    && (distinct ==> DistinctStrings(values))
                    && old(budget.work) + |values| <= MAX_WORK
    ensures ok ==> budget.work == old(budget.work) + |values|
  {
    var seen: set<Value> := {};
    for i := 0 to |values|
      invariant budget.work == old(budget.work) + i <= MAX_WORK
      invariant forall j :: 0 <= j < i ==> NonBlank(values[j]).Some?
      invariant forall v :: v in seen <==> v in values[..i]
      invariant distinct ==> forall j, k :: 0 <= j < k < i ==> values[j] != values[k]
    {
      var charged := budget.Charge(1);
      if !charged || NonBlank(values[i]).None? {
        return false;
      }
      if distinct && values[i] in seen {
        var j :| 0 <= j < i && values[..i][j] == values[i];
        return false;
      }
      seen := seen + {values[i]};
    }
    return true;
  }

  method CheckEnumKeyword(o: Value, budget: Budget) returns (ok: bool)
    requires o.Object? && budget.work <= MAX_WORK
    modifies budget
    ensures ok <==> && (HasKey(o, "enum") ==> StrictEnum(Get(o, "enum").value))
                    && old(budget.work) + ListSize(o, "enum") <= MAX_WORK
    ensures ok ==> budget.work == old(budget.work) + ListSize(o, "enum")
  {
    if !HasKey(o, "enum") {
      return true;
    }
    var v := Get(o, "enum").value;
    if !v.Array? || v.items == [] || |v.items| > MAX_PARTS {
      return false;
    }
    ok := CheckTexts(v.items, true, budget);
  }

  method CheckRubricKeyword(o: Value, k: Kind, budget: Budget) returns (ok: bool)
    requires o.Object? && (k.Numeric() ==> BoundsOk(o, k)) && budget.work <= MAX_WORK
    modifies budget
    ensures ok <==> RubricOk(o, k) && old(budget.work) + ListSize(o, "rubric") <= MAX_WORK
    ensures ok ==> budget.work == old(budget.work) + ListSize(o, "rubric")
  {
    if !HasKey(o, "rubric") {
      return true;
    }
    var levels := Get(o, "rubric").value;
    if !levels.Array? || !(2 <= |levels.items| <= 10) {
      return false;
    }
    ok := CheckTexts(levels.items, false, budget);
    if ok {
      ok := RubricOk(o, k);
    }
  }

  // A present bound is charged and must match the kind.
  method CheckBoundKeyword(o: Value, key: string, k: Kind, budget: Budget) returns (ok: bool)
    requires o.Object? && k.Numeric() && budget.work <= MAX_WORK
    modifies budget
    ensures ok <==> BoundOk(o, key, k) && old(budget.work) + KeyCost(o, key) <= MAX_WORK
    ensures ok ==> budget.work == old(budget.work) + KeyCost(o, key)
  {
    if !HasKey(o, key) {
      return true;
    }
    ok := budget.Charge(1);
    if ok {
      ok := k.Matches(Get(o, key).value);
    }
  }

  // `numeric_schema`
  method CheckNumeric(o: Value, k: Kind, budget: Budget) returns (ok: bool)
    requires o.Object? && k.Numeric() && budget.work <= MAX_WORK
    modifies budget
    ensures ok <==> BoundsOk(o, k) && BoundsLeaveRoom(o, k) && old(budget.work) + BoundsCost(o) <= MAX_WORK
    ensures ok ==> budget.work == old(budget.work) + BoundsCost(o)
  {
    ok := CheckBoundKeyword(o, "minimum", k, budget);
    if ok { ok := CheckBoundKeyword(o, "maximum", k, budget); }
    if ok { ok := CheckBoundKeyword(o, "exclusiveMinimum", k, budget); }
    if ok { ok := CheckBoundKeyword(o, "exclusiveMaximum", k, budget); }
    if ok {
      ok := BoundsOk(o, k) && BoundsLeaveRoom(o, k);
    }
  }

  // Keywords of other kinds are absent, so they cost nothing.
  lemma OtherKeywordsAbsent(o: Value, k: Kind, rubric: bool)
    requires o.Object? && KeysAllowed(o, k, rubric)
    ensures !k.Numeric() ==> BoundsCost(o) == 0
    ensures !k.KArray? ==> !HasKey(o, "items")
    ensures !k.KObject? ==> !HasKey(o, "properties")
  {
    AllowedKeysRuleOut(o, k, rubric);
    assert IsBoundKey("minimum") && IsBoundKey("maximum");
    assert IsBoundKey("exclusiveMinimum") && IsBoundKey("exclusiveMaximum");
  }

  method CheckLevel(o: Value, context: Context, rubricAllowed: bool, k: Kind, budget: Budget) returns (ok: bool)
    requires o.Object? && budget.work <= MAX_WORK
    modifies budget
    ensures ok <==> LevelOk(o, context, rubricAllowed, k) && old(budget.work) + LevelCost(o) - 1 <= MAX_WORK
    ensures ok ==> budget.work == old(budget.work) + LevelCost(o) - 1
  {
    if !KeysAllowed(o, k, rubricAllowed && context.TopLevel?) || !DescriptionOk(o) {
      return false;
    }
    if (context.ObjectProperty? && k.Structured()) || (context.ArrayItem? && k.KArray?) {
      return false;
    }
    OtherKeywordsAbsent(o, k, rubricAllowed && context.TopLevel?);
    ok := CheckEnumKeyword(o, budget);
    if ok && k.Numeric() {
      ok := CheckNumeric(o, k, budget);
    }
    if ok {
      ok := CheckRubricKeyword(o, k, budget);
    }
  }

  // ----- the descriptor

  // The schemas below one level.
  ghost predicate ChildrenOk(o: Value, k: Kind, rubricAllowed: bool)
    requires o.Object?
  {
    && (k.KArray? ==> HasKey(o, "items") && Descriptor(Get(o, "items").value, ArrayItem, rubricAllowed).Some?)
    && (k.KObject? ==>
          && HasKey(o, "properties") && Get(o, "properties").value.Object?
          && 0 < |Get(o, "properties").value.members| <= MAX_DECLARATIONS
          && ListAccepted(Get(o, "properties").value.members, rubricAllowed))
  }

  predicate ListAccepted(props: seq<Member>, rubricAllowed: bool) {
    props == []
    || (Descriptor(props[0].value, ObjectProperty, rubricAllowed).Some? && ListAccepted(props[1..], rubricAllowed))
  }

  lemma {:induction false} ListAcceptedMeaning(props: seq<Member>, rubricAllowed: bool)
    ensures ListAccepted(props, rubricAllowed)
       <==> forall m :: m in props ==> Descriptor(m.value, ObjectProperty, rubricAllowed).Some?
  {
    if props != [] {
      ListAcceptedMeaning(props[1..], rubricAllowed);
    }
  }

  // Walking the properties in key order checks and costs the same.
  lemma SortedList(o: Value, props: seq<Member>, rubricAllowed: bool)
    requires forall i :: 0 <= i < |props| ==> props[i].value < o
    ensures ListAccepted(SortMembers(props), rubricAllowed) <==> ListAccepted(props, rubricAllowed)
    ensures Total(SortMembers(props), CostOf) == ListCost(o, props)
    ensures forall m :: m in SortMembers(props) ==> m.value < o
  {
    SortTotal(props, CostOf);
    ListCostTotal(o, props);
    ListAcceptedMeaning(props, rubricAllowed);
    ListAcceptedMeaning(SortMembers(props), rubricAllowed);
  }

  lemma DescriptorSplit(o: Value, context: Context, rubricAllowed: bool)
    requires o.Object?
    ensures var t := SchemaType(o, context.ObjectProperty?);
            Descriptor(o, context, rubricAllowed)
            == if t.Some? && LevelOk(o, context, rubricAllowed, t.value.kind)
                  && ChildrenOk(o, t.value.kind, rubricAllowed)
               then Some(t.value.kind) else None
  {
    if HasKey(o, "properties") && Get(o, "properties").value.Object? {
      var props := Get(o, "properties").value.members;
      ListAcceptedMeaning(props, rubricAllowed);
      assert forall i :: 0 <= i < |props| ==> props[i] in props;
    }
  }

  method CheckDescriptor(o: Value, context: Context, rubricAllowed: bool, budget: Budget) returns (r: Option<Kind>)
    modifies budget
    ensures r == if old(budget.work) + DescriptorCost(o) <= MAX_WORK
                 then Descriptor(o, context, rubricAllowed) else None
    ensures r.Some? ==> budget.work == old(budget.work) + DescriptorCost(o)
    decreases o, 2
  {
    var ok := budget.Charge(1);
    if !ok || !o.Object? {
      return None;
    }
    DescriptorSplit(o, context, rubricAllowed);
    var t := SchemaType(o, context.ObjectProperty?);
    if t.None? {
      return None;
    }
    ok := CheckLevel(o, context, rubricAllowed, t.value.kind, budget);
    if !ok {
      return None;
    }
    ok := CheckChildren(o, context, rubricAllowed, t.value.kind, budget);
    return if ok then Some(t.value.kind) else None;
  }

  method CheckChildren(o: Value, context: Context, rubricAllowed: bool, k: Kind, budget: Budget) returns (ok: bool)
    requires o.Object? && LevelOk(o, context, rubricAllowed, k) && budget.work <= MAX_WORK
    modifies budget
    ensures ok <==> ChildrenOk(o, k, rubricAllowed) && old(budget.work) + ChildrenCost(o) <= MAX_WORK
    ensures ok ==> budget.work == old(budget.work) + ChildrenCost(o)
    decreases o, 1
  {
    OtherKeywordsAbsent(o, k, rubricAllowed && context.TopLevel?);
    if k.KArray? {
      if !HasKey(o, "items") {
        return false;
      }
      var item := CheckDescriptor(Get(o, "items").value, ArrayItem, rubricAllowed, budget);
      return item.Some?;
    }
    if k.KObject? {
      if !HasKey(o, "properties") || !Get(o, "properties").value.Object? {
        return false;
      }
      var props := Get(o, "properties").value;
      if props.members == [] || |props.members| > MAX_DECLARATIONS {
        return false;
      }
      SortedList(props, props.members, rubricAllowed);
      ok := CheckList(props, SortMembers(props.members), rubricAllowed, budget);
      return;
    }
    return true;
  }

  method CheckList(o: Value, props: seq<Member>, rubricAllowed: bool, budget: Budget) returns (ok: bool)
    requires (forall m :: m in props ==> m.value < o) && budget.work <= MAX_WORK
    modifies budget
    ensures ok <==> ListAccepted(props, rubricAllowed) && old(budget.work) + Total(props, CostOf) <= MAX_WORK
    ensures ok ==> budget.work == old(budget.work) + Total(props, CostOf)
    decreases o, 0
  {
    assert props[0..] == props;
    for i := 0 to |props|
      invariant budget.work <= MAX_WORK
      invariant ListAccepted(props, rubricAllowed) <==> ListAccepted(props[i..], rubricAllowed)
      invariant budget.work + Total(props[i..], CostOf) == old(budget.work) + Total(props, CostOf)
    {
      assert props[i..][1..] == props[i + 1..] && props[i] in props;
      var k := CheckDescriptor(props[i].value, ObjectProperty, rubricAllowed, budget);
      if k.None? {
        assert Total(props[i..], CostOf) == CostOf(props[i]) + Total(props[i + 1..], CostOf);
        return false;
      }
    }
    return true;
  }

  // ----- the properties of the definition and the table they declare

  // Top-level properties, each under a name the gate allows.
  predicate PropertiesAccepted(props: seq<Member>, rubricAllowed: bool, nameOk: string -> bool) {
    props == []
    || (&& nameOk(props[0].key) && Descriptor(props[0].value, TopLevel, rubricAllowed).Some?
        && PropertiesAccepted(props[1..], rubricAllowed, nameOk))
  }

  // The table after declaring the properties in this order.
  function Declared(props: seq<Member>, rubricAllowed: bool): Fields {
    if props == [] then map[]
    else
      var last := props[|props| - 1];
      var before := Declared(props[..|props| - 1], rubricAllowed);
      var k := Descriptor(last.value, TopLevel, rubricAllowed);
      if k.Some? then before[last.key := k.value] else before
  }

  method CheckProperties(props: seq<Member>, rubricAllowed: bool, nameOk: string -> bool, budget: Budget)
    returns (ok: bool, fields: Fields)
    requires budget.work <= MAX_WORK
    modifies budget
    ensures ok <==> && PropertiesAccepted(props, rubricAllowed, nameOk)
                    && old(budget.work) + Total(props, CostOf) <= MAX_WORK
    ensures ok ==> budget.work == old(budget.work) + Total(props, CostOf) && fields == Declared(props, rubricAllowed)
  {
    fields := map[];
    assert props[0..] == props;
    for i := 0 to |props|
      invariant budget.work <= MAX_WORK && fields == Declared(props[..i], rubricAllowed)
      invariant PropertiesAccepted(props, rubricAllowed, nameOk)
           <==> PropertiesAccepted(props[i..], rubricAllowed, nameOk)
      invariant budget.work + Total(props[i..], CostOf) == old(budget.work) + Total(props, CostOf)
    {
      assert props[i..][1..] == props[i + 1..];
      assert props[..i + 1][..i] == props[..i];
      assert Total(props[i..], CostOf) == CostOf(props[i]) + Total(props[i + 1..], CostOf);
      if !nameOk(props[i].key) {
        return false, map[];
      }
      var k := CheckDescriptor(props[i].value, TopLevel, rubricAllowed, budget);
      if k.None? {
        return false, map[];
      }
      fields := fields[props[i].key := k.value];
    }
    assert props[..|props|] == props;
    ok := true;
  }

  // ----- the actions

  // An action: its members and the steps read from its `run`.
  datatype Action = Action(members: seq<Member>, steps: seq<CaptureScopes.Step>)

  // What is not an object has no members, and what is not a list has no steps.
  function ReadActions(items: seq<Value>, readStep: Value -> CaptureScopes.Step): (actions: seq<Action>)
    ensures |actions| == |items|
  {
    if items == [] then []
    else
      var run := Lookup(items[0], "run");
      [Action(if items[0].Object? then items[0].members else [],
              if run.Some? && run.value.Array? then ReadSteps(run.value.items, readStep) else [])]
      + ReadActions(items[1..], readStep)
  }

  function ReadSteps(items: seq<Value>, readStep: Value -> CaptureScopes.Step): (steps: seq<CaptureScopes.Step>)
    ensures |steps| == |items|
  {
    if items == [] then [] else [readStep(items[0])] + ReadSteps(items[1..], readStep)
  }

  lemma {:induction false} ReadStepsNamed(items: seq<Value>, readStep: Value -> CaptureScopes.Step)
    requires forall v :: Named(readStep(v))
    ensures AllNamed(ReadSteps(items, readStep))
  {
    if items != [] {
      ReadStepsNamed(items[1..], readStep);
    }
  }

  lemma {:induction false} ReadActionsNamed(items: seq<Value>, readStep: Value -> CaptureScopes.Step)
    requires forall v :: Named(readStep(v))
    ensures forall a :: a in ReadActions(items, readStep) ==> AllNamed(a.steps)
  {
    if items != [] {
      var run := Lookup(items[0], "run");
      if run.Some? && run.value.Array? {
        ReadStepsNamed(run.value.items, readStep);
      }
      ReadActionsNamed(items[1..], readStep);
    }
  }

  // Its keys, its name, and a nonempty bounded list of steps.
  predicate ShapeOk(a: Action) {
    && (forall i :: 0 <= i < |a.members| ==> a.members[i].key in {"name", "logic", "run"})
    && Find(a.members, "name").Some? && NonBlank(Find(a.members, "name").value).Some?
    && Find(a.members, "logic").Some?
    && Find(a.members, "run").Some? && Find(a.members, "run").value.Array?
    && 0 < |a.steps| <= MAX_DECLARATIONS
  }

  predicate ActionOk(a: Action, fields: Fields) {
    && ShapeOk(a) && Logic(Find(a.members, "logic").value, fields).Some? && WellScoped(a.steps, fields)
  }

  function ActionCost(a: Action): nat {
    (if Find(a.members, "logic").Some? then Cost(Find(a.members, "logic").value) else 0) + StepsCost(a.steps, |a.steps|)
  }

  function StepCount(a: Action): nat {
    |a.steps|
  }

  predicate ActionsOk(actions: seq<Action>, fields: Fields) {
    actions == [] || (ActionOk(actions[0], fields) && ActionsOk(actions[1..], fields))
  }

  /** An action is accepted if and only if it is written with exactly three keys: a name
      that is not blank, a typed condition, and a list of 1 to 256 steps that are in scope. */
  lemma ActionIff(a: Action, fields: Fields)
    ensures ActionOk(a, fields)
       <==> && Has(a.members, "name") && Has(a.members, "logic") && Has(a.members, "run")
            && (forall key :: Has(a.members, key) ==> key in {"name", "logic", "run"})
            && Find(a.members, "name").value.Str? && Trim(Find(a.members, "name").value.s) != ""
            && Logic(Find(a.members, "logic").value, fields).Some?
            && Find(a.members, "run").value.Array? && 1 <= |a.steps| <= 256 && WellScoped(a.steps, fields)
  {
    if forall key :: Has(a.members, key) ==> key in {"name", "logic", "run"} {
      forall i | 0 <= i < |a.members| ensures a.members[i].key in {"name", "logic", "run"} {
        assert Has(a.members, a.members[i].key);
      }
    }
  }

  method CheckOne(a: Action, fields: Fields, budget: Budget) returns (ok: bool)
    requires AllNamed(a.steps) && budget.work <= MAX_WORK
    modifies budget
    ensures ok <==> ActionOk(a, fields) && old(budget.work) + ActionCost(a) <= MAX_WORK
    ensures ok ==> budget.work == old(budget.work) + ActionCost(a)
  {
    if !ShapeOk(a) {
      return false;
    }
    ok := CheckAction(Find(a.members, "logic").value, a.steps, fields, budget);
  }

  method CheckActions(actions: seq<Action>, fields: Fields, budget: Budget) returns (ok: bool)
    requires (forall a :: a in actions ==> AllNamed(a.steps)) && budget.work <= MAX_WORK
    modifies budget
    ensures ok <==> && ActionsOk(actions, fields) && Total(actions, StepCount) <= MAX_COLLECTION
                    && old(budget.work) + Total(actions, ActionCost) <= MAX_WORK
    ensures ok ==> budget.work == old(budget.work) + Total(actions, ActionCost)
  {
    var totalSteps := 0;
    assert actions[0..] == actions;
    for i := 0 to |actions|
      invariant budget.work <= MAX_WORK && totalSteps <= MAX_COLLECTION
      invariant ActionsOk(actions, fields) <==> ActionsOk(actions[i..], fields)
      invariant totalSteps + Total(actions[i..], StepCount) == Total(actions, StepCount)
      invariant budget.work + Total(actions[i..], ActionCost) == old(budget.work) + Total(actions, ActionCost)
    {
      assert actions[i..][1..] == actions[i + 1..];
      assert Total(actions[i..], StepCount) == StepCount(actions[i]) + Total(actions[i + 1..], StepCount);
      assert Total(actions[i..], ActionCost) == ActionCost(actions[i]) + Total(actions[i + 1..], ActionCost);
      totalSteps := totalSteps + |actions[i].steps|;
      if totalSteps > MAX_COLLECTION {
        return false;
      }
      ok := CheckOne(actions[i], fields, budget);
      if !ok {
        return;
      }
    }
    return true;
  }

  // ----- the whole gate

  // The properties of the output schema, where the gate finds them.
  function SchemaProperties(root: Value): Option<seq<Member>> {
    var schema := Lookup(root, "agent_schema");
    var props := if schema.Some? then Lookup(schema.value, "properties") else None;
    if props.Some? && props.value.Object? then Some(props.value.members) else None
  }

  // The work of an accepted definition, in one total.
  function GateWork(root: Value, props: seq<Member>, actions: seq<Action>): nat {
    Nodes(root) + Total(props, CostOf) + Total(actions, ActionCost)
  }

  function ActionItems(root: Value): Option<seq<Value>> {
    var actions := Lookup(root, "actions");
    if actions.Some? && actions.value.Array? then Some(actions.value.items) else None
  }

  /** One budget pays for the whole gate: a definition passes these checks exactly when it
      is within the data limits, its properties and actions are accepted, and the total
      work, known in advance, is within the limit. `runtime` holds the declared runtime
      variables under their prefixed names. */
  method CheckDefinition(root: Value, rubricAllowed: bool, nameOk: string -> bool, runtime: Fields,
                         readStep: Value -> CaptureScopes.Step)
    returns (ok: bool)
    requires forall v :: Named(readStep(v))
    ensures ok <==> && WithinLimits(root) && SchemaProperties(root).Some? && ActionItems(root).Some?
                    && var props := SchemaProperties(root).value;
                       var actions := ReadActions(ActionItems(root).value, readStep);
                       && |props| <= MAX_DECLARATIONS && |actions| <= MAX_DECLARATIONS
                       && PropertiesAccepted(SortMembers(props), rubricAllowed, nameOk)
                       && ActionsOk(actions, Declared(SortMembers(props), rubricAllowed) + runtime)
                       && Total(actions, StepCount) <= MAX_COLLECTION
                       && GateWork(root, props, actions) <= MAX_WORK
  {
    var error, budget := DataBudget(root, []);
    if error.Some? || SchemaProperties(root).None? {
      return false;
    }
    var props := SchemaProperties(root).value;
    if |props| > MAX_DECLARATIONS {
      return false;
    }
    SortTotal(props, CostOf);
    var fields: Fields;
    ok, fields := CheckProperties(SortMembers(props), rubricAllowed, nameOk, budget);
    if !ok || ActionItems(root).None? || |ActionItems(root).value| > MAX_DECLARATIONS {
      return false;
    }
    ReadActionsNamed(ActionItems(root).value, readStep);
    ok := CheckActions(ReadActions(ActionItems(root).value, readStep), fields + runtime, budget);
  }

  // ----- what the two lists mean

  lemma {:induction false} PropertiesAcceptedMeaning(props: seq<Member>, rubricAllowed: bool, nameOk: string -> bool)
    ensures PropertiesAccepted(props, rubricAllowed, nameOk)
       <==> forall m :: m in props ==> nameOk(m.key) && Descriptor(m.value, TopLevel, rubricAllowed).Some?
  {
    if props != [] {
      PropertiesAcceptedMeaning(props[1..], rubricAllowed, nameOk);
    }
  }

  /** The table of an accepted definition holds exactly its property names, each with the
      kind of its descriptor, whatever the order they were written in. */
  lemma FieldTableMeaning(props: seq<Member>, rubricAllowed: bool, nameOk: string -> bool, key: string)
    requires Distinct(props) && PropertiesAccepted(SortMembers(props), rubricAllowed, nameOk)
    ensures var fields := Declared(SortMembers(props), rubricAllowed);
            && (key in fields <==> Has(props, key))
            && (key in fields ==> Some(fields[key]) == Descriptor(Find(props, key).value, TopLevel, rubricAllowed))
  {
    var sorted := SortMembers(props);
    SortProperties(props);
    SortedDistinct(sorted);
    PropertiesAcceptedMeaning(sorted, rubricAllowed, nameOk);
    DeclaredAt(sorted, rubricAllowed, key);
    assert Find(sorted, key) == Find(props, key);
  }

  lemma {:induction false} DeclaredAt(props: seq<Member>, rubricAllowed: bool, key: string)
    requires Distinct(props) && forall m :: m in props ==> Descriptor(m.value, TopLevel, rubricAllowed).Some?
    ensures var fields := Declared(props, rubricAllowed);
            && (key in fields <==> Has(props, key))
            && (key in fields ==> Some(fields[key]) == Descriptor(Find(props, key).value, TopLevel, rubricAllowed))
  {
    if props != [] {
      var n := |props| - 1;
      DeclaredAt(props[..n], rubricAllowed, key);
      FindLast(props, key);
      assert props[n] in props;
    }
  }

  lemma {:induction false} FindLast(props: seq<Member>, key: string)
    requires Distinct(props) && props != []
    ensures Find(props, key)
         == if props[|props| - 1].key == key then Some(props[|props| - 1].value) else Find(props[..|props| - 1], key)
  {
    if |props| > 1 {
      FindLast(props[1..], key);
      assert props[1..][..|props| - 2] == props[..|props| - 1][1..];
    }
  }
}
