/** Capture scoping inside one action: what a run step may read, and the names
    it adds for later steps, in the definition gate and in the build. */
module CaptureScopes {
  import opened Text
  import opened Json
  import opened Kinds
  import opened Budgets
  import opened Sums
  import opened LogicCheckers

  datatype Use = AnyKind | ScalarOnly | StringOnly | NumericOnly

  // A `var` reference of a step. Profiles, models and voices read declared
  // fields only; everything else reads the table available at the step. The build
  // copies those inside `request_choices` without looking.
  datatype Ref = Ref(name: Value, declaredOnly: bool, use: Use, choice: bool)

  // `captures` holds, for each of output_variable, status_variable and
  // error_variable that is present, what CaptureName makes of its value; `parts`
  // counts the string parts of the step, each a unit of work.
  datatype Step = Step(whenExpr: Option<Value>, refs: seq<Ref>, parts: nat, captures: seq<Option<string>>)

  predicate Allows(use: Use, k: Kind) {
    match use
    case AnyKind => true
    case ScalarOnly => !k.Structured()
    case StringOnly => k.KString?
    case NumericOnly => k.Numeric()
  }

  predicate Resolves(ref: Ref, fields: Fields) {
    var name := NonBlank(ref.name);
    name.Some? && Trim(name.value) in fields && Allows(ref.use, fields[Trim(name.value)])
  }

  predicate RefOk(ref: Ref, fields: Fields, available: Fields) {
    Resolves(ref, if ref.declaredOnly then fields else available)
  }

  predicate IsCaptureName(s: string) {
    s != "" && IsFlat(s) && s != "runtime" && Trim(s) == s
  }

  function CaptureName(v: Value): (r: Option<string>)
    ensures r.Some? <==> v.Str? && Trim(v.s) != "" && '.' !in Trim(v.s) && Trim(v.s) != "runtime"
    ensures r.Some? ==> r.value == Trim(v.s) && IsCaptureName(r.value)
  {
    var name := NonBlank(v);
    if name.None? then None
    else
      TrimIdempotent(name.value);
      if IsFlat(Trim(name.value)) && Trim(name.value) != "runtime" then Some(Trim(name.value)) else None
  }

  ghost predicate Named(step: Step) {
    forall i :: 0 <= i < |step.captures| && step.captures[i].Some? ==> IsCaptureName(step.captures[i].value)
  }

  ghost predicate AllNamed(steps: seq<Step>) {
    forall i :: 0 <= i < |steps| ==> Named(steps[i])
  }

  predicate StepReads(step: Step, fields: Fields, available: Fields) {
    WhenOk(step.whenExpr, available) && RefsOk(step.refs, fields, available)
  }

  predicate RefsOk(refs: seq<Ref>, fields: Fields, available: Fields) {
    forall i :: 0 <= i < |refs| ==> RefOk(refs[i], fields, available)
  }

  predicate WhenOk(e: Option<Value>, available: Fields) {
    e.Some? ==> Logic(e.value, available).Some?
  }

  function Strings(names: set<string>): Fields {
    map n | n in names :: KString
  }

  lemma StringsJoin(fields: Fields, a: set<string>, b: set<string>)
    ensures fields + Strings(a) + Strings(b) == fields + Strings(a + b)
  {
  }

  // ----- the definition gate

  class ActionScope {
    const fields: Fields
    var available: Fields
    var captures: set<string>

    ghost predicate Valid()
      reads this
    {
      && captures !! fields.Keys
      && available == fields + Strings(captures)
      && forall c :: c in captures ==> IsCaptureName(c)
    }

    constructor (fields: Fields)
      ensures Valid() && this.fields == fields && captures == {}
    {
      this.fields := fields;
      available := fields;
      captures := {};
    }

    method RunStep(step: Step, budget: Budget) returns (ok: bool)
      requires Valid() && Named(step)
      modifies this, budget
      ensures Valid()
      ensures ok <==> StepOk(step, fields, old(captures)) && old(budget.work) + StepCost(step) <= MAX_WORK
      ensures captures == if ok then old(captures) + NamesOf(step.captures) else old(captures)
      ensures ok ==> budget.work == old(budget.work) + StepCost(step)
    {
      ok := CheckReads(step, budget);
      if ok {
        var added: set<string>;
        ok, added := CollectNames(step.captures);
        if ok {
          StringsJoin(fields, captures, added);
          captures := captures + added;
          available := available + Strings(added);
        }
      }
    }

    method CheckReads(step: Step, budget: Budget) returns (ok: bool)
      modifies budget
      ensures ok <==> StepReads(step, fields, available) && old(budget.work) + StepCost(step) <= MAX_WORK
      ensures ok ==> budget.work == old(budget.work) + StepCost(step)
    {
      ok := budget.Charge(1);
      if ok {
        ok := CheckWhen(step.whenExpr, budget);
      }
      if ok {
        ok := budget.Charge(step.parts);
      }
      if ok {
        ok := CheckRefs(step.refs);
      }
    }

    method CheckWhen(e: Option<Value>, budget: Budget) returns (ok: bool)
      requires budget.work <= MAX_WORK
      modifies budget
      ensures ok <==> WhenOk(e, available) && old(budget.work) + WhenCost(e) <= MAX_WORK
      ensures ok ==> budget.work == old(budget.work) + WhenCost(e)
    {
      if e.None? {
        return true;
      }
      var k := CheckLogic(e.value, available, budget);
      return k.Some?;
    }

    method CheckRefs(refs: seq<Ref>) returns (ok: bool)
      ensures ok <==> RefsOk(refs, fields, available)
    {
      for i := 0 to |refs|
        invariant forall j :: 0 <= j < i ==> RefOk(refs[j], fields, available)
      {
        if !RefOk(refs[i], fields, available) {
          return false;
        }
      }
      return true;
    }

    method CollectNames(names: seq<Option<string>>) returns (ok: bool, added: set<string>)
      requires forall i :: 0 <= i < |names| && names[i].Some? ==> IsCaptureName(names[i].value)
      ensures ok <==> FreshNames(names, fields.Keys + captures)
      ensures ok ==> added == NamesOf(names) && added !! fields.Keys + captures
      ensures ok ==> forall c :: c in added ==> IsCaptureName(c)
    {
      added := {};
      ghost var taken := fields.Keys + captures;
      assert names[0..] == names && taken + added == taken;
      for i := 0 to |names|
        invariant added !! taken
        invariant forall c :: c in added ==> IsCaptureName(c)
        invariant NamesOf(names) == added + NamesOf(names[i..])
        invariant FreshNames(names, taken) <==> FreshNames(names[i..], taken + added)
      {
        assert names[i..][1..] == names[i + 1..];
        var name := names[i];
        if name.None? || name.value in fields || name.value in captures || name.value in added {
          return false, {};
        }
        assert taken + added + {name.value} == taken + (added + {name.value});
        added := added + {name.value};
      }
      ok := true;
    }
  }

  // The names a step adds.
  function NamesOf(names: seq<Option<string>>): set<string> {
    if names == [] then {}
    else if names[0].Some? then {names[0].value} + NamesOf(names[1..]) else NamesOf(names[1..])
  }

  // Every capture is a valid name, taken by nobody and listed once.
  predicate FreshNames(names: seq<Option<string>>, taken: set<string>) {
    names == [] ||
    (names[0].Some? && names[0].value !in taken && FreshNames(names[1..], taken + {names[0].value}))
  }

  // A step is accepted when `names` were captured before it.
  predicate StepOk(step: Step, fields: Fields, names: set<string>) {
    && StepReads(step, fields, fields + Strings(names))
    && FreshNames(step.captures, fields.Keys + names)
  }

  function WhenCost(e: Option<Value>): nat {
    if e.Some? then Cost(e.value) else 0
  }

  function StepCost(step: Step): nat {
    1 + WhenCost(step.whenExpr) + step.parts
  }

  function StepsCost(steps: seq<Step>, i: nat): nat
    requires i <= |steps|
  {
    if i == 0 then 0 else StepsCost(steps, i - 1) + StepCost(steps[i - 1])
  }

  lemma {:induction false} StepsCostGrows(steps: seq<Step>, i: nat, j: nat)
    requires i <= j <= |steps|
    ensures StepsCost(steps, i) <= StepsCost(steps, j)
  {
    if i < j {
      StepsCostGrows(steps, i, j - 1);
    }
  }

  method CheckAction(condition: Value, steps: seq<Step>, fields: Fields, budget: Budget) returns (ok: bool)
    requires AllNamed(steps)
    modifies budget
    ensures ok <==> && Logic(condition, fields).Some? && WellScoped(steps, fields)
                    && old(budget.work) + Cost(condition) + StepsCost(steps, |steps|) <= MAX_WORK
    ensures ok ==> budget.work == old(budget.work) + Cost(condition) + StepsCost(steps, |steps|)
  {
    var k := CheckLogic(condition, fields, budget);
    if k.None? {
      return false;
    }
    ok := CheckSteps(steps, fields, budget);
  }

  method CheckSteps(steps: seq<Step>, fields: Fields, budget: Budget) returns (ok: bool)
    requires AllNamed(steps) && budget.work <= MAX_WORK
    modifies budget
    ensures ok <==> WellScoped(steps, fields) && old(budget.work) + StepsCost(steps, |steps|) <= MAX_WORK
    ensures ok ==> budget.work == old(budget.work) + StepsCost(steps, |steps|)
  {
    var scope := new ActionScope(fields);
    ok := true;
    var i := 0;
    while i < |steps| && ok
      invariant 0 <= i <= |steps| && scope.Valid() && scope.fields == fields && fresh(scope)
      invariant ok <==> AcceptedUpTo(steps, i, fields, old(budget.work))
      invariant ok ==> scope.captures == NamesBefore(steps, i)
      invariant ok ==> budget.work == old(budget.work) + StepsCost(steps, i)
    {
      ok := scope.RunStep(steps[i], budget);
      i := i + 1;
    }
    AcceptedUpToAll(steps, i, fields, old(budget.work));
  }

  // The first i steps are in scope and fit the budget.
  predicate AcceptedUpTo(steps: seq<Step>, i: nat, fields: Fields, work: nat)
    requires i <= |steps|
  {
    if i == 0 then work <= MAX_WORK
    else AcceptedUpTo(steps, i - 1, fields, work) && StepInScope(steps, i - 1, fields)
         && work + StepsCost(steps, i) <= MAX_WORK
  }

  lemma {:induction false} AcceptedUpToMeaning(steps: seq<Step>, i: nat, fields: Fields, work: nat)
    requires i <= |steps|
    ensures AcceptedUpTo(steps, i, fields, work)
       <==> ScopedUpTo(steps, i, fields) && work + StepsCost(steps, i) <= MAX_WORK
  {
    if i > 0 {
      AcceptedUpToMeaning(steps, i - 1, fields, work);
    }
  }

  lemma AcceptedUpToAll(steps: seq<Step>, i: nat, fields: Fields, work: nat)
    requires i <= |steps| && (AcceptedUpTo(steps, i, fields, work) ==> i == |steps|)
    ensures AcceptedUpTo(steps, i, fields, work)
       <==> WellScoped(steps, fields) && work + StepsCost(steps, |steps|) <= MAX_WORK
  {
    AcceptedUpToMeaning(steps, i, fields, work);
    ScopedUpToAll(steps, i, fields);
    StepsCostGrows(steps, i, |steps|);
  }

  // The first i steps are accepted.
  predicate ScopedUpTo(steps: seq<Step>, i: nat, fields: Fields)
    requires i <= |steps|
  {
    i == 0 || (ScopedUpTo(steps, i - 1, fields) && StepInScope(steps, i - 1, fields))
  }

  lemma {:induction false} ScopedUpToAll(steps: seq<Step>, i: nat, fields: Fields)
    requires i <= |steps|
    ensures ScopedUpTo(steps, i, fields) <==> forall j :: 0 <= j < i ==> StepInScope(steps, j, fields)
  {
    if i > 0 {
      ScopedUpToAll(steps, i - 1, fields);
    }
  }

  // ----- what acceptance means

  // Names captured by strictly earlier steps.
  function NamesBefore(steps: seq<Step>, i: nat): set<string>
    requires i <= |steps|
  {
    if i == 0 then {} else NamesBefore(steps, i - 1) + NamesOf(steps[i - 1].captures)
  }

  // Declared fields plus the captures of strictly earlier steps, as strings.
  function TableAt(steps: seq<Step>, i: nat, fields: Fields): Fields
    requires i <= |steps|
  {
    fields + Strings(NamesBefore(steps, i))
  }

  predicate StepInScope(steps: seq<Step>, i: nat, fields: Fields)
    requires i < |steps|
  {
    StepOk(steps[i], fields, NamesBefore(steps, i))
  }

  predicate WellScoped(steps: seq<Step>, fields: Fields) {
    forall i :: 0 <= i < |steps| ==> StepInScope(steps, i, fields)
  }

  lemma {:induction false} FreshMeaning(names: seq<Option<string>>, taken: set<string>)
    ensures FreshNames(names, taken)
       <==> && (forall i :: 0 <= i < |names| ==> names[i].Some? && names[i].value !in taken)
            && (forall i, j :: 0 <= i < j < |names| ==> names[i] != names[j])
  {
    if names != [] && names[0].Some? {
      FreshMeaning(names[1..], taken + {names[0].value});
      assert forall i :: 1 <= i < |names| ==> names[i] == names[1..][i - 1];
    }
  }

  lemma {:induction false} NamesMembers(names: seq<Option<string>>, n: string)
    ensures n in NamesOf(names) <==> Some(n) in names
  {
    if names != [] {
      NamesMembers(names[1..], n);
    }
  }

  lemma {:induction false} NamesBeforeMembers(steps: seq<Step>, i: nat, n: string)
    requires i <= |steps|
    ensures n in NamesBefore(steps, i) <==> exists j :: 0 <= j < i && Some(n) in steps[j].captures
  {
    if i > 0 {
      NamesBeforeMembers(steps, i - 1, n);
      var last := steps[i - 1].captures;
      NamesMembers(last, n);
      assert n in NamesBefore(steps, i) <==> n in NamesBefore(steps, i - 1) || Some(n) in last;
    }
  }

  /** A reference is accepted if and only if its trimmed name is in the table it reads, with
      a kind its use takes: text for names and paths, a number for volumes and speeds,
      anything but a list or an object for arguments, and anything for tool parameters. */
  lemma ReferenceIff(ref: Ref, fields: Fields, available: Fields)
    ensures RefOk(ref, fields, available)
       <==> && ref.name.Str? && Trim(ref.name.s) != ""
            && var (name, table) := (Trim(ref.name.s), if ref.declaredOnly then fields else available);
               && name in table
               && table[name] in match ref.use
                                 case AnyKind => {KString, KBoolean, KInteger, KNumber, KArray, KObject}
                                 case ScalarOnly => {KString, KBoolean, KInteger, KNumber}
                                 case StringOnly => {KString}
                                 case NumericOnly => {KInteger, KNumber}
  {
    var table := if ref.declaredOnly then fields else available;
    if ref.name.Str? && Trim(ref.name.s) in table {
      match table[Trim(ref.name.s)]
      case KString =>
      case KBoolean =>
      case KInteger =>
      case KNumber =>
      case KArray =>
      case KObject =>
    }
  }

  /** In an accepted action every reference resolves to a declaration or to a
      string captured by a strictly earlier step. */
  lemma ReferencesResolve(steps: seq<Step>, fields: Fields, i: nat, r: nat)
    requires AllNamed(steps) && WellScoped(steps, fields) && i < |steps| && r < |steps[i].refs|
    ensures var ref := steps[i].refs[r];
            && NonBlank(ref.name).Some?
            && var name := Trim(NonBlank(ref.name).value);
               || (name in fields && Allows(ref.use, fields[name]))
               || (!ref.declaredOnly && name !in fields && Allows(ref.use, KString) &&
                   exists j :: 0 <= j < i && Some(name) in steps[j].captures)
  {
    assert StepInScope(steps, i, fields);
    var name := Trim(NonBlank(steps[i].refs[r].name).value);
    NamesBeforeMembers(steps, i, name);
    EarlierNamesFresh(steps, fields, i);
  }

  lemma {:induction false} EarlierNamesFresh(steps: seq<Step>, fields: Fields, i: nat)
    requires AllNamed(steps) && i <= |steps| && forall j :: 0 <= j < i ==> StepInScope(steps, j, fields)
    ensures NamesBefore(steps, i) !! fields.Keys
    ensures forall n :: n in NamesBefore(steps, i) ==> IsCaptureName(n)
  {
    if i > 0 {
      EarlierNamesFresh(steps, fields, i - 1);
      var names := steps[i - 1].captures;
      assert StepInScope(steps, i - 1, fields);
      FreshMeaning(names, fields.Keys + NamesBefore(steps, i - 1));
      forall n | n in NamesOf(names) ensures n !in fields && IsCaptureName(n) {
        NamesMembers(names, n);
        var k :| 0 <= k < |names| && names[k] == Some(n);
      }
    }
  }

  /** No name is captured twice in an accepted action, in one step or across steps. */
  lemma CapturesUnique(steps: seq<Step>, fields: Fields, i: nat, a: nat, j: nat, b: nat)
    requires WellScoped(steps, fields)
    requires i < |steps| && a < |steps[i].captures| && j < |steps| && b < |steps[j].captures|
    requires steps[i].captures[a] == steps[j].captures[b]
    ensures i == j && a == b
  {
    assert StepInScope(steps, i, fields) && StepInScope(steps, j, fields);
    FreshMeaning(steps[i].captures, fields.Keys + NamesBefore(steps, i));
    FreshMeaning(steps[j].captures, fields.Keys + NamesBefore(steps, j));
    var n := steps[i].captures[a].value;
    NamesBeforeMembers(steps, i, n);
    NamesBeforeMembers(steps, j, n);
  }

  /** The table of a step holds the declared fields with their kinds and, as strings, the
      captures of strictly earlier steps. */
  lemma TableMeaning(steps: seq<Step>, i: nat, fields: Fields, name: string)
    requires i <= |steps|
    ensures var table := TableAt(steps, i, fields);
            var captured := exists j :: 0 <= j < i && Some(name) in steps[j].captures;
            && (name in table <==> name in fields || captured)
            && (captured ==> table[name] == KString)
            && (!captured && name in fields ==> table[name] == fields[name])
  {
    NamesBeforeMembers(steps, i, name);
  }

  // A capture is named, undeclared, and captured by no earlier step.
  ghost predicate CaptureOk(steps: seq<Step>, i: nat, a: nat, fields: Fields)
    requires i < |steps| && a < |steps[i].captures|
  {
    var c := steps[i].captures[a];
    && c.Some? && c.value !in fields
    && forall j :: 0 <= j < i ==> c !in steps[j].captures
  }

  ghost predicate CapturesOk(steps: seq<Step>, i: nat, fields: Fields)
    requires i < |steps|
  {
    && (forall a :: 0 <= a < |steps[i].captures| ==> CaptureOk(steps, i, a, fields))
    && forall a, b :: 0 <= a < b < |steps[i].captures| ==> steps[i].captures[a] != steps[i].captures[b]
  }

  // The condition has a kind and the references resolve in the table of the step, and the
  // captures are named, new and different from one another.
  ghost predicate StepAllowed(steps: seq<Step>, i: nat, fields: Fields)
    requires i < |steps|
  {
    var (step, table) := (steps[i], TableAt(steps, i, fields));
    && (step.whenExpr.Some? ==> Logic(step.whenExpr.value, table).Some?)
    && (forall r :: 0 <= r < |step.refs| ==> RefOk(step.refs[r], fields, table))
    && CapturesOk(steps, i, fields)
  }

  lemma CaptureIff(steps: seq<Step>, i: nat, a: nat, fields: Fields)
    requires i < |steps| && a < |steps[i].captures|
    ensures var c := steps[i].captures[a];
            CaptureOk(steps, i, a, fields) <==> c.Some? && c.value !in fields.Keys + NamesBefore(steps, i)
  {
    var c := steps[i].captures[a];
    if c.Some? {
      NamesBeforeMembers(steps, i, c.value);
    }
  }

  lemma StepIff(steps: seq<Step>, i: nat, fields: Fields)
    requires i < |steps|
    ensures StepInScope(steps, i, fields) <==> StepAllowed(steps, i, fields)
  {
    var names := steps[i].captures;
    FreshMeaning(names, fields.Keys + NamesBefore(steps, i));
    forall a | 0 <= a < |names|
      ensures CaptureOk(steps, i, a, fields) <==> names[a].Some? && names[a].value !in fields.Keys + NamesBefore(steps, i)
    {
      CaptureIff(steps, i, a, fields);
    }
  }

  /** An action is in scope if and only if every step is allowed by its own table and by the
      captures of the earlier steps. */
  lemma ScopedIff(steps: seq<Step>, fields: Fields)
    ensures WellScoped(steps, fields) <==> forall i :: 0 <= i < |steps| ==> StepAllowed(steps, i, fields)
  {
    forall i | 0 <= i < |steps| ensures StepInScope(steps, i, fields) <==> StepAllowed(steps, i, fields) {
      StepIff(steps, i, fields);
    }
  }

  function PartsOf(step: Step): nat { step.parts }
  function WhenWork(step: Step): nat { if step.whenExpr.Some? then Cost(step.whenExpr.value) else 0 }

  /** The work of the steps: one unit each, one for each string part, and their conditions. */
  lemma {:induction false} StepsWork(steps: seq<Step>, i: nat)
    requires i <= |steps|
    ensures StepsCost(steps, i) == i + Total(steps[..i], PartsOf) + Total(steps[..i], WhenWork)
  {
    if i > 0 {
      StepsWork(steps, i - 1);
      assert steps[..i] == steps[..i - 1] + [steps[i - 1]];
      TotalAppend(steps[..i - 1], [steps[i - 1]], PartsOf);
      TotalAppend(steps[..i - 1], [steps[i - 1]], WhenWork);
      TotalOne(steps[i - 1], PartsOf);
      TotalOne(steps[i - 1], WhenWork);
    }
  }

  /** What a step may read, it may still read at every later step. */
  lemma LaterTablesKeepMeaning(steps: seq<Step>, fields: Fields, i: nat, j: nat, e: Value)
    requires AllNamed(steps) && WellScoped(steps, fields) && i <= j <= |steps|
    requires Logic(e, TableAt(steps, i, fields)).Some?
    ensures Logic(e, TableAt(steps, j, fields)) == Logic(e, TableAt(steps, i, fields))
  {
    NamesGrow(steps, i, j);
    EarlierNamesFresh(steps, fields, j);
    MoreFieldsKeepKind(e, TableAt(steps, i, fields), TableAt(steps, j, fields));
  }

  lemma NamesGrow(steps: seq<Step>, i: nat, j: nat)
    requires i <= j <= |steps|
    ensures NamesBefore(steps, i) <= NamesBefore(steps, j)
  {
  }

  // ----- the build

  // `parse_actions`: a step's captures are compared with the schema fields and
  // with the captures of earlier steps, not with one another.
  predicate BuildStep(steps: seq<Step>, i: nat, schema: Fields, fields: Fields)
    requires i < |steps|
  {
    && BuildWhen(steps[i].whenExpr, TableAt(steps, i, fields))
    && BuildRefs(steps[i].refs, fields, TableAt(steps, i, fields))
    && var names := steps[i].captures;
       forall k :: 0 <= k < |names| ==>
         names[k].Some? && names[k].value !in schema && names[k].value !in NamesBefore(steps, i)
  }

  // Arguments, string parts and tool parameters alike: the trimmed name is a valid
  // lookup name and is in the table, with a type its use allows.
  predicate BuildRef(ref: Ref, table: Fields) {
    && ref.name.Str?
    && var name := Trim(ref.name.s);
       ValidLookup(name) && name in table && Allows(ref.use, table[name])
  }

  predicate BuildRefs(refs: seq<Ref>, fields: Fields, available: Fields) {
    forall i :: 0 <= i < |refs| && !refs[i].choice ==>
      BuildRef(refs[i], if refs[i].declaredOnly then fields else available)
  }

  predicate BuildWhen(e: Option<Value>, table: Fields) {
    e.Some? ==> BuildCheck(e.value, table)
  }

  predicate BuildAccepts(condition: Value, steps: seq<Step>, schema: Fields, fields: Fields) {
    BuildCheck(condition, fields) && forall i :: 0 <= i < |steps| ==> BuildStep(steps, i, schema, fields)
  }

  // A declared output field or runtime variable name.
  ghost predicate IsDeclaredName(name: string) {
    name != "" && IsFlat(name) && forall i :: 0 <= i < |name| ==> !IsWhitespace(name[i])
  }

  // The gate's field table: output fields plus `runtime.`-prefixed variables.
  ghost predicate IsFieldTable(fields: Fields, schema: Fields) {
    forall n :: n in fields ==>
      if n in schema then IsDeclaredName(n) else "runtime." <= n && IsDeclaredName(n[8..])
  }

  lemma PrefixedIsNotFlat(name: string)
    requires "runtime." <= name
    ensures !IsFlat(name)
  {
    assert name[7] == '.';
  }

  lemma TrimOfDeclared(name: string)
    requires name != "" && !IsWhitespace(name[0]) && !IsWhitespace(name[|name| - 1])
    ensures Trim(name) == name
  {
  }

  /** Every table of an accepted action is one the build can look names up in. */
  lemma TablesSupportLookup(steps: seq<Step>, fields: Fields, schema: Fields, i: nat)
    requires IsFieldTable(fields, schema) && AllNamed(steps) && i <= |steps|
    requires forall j :: 0 <= j < i ==> StepInScope(steps, j, fields)
    ensures LookupTable(TableAt(steps, i, fields))
  {
    EarlierNamesFresh(steps, fields, i);
    forall n | n in TableAt(steps, i, fields) ensures ValidLookup(Trim(n)) {
      if n in fields {
        if n !in schema {
          assert n[0] == 'r' && n[|n| - 1] == n[8..][|n| - 9];
        }
        TrimOfDeclared(n);
      } else {
        assert IsCaptureName(n);
      }
      if "runtime." <= n { PrefixedIsNotFlat(n); }
    }
  }

  // What the build leaves unchecked: operators beyond the strict list, references in
  // request choices, and one name captured twice by the same step.
  ghost predicate StrictExtras(condition: Value, steps: seq<Step>, fields: Fields) {
    && StrictForm(condition, fields)
    && forall i :: 0 <= i < |steps| ==> StepExtras(steps, i, fields)
  }

  ghost predicate StepExtras(steps: seq<Step>, i: nat, fields: Fields)
    requires i < |steps|
  {
    && StrictWhen(steps[i].whenExpr, TableAt(steps, i, fields))
    && ChoicesOk(steps[i].refs, fields, TableAt(steps, i, fields))
    && var names := steps[i].captures; forall a, b :: 0 <= a < b < |names| ==> names[a] != names[b]
  }

  ghost predicate StrictWhen(e: Option<Value>, table: Fields) {
    e.Some? ==> StrictForm(e.value, table)
  }

  lemma WhenAgrees(e: Option<Value>, table: Fields)
    requires LookupTable(table)
    ensures WhenOk(e, table) <==> BuildWhen(e, table) && StrictWhen(e, table)
  {
    if e.Some? {
      CheckersAgree(e.value, table);
    }
  }

  predicate ChoicesOk(refs: seq<Ref>, fields: Fields, available: Fields) {
    forall i :: 0 <= i < |refs| && refs[i].choice ==> RefOk(refs[i], fields, available)
  }

  // Both resolve a reference alike in a table of names the build can look up.
  lemma RefAgrees(ref: Ref, table: Fields)
    requires LookupTable(table)
    ensures Resolves(ref, table) <==> BuildRef(ref, table)
  {
    if ref.name.Str? {
      TrimIdempotent(ref.name.s);
    }
  }

  lemma RefsAgree(refs: seq<Ref>, fields: Fields, available: Fields)
    requires LookupTable(fields) && LookupTable(available)
    ensures RefsOk(refs, fields, available)
       <==> BuildRefs(refs, fields, available) && ChoicesOk(refs, fields, available)
  {
    forall i | 0 <= i < |refs|
      ensures var table := if refs[i].declaredOnly then fields else available;
              RefOk(refs[i], fields, available) <==> BuildRef(refs[i], table)
    {
      RefAgrees(refs[i], if refs[i].declaredOnly then fields else available);
    }
  }

  lemma FlatNamesInTable(name: string, fields: Fields, schema: Fields)
    requires IsFieldTable(fields, schema) && schema.Keys <= fields.Keys && IsFlat(name)
    ensures name in fields <==> name in schema
  {
    if "runtime." <= name { PrefixedIsNotFlat(name); }
  }

  lemma NamesAgree(names: seq<Option<string>>, fields: Fields, schema: Fields, earlier: set<string>)
    requires IsFieldTable(fields, schema) && schema.Keys <= fields.Keys
    requires forall k :: 0 <= k < |names| && names[k].Some? ==> IsCaptureName(names[k].value)
    ensures FreshNames(names, fields.Keys + earlier)
       <==> && (forall k :: 0 <= k < |names| ==>
                  names[k].Some? && names[k].value !in schema && names[k].value !in earlier)
            && (forall a, b :: 0 <= a < b < |names| ==> names[a] != names[b])
  {
    FreshMeaning(names, fields.Keys + earlier);
    forall k | 0 <= k < |names| && names[k].Some?
      ensures names[k].value in fields <==> names[k].value in schema
    {
      FlatNamesInTable(names[k].value, fields, schema);
    }
  }

  lemma ReadsAgree(step: Step, fields: Fields, table: Fields)
    requires LookupTable(fields) && LookupTable(table)
    ensures StepReads(step, fields, table)
       <==> && BuildWhen(step.whenExpr, table) && BuildRefs(step.refs, fields, table)
            && StrictWhen(step.whenExpr, table) && ChoicesOk(step.refs, fields, table)
  {
    WhenAgrees(step.whenExpr, table);
    RefsAgree(step.refs, fields, table);
  }

  lemma StepsAgree(steps: seq<Step>, i: nat, fields: Fields, schema: Fields)
    requires IsFieldTable(fields, schema) && schema.Keys <= fields.Keys && AllNamed(steps) && i < |steps|
    requires LookupTable(fields) && LookupTable(TableAt(steps, i, fields))
    ensures StepInScope(steps, i, fields) <==> BuildStep(steps, i, schema, fields) && StepExtras(steps, i, fields)
  {
    ReadsAgree(steps[i], fields, TableAt(steps, i, fields));
    NamesAgree(steps[i].captures, fields, schema, NamesBefore(steps, i));
  }

  /** The gate accepts an action, its budget apart, exactly when the build does and the
      action has the strict extras; both then use the same tables. */
  lemma {:induction false} GateRefinesBuild(condition: Value, steps: seq<Step>, fields: Fields, schema: Fields)
    requires IsFieldTable(fields, schema) && schema.Keys <= fields.Keys && AllNamed(steps)
    ensures Logic(condition, fields).Some? && WellScoped(steps, fields)
       <==> BuildAccepts(condition, steps, schema, fields) && StrictExtras(condition, steps, fields)
  {
    assert TableAt(steps, 0, fields) == fields;
    TablesSupportLookup(steps, fields, schema, 0);
    CheckersAgree(condition, fields);
    if WellScoped(steps, fields) {
      forall i | 0 <= i < |steps|
        ensures BuildStep(steps, i, schema, fields) && StepExtras(steps, i, fields)
      {
        assert StepInScope(steps, i, fields);
        TablesSupportLookup(steps, fields, schema, i);
        StepsAgree(steps, i, fields, schema);
      }
    }
    if BuildAccepts(condition, steps, schema, fields) && StrictExtras(condition, steps, fields) {
      forall i | 0 <= i < |steps| ensures Recoverable(steps, i, fields, schema) {
        assert BuildStep(steps, i, schema, fields) && StepExtras(steps, i, fields);
      }
      StepsRecovered(steps, |steps|, fields, schema);
      ScopedUpToAll(steps, |steps|, fields);
    }
  }

  ghost predicate Recoverable(steps: seq<Step>, j: nat, fields: Fields, schema: Fields)
    requires j < |steps|
  {
    BuildStep(steps, j, schema, fields) && StepExtras(steps, j, fields)
  }

  lemma StepRecovered(steps: seq<Step>, i: nat, fields: Fields, schema: Fields)
    requires IsFieldTable(fields, schema) && schema.Keys <= fields.Keys && AllNamed(steps) && i < |steps|
    requires LookupTable(fields) && ScopedUpTo(steps, i, fields) && Recoverable(steps, i, fields, schema)
    ensures StepInScope(steps, i, fields)
  {
    ScopedUpToAll(steps, i, fields);
    TablesSupportLookup(steps, fields, schema, i);
    StepsAgree(steps, i, fields, schema);
  }

  lemma {:induction false} StepsRecovered(steps: seq<Step>, i: nat, fields: Fields, schema: Fields)
    requires IsFieldTable(fields, schema) && schema.Keys <= fields.Keys && AllNamed(steps) && i <= |steps|
    requires LookupTable(fields) && forall j :: 0 <= j < i ==> Recoverable(steps, j, fields, schema)
    ensures ScopedUpTo(steps, i, fields)
  {
    if i > 0 {
      StepsRecovered(steps, i - 1, fields, schema);
      StepRecovered(steps, i - 1, fields, schema);
    }
  }
}
