/** `validate_selected_result`: the one tool step that produces a declared result,
    and the steps both parsers then flag. */
module SelectedResults {
  import opened Text
  import opened Json
  import opened Sums
  import opened Versions

  const MAX_SCOPES: nat := 64
  const MAX_SCOPE_BYTES: nat := 128

  // `Value::as_array` with the missing case flattened away.
  function Items(v: Option<Value>): seq<Value> {
    if v.Some? && v.value.Array? then v.value.items else []
  }

  function StepsOf(actions: seq<Value>): seq<Value> {
    if actions == [] then [] else Items(Lookup(actions[0], "run")) + StepsOf(actions[1..])
  }

  function AllSteps(root: seq<Member>): seq<Value> {
    StepsOf(Items(Find(root, "actions")))
  }

  // ----- what the check demands

  predicate AnnotationOk(step: Value, supported: bool) {
    var annotation := Lookup(step, "produces_result");
    annotation.Some? ==> supported && annotation.value.Bool? && LooseTool(Lookup(step, "kind"))
  }

  predicate LooseTool(kind: Option<Value>) {
    kind.Some? && kind.value.Str? && AsciiLower(Trim(kind.value.s)) == "tool"
  }

  predicate Declares(step: Value) {
    Lookup(step, "produces_result") == Some(Bool(true))
  }

  function Weight(step: Value): nat {
    if Declares(step) then 1 else 0
  }

  predicate IsControl(c: char) {
    c as int < 0x20 || 0x7F <= c as int < 0xA0
  }

  predicate ScopeOk(v: Value) {
    && v.Str? && Trim(v.s) != "" && ByteLen(v.s) <= MAX_SCOPE_BYTES
    && forall i :: 0 <= i < |v.s| ==> !IsControl(v.s[i])
  }

  predicate ScopesOk(v: Value) {
    && v.Array? && |v.items| <= MAX_SCOPES
    && (forall i :: 0 <= i < |v.items| ==> ScopeOk(v.items[i]))
    && forall i, j :: 0 <= i < j < |v.items| ==> v.items[i] != v.items[j]
  }

  // `schemaOk` stands for the business schema check.
  predicate ResultOk(result: Value, schemaOk: Value -> bool) {
    && result.Object?
    && (forall i :: 0 <= i < |result.members| ==> result.members[i].key in {"source", "schema", "artifact_scopes"})
    && Find(result.members, "source") == Some(Str("tool"))
    && Find(result.members, "schema").Some? && schemaOk(Find(result.members, "schema").value)
    && (Find(result.members, "artifact_scopes").Some? ==> ScopesOk(Find(result.members, "artifact_scopes").value))
  }

  predicate SelectedResultOk(root: seq<Member>, supported: bool, schemaOk: Value -> bool) {
    && (forall i :: 0 <= i < |AllSteps(root)| ==> AnnotationOk(AllSteps(root)[i], supported))
    && var result := Find(root, "result");
       if result.None? then Total(AllSteps(root), Weight) == 0
       else supported && ResultOk(result.value, schemaOk) && Total(AllSteps(root), Weight) == 1
  }

  // ----- the check as it runs

  // What one step adds to the count.
  method CheckStep(step: Value, supported: bool) returns (producers: Option<nat>)
    ensures producers == if AnnotationOk(step, supported) then Some(Weight(step)) else None
  {
    var annotation := Lookup(step, "produces_result");
    if annotation.None? {
      return Some(0);
    }
    if !supported || !LooseTool(Lookup(step, "kind")) || !annotation.value.Bool? {
      return None;
    }
    return Some(if annotation.value.b then 1 else 0);
  }

  // The steps are all allowed.
  predicate AnnotationsOk(steps: seq<Value>, supported: bool) {
    steps == [] || (AnnotationOk(steps[0], supported) && AnnotationsOk(steps[1..], supported))
  }

  lemma {:induction false} AnnotationsMeaning(steps: seq<Value>, supported: bool)
    ensures AnnotationsOk(steps, supported) <==> forall i :: 0 <= i < |steps| ==> AnnotationOk(steps[i], supported)
  {
    if steps != [] {
      AnnotationsMeaning(steps[1..], supported);
      assert forall i :: 1 <= i < |steps| ==> steps[i] == steps[1..][i - 1];
      assert forall i :: 0 <= i < |steps| - 1 ==> steps[1..][i] == steps[i + 1];
    }
  }

  method CountSteps(steps: seq<Value>, supported: bool) returns (producers: Option<nat>)
    ensures producers.Some? <==> AnnotationsOk(steps, supported)
    ensures producers.Some? ==> producers.value == Total(steps, Weight)
  {
    var count := 0;
    assert steps[0..] == steps;
    for s := 0 to |steps|
      invariant AnnotationsOk(steps, supported) <==> AnnotationsOk(steps[s..], supported)
      invariant count + Total(steps[s..], Weight) == Total(steps, Weight)
    {
      assert steps[s..][1..] == steps[s + 1..];
      var here := CheckStep(steps[s], supported);
      if here.None? {
        return None;
      }
      count := count + here.value;
    }
    return Some(count);
  }

  lemma {:induction false} AnnotationsAppend(a: seq<Value>, b: seq<Value>, supported: bool)
    ensures AnnotationsOk(a + b, supported) <==> AnnotationsOk(a, supported) && AnnotationsOk(b, supported)
  {
    if a == [] {
      assert a + b == b;
    } else {
      assert (a + b)[1..] == a[1..] + b;
      AnnotationsAppend(a[1..], b, supported);
    }
  }

  method CountProducers(root: seq<Member>, supported: bool) returns (producers: Option<nat>)
    ensures producers.Some? <==> AnnotationsOk(AllSteps(root), supported)
    ensures producers.Some? ==> producers.value == Total(AllSteps(root), Weight)
  {
    var actions := Items(Find(root, "actions"));
    var count := 0;
    assert actions[0..] == actions;
    for a := 0 to |actions|
      invariant AnnotationsOk(AllSteps(root), supported) <==> AnnotationsOk(StepsOf(actions[a..]), supported)
      invariant count + Total(StepsOf(actions[a..]), Weight) == Total(AllSteps(root), Weight)
    {
      assert actions[a..][1..] == actions[a + 1..];
      var steps := Items(Lookup(actions[a], "run"));
      AnnotationsAppend(steps, StepsOf(actions[a + 1..]), supported);
      TotalAppend(steps, StepsOf(actions[a + 1..]), Weight);
      var here := CountSteps(steps, supported);
      if here.None? {
        return None;
      }
      count := count + here.value;
    }
    return Some(count);
  }

  method CheckScopes(scopes: seq<Value>) returns (ok: bool)
    ensures ok <==> ScopesOk(Array(scopes))
  {
    if |scopes| > MAX_SCOPES {
      return false;
    }
    var seen: set<Value> := {};
    var i := 0;
    while i < |scopes|
      invariant 0 <= i <= |scopes|
      invariant forall j :: 0 <= j < i ==> ScopeOk(scopes[j])
      invariant forall v :: v in seen <==> v in scopes[..i]
      invariant forall j, k :: 0 <= j < k < i ==> scopes[j] != scopes[k]
    {
      if !ScopeOk(scopes[i]) || scopes[i] in seen {
        return false;
      }
      seen := seen + {scopes[i]};
      i := i + 1;
    }
    ok := true;
  }

  method ValidateSelectedResult(root: seq<Member>, supported: bool, schemaOk: Value -> bool) returns (ok: bool)
    ensures ok <==> SelectedResultOk(root, supported, schemaOk)
  {
    AnnotationsMeaning(AllSteps(root), supported);
    var producers := CountProducers(root, supported);
    if producers.None? {
      return false;
    }
    var result := Find(root, "result");
    if result.None? {
      return producers.value == 0;
    }
    if !supported || !result.value.Object? {
      return false;
    }
    var ms := result.value.members;
    if exists i :: 0 <= i < |ms| && ms[i].key !in {"source", "schema", "artifact_scopes"} {
      return false;
    }
    if Find(ms, "source") != Some(Str("tool")) || Find(ms, "schema").None? || !schemaOk(Find(ms, "schema").value) {
      return false;
    }
    var scopes := Find(ms, "artifact_scopes");
    if scopes.Some? {
      if !scopes.value.Array? {
        return false;
      }
      var scopesOk := CheckScopes(scopes.value.items);
      if !scopesOk {
        return false;
      }
    }
    ok := producers.value == 1;
  }

  // ----- what acceptance means

  // A control character of Latin-1.
  predicate Control(c: char) {
    c < ' ' || '\U{7F}' <= c < '\U{A0}'
  }

  ghost predicate ScopeDeclared(x: Value) {
    x.Str? && Trim(x.s) != "" && ByteLen(x.s) <= 128 && forall c :: c in x.s ==> !Control(c)
  }

  // Up to 64 different scopes, each a short text without control characters.
  ghost predicate ScopesDeclared(v: Value) {
    && v.Array? && |v.items| <= 64
    && (forall x :: x in v.items ==> ScopeDeclared(x))
    && forall i, j :: 0 <= i < j < |v.items| ==> v.items[i] != v.items[j]
  }

  // A producer: a step that says so.
  ghost predicate ProducerAt(root: seq<Member>, i: int) {
    && 0 <= i < |AllSteps(root)| && AllSteps(root)[i].Object?
    && Find(AllSteps(root)[i].members, "produces_result") == Some(Bool(true))
  }

  // An annotation may say no, but only a tool step of a supported definition has one.
  ghost predicate AnnotationsAllowed(root: seq<Member>, supported: bool) {
    forall step :: step in AllSteps(root) && step.Object? && Has(step.members, "produces_result") ==>
      && supported && Find(step.members, "produces_result").value.Bool? && Has(step.members, "kind")
      && var kind := Find(step.members, "kind").value;
         kind.Str? && AsciiLower(Trim(kind.s)) == "tool"
  }

  ghost predicate ResultDeclared(result: Value, schemaOk: Value -> bool) {
    && result.Object?
    && (forall key :: Has(result.members, key) ==> key in {"source", "schema", "artifact_scopes"})
    && Find(result.members, "source") == Some(Str("tool"))
    && Has(result.members, "schema") && schemaOk(Find(result.members, "schema").value)
    && (Has(result.members, "artifact_scopes") ==> ScopesDeclared(Find(result.members, "artifact_scopes").value))
  }

  lemma {:induction false} ProducersCounted(steps: seq<Value>)
    ensures Total(steps, Weight) == 0 <==> forall i :: 0 <= i < |steps| ==> !Declares(steps[i])
    ensures Total(steps, Weight) == 1
       <==> && (exists i :: 0 <= i < |steps| && Declares(steps[i]))
            && forall i, j :: 0 <= i < j < |steps| ==> !(Declares(steps[i]) && Declares(steps[j]))
  {
    if steps != [] {
      var rest := steps[1..];
      ProducersCounted(rest);
      assert forall i :: 1 <= i < |steps| ==> steps[i] == rest[i - 1];
      assert forall i :: 0 <= i < |rest| ==> rest[i] == steps[i + 1];
      assert Total(steps, Weight) == Weight(steps[0]) + Total(rest, Weight);
    }
  }

  lemma ScopeIff(x: Value)
    ensures ScopeOk(x) <==> ScopeDeclared(x)
  {
    if x.Str? {
      assert forall i :: 0 <= i < |x.s| ==> x.s[i] in x.s;
      assert forall c: char :: IsControl(c) <==> Control(c);
    }
  }

  lemma ScopesIff(v: Value)
    ensures ScopesOk(v) <==> ScopesDeclared(v)
  {
    if v.Array? {
      forall i | 0 <= i < |v.items| ensures ScopeOk(v.items[i]) <==> ScopeDeclared(v.items[i]) {
        ScopeIff(v.items[i]);
      }
      assert forall i :: 0 <= i < |v.items| ==> v.items[i] in v.items;
    }
  }

  lemma ResultIff(result: Value, schemaOk: Value -> bool)
    ensures ResultOk(result, schemaOk) <==> ResultDeclared(result, schemaOk)
  {
    if result.Object? {
      var ms := result.members;
      assert forall i :: 0 <= i < |ms| ==> Has(ms, ms[i].key);
      if Has(ms, "artifact_scopes") {
        ScopesIff(Find(ms, "artifact_scopes").value);
      }
    }
  }

  lemma AnnotationsIff(root: seq<Member>, supported: bool)
    ensures (forall i :: 0 <= i < |AllSteps(root)| ==> AnnotationOk(AllSteps(root)[i], supported))
       <==> AnnotationsAllowed(root, supported)
  {
    var steps := AllSteps(root);
    assert forall i :: 0 <= i < |steps| ==> steps[i] in steps;
  }

  lemma ProducersIff(root: seq<Member>)
    ensures Total(AllSteps(root), Weight) == 0 <==> forall i :: !ProducerAt(root, i)
    ensures Total(AllSteps(root), Weight) == 1
       <==> (exists i :: ProducerAt(root, i)) && forall i, j :: ProducerAt(root, i) && ProducerAt(root, j) ==> i == j
  {
    var steps := AllSteps(root);
    assert forall i :: ProducerAt(root, i) <==> 0 <= i < |steps| && Declares(steps[i]);
    ProducersCounted(steps);
  }

  /** The check accepts if and only if annotations stand only where they may and exactly
      one step is a producer, with a well-formed declaration, or no step is, with none. */
  lemma SelectedResultIff(root: seq<Member>, supported: bool, schemaOk: Value -> bool)
    ensures SelectedResultOk(root, supported, schemaOk)
       <==> && AnnotationsAllowed(root, supported)
            && if Has(root, "result") then
                 && supported && ResultDeclared(Find(root, "result").value, schemaOk)
                 && (exists i :: ProducerAt(root, i)) && forall i, j :: ProducerAt(root, i) && ProducerAt(root, j) ==> i == j
               else forall i :: !ProducerAt(root, i)
  {
    AnnotationsIff(root, supported);
    ProducersIff(root);
    if Has(root, "result") {
      ResultIff(Find(root, "result").value, schemaOk);
    }
  }

  // ----- the parsers

  // Both parsers flag a step by the same expression, in the arm of the exact kind.
  predicate Flagged(step: Value) {
    Lookup(step, "kind") == Some(Str("tool")) && Lookup(step, "produces_result") == Some(Bool(true))
  }

  function FlagWeight(step: Value): nat {
    if Flagged(step) then 1 else 0
  }

  predicate ExactKind(step: Value) {
    Declares(step) ==> Lookup(step, "kind") == Some(Str("tool"))
  }

  lemma {:induction false} FlagsAtMost(steps: seq<Value>)
    ensures Total(steps, FlagWeight) <= Total(steps, Weight)
  {
    if steps != [] {
      FlagsAtMost(steps[1..]);
    }
  }

  /** The check compares kinds trimmed and in lower case, the parsers exactly. They
      count the same steps if and only if every declared producer has the exact kind. */
  lemma {:induction false} CountsAgree(steps: seq<Value>)
    ensures Total(steps, FlagWeight) == Total(steps, Weight)
       <==> forall i :: 0 <= i < |steps| ==> ExactKind(steps[i])
  {
    if steps != [] {
      CountsAgree(steps[1..]);
      FlagsAtMost(steps[1..]);
      assert forall i :: 1 <= i < |steps| ==> steps[i] == steps[1..][i - 1];
      assert forall i :: 0 <= i < |steps[1..]| ==> steps[1..][i] == steps[i + 1];
      assert Total(steps, FlagWeight) == FlagWeight(steps[0]) + Total(steps[1..], FlagWeight);
      assert Total(steps, Weight) == Weight(steps[0]) + Total(steps[1..], Weight);
    }
  }

  // ----- the whole definition

  // What the gate demands of kinds and of the keys of a strict definition.
  const KINDS: set<string> := {"exec", "email_me", "agent", "tool", "generate_image", "generate_audio", "transcribe_audio"}

  predicate StepGate(step: Value) {
    && step.Object? && Lookup(step, "kind").Some? && Lookup(step, "kind").value.Str?
    && Lookup(step, "kind").value.s in KINDS
    && (Lookup(step, "produces_result").Some? ==> Lookup(step, "kind").value.s == "tool")
  }

  predicate SupportsResults(root: seq<Member>) {
    var text := Find(root, VERSION_KEY);
    text.Some? && text.value.Str? && SupportsResult(text.value.s)
  }

  // The parts of an accepted definition that bear on results.
  predicate Accepted(root: seq<Member>, schemaOk: Value -> bool) {
    match DefinitionRevision(Object(root))
    case Supported(Legacy) => SelectedResultOk(root, false, schemaOk)
    case Supported(Strict) =>
      && (Has(root, "result") ==> SupportsResults(root))
      && SelectedResultOk(root, SupportsResults(root), schemaOk)
      && forall i :: 0 <= i < |AllSteps(root)| ==> StepGate(AllSteps(root)[i])
    case Refused(_) => false
  }

  /** In an accepted definition of any revision, exactly one step is flagged as the
      producer when a result is declared, and none otherwise. */
  lemma ProducersMatchResult(root: seq<Member>, schemaOk: Value -> bool)
    requires Accepted(root, schemaOk)
    ensures Total(AllSteps(root), FlagWeight) == if Has(root, "result") then 1 else 0
  {
    var steps := AllSteps(root);
    forall i | 0 <= i < |steps| ensures ExactKind(steps[i]) {
      assert AnnotationOk(steps[i], SupportsResults(root)) || AnnotationOk(steps[i], false);
    }
    CountsAgree(steps);
  }

  /** Without the exact kinds of the strict gate the promise would fail: a step of kind
      `Tool` passes the check as the one producer and no parser flags it. */
  lemma LooseKindIsCounted(step: Value, kind: string)
    requires step == Object([Member("kind", Str(kind)), Member("produces_result", Bool(true))])
    requires kind != "tool" && AsciiLower(Trim(kind)) == "tool"
    ensures AnnotationOk(step, true) && Declares(step) && !Flagged(step) && !StepGate(step)
  {
    assert step.members[1..][0].key == "produces_result";
    assert Lookup(step, "kind") == Some(Str(kind));
    assert Lookup(step, "produces_result") == Some(Bool(true));
  }
}
