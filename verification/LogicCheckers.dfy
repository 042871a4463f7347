/** The two JSON Logic checkers: the strict one of the definition gate, which
    also charges a work budget, and the one of the generated-agent build. */
module LogicCheckers {
  import opened Text
  import opened Json
  import opened Kinds
  import opened Budgets

  type Fields = map<string, Kind>

  const OPERATORS: set<string> := {
    "==", "===", "!=", "!==", "var", "!", "!!", "if", "or", "and", "<", "<=", ">", ">=",
    "missing", "missing_some", "min", "max", "+", "-", "*", "/", "%", "in", "cat", "substr",
    "log", "merge", "map", "filter", "reduce", "all", "some", "none"}

  predicate IsOrdering(op: string) { op == ">" || op == ">=" || op == "<" || op == "<=" }
  predicate IsEquality(op: string) { op == "==" || op == "!=" }
  predicate IsComparison(op: string) { IsOrdering(op) || IsEquality(op) }
  predicate IsBoolean(op: string) { op == "and" || op == "or" || op == "!" }

  predicate Compatible(a: Kind, b: Kind) { a == b || (a.Numeric() && b.Numeric()) }

  predicate Comparable(op: string, a: Kind, b: Kind) {
    if IsOrdering(op) then a.Numeric() && b.Numeric() else Compatible(a, b)
  }

  // An object with exactly one operator key.
  predicate IsCall(v: Value) { v.Object? && |v.members| == 1 }

  function Op(v: Value): string
    requires IsCall(v)
  { v.members[0].key }

  function Args(v: Value): (r: Value)
    requires IsCall(v)
    ensures r < v
  {
    assert v.members[0] < v;
    v.members[0].value
  }

  // The argument positions the strict checker walks: every operand, but for
  // `var` only the defaults behind the name.
  function Operands(v: Value): (r: seq<Value>)
    requires IsCall(v)
    ensures forall i :: 0 <= i < |r| ==> r[i] < v
  {
    var args := Args(v);
    if Op(v) == "var" then (if args.Array? && args.items != [] then args.items[1..] else [])
    else if args.Array? then args.items else [args]
  }

  // ----- the strict checker, its typing and its cost apart

  function VarName(args: Value): Option<string> {
    if args.Array? then (if args.items == [] then None else NonBlank(args.items[0])) else NonBlank(args)
  }

  function Reference(name: Option<string>, fields: Fields): Option<Kind> {
    if name.Some? && name.value in fields && !fields[name.value].Structured() then Some(fields[name.value]) else None
  }

  // The kind of a comparison, from those of its operands.
  function PairKind(op: string, a: Option<Kind>, b: Option<Kind>): Option<Kind> {
    if a.Some? && b.Some? && Comparable(op, a.value, b.value) then Some(KBoolean) else None
  }

  function Logic(v: Value, fields: Fields): Option<Kind> {
    if !IsCall(v) || Op(v) !in OPERATORS then None
    else
      var ops := Operands(v);
      if exists i :: 0 <= i < |ops| && ops[i].Object? && Logic(ops[i], fields).None? then None
      else if Op(v) == "var" then Reference(VarName(Args(v)), fields)
      else if IsComparison(Op(v)) then
        if !Args(v).Array? || |ops| != 2 then None
        else
          var a := if ops[0].Object? then Logic(ops[0], fields) else LiteralKind(ops[0]);
          var b := if ops[1].Object? then Logic(ops[1], fields) else LiteralKind(ops[1]);
          PairKind(Op(v), a, b)
      else Some(if IsBoolean(Op(v)) then KBoolean else KString)
  }

  function LiteralKind(v: Value): Option<Kind> {
    match v
    case Str(_) => Some(KString)
    case Bool(_) => Some(KBoolean)
    case Num(n) => Some(if n.AsI64().Some? then KInteger else KNumber)
    case Array(_) => Some(KArray)
    case _ => None
  }

  // `logic_kind`
  function OperandKind(v: Value, fields: Fields): Option<Kind> {
    if v.Object? then Logic(v, fields) else LiteralKind(v)
  }

  // A comparison checks its object operands once as operands and once more for their kind.
  function Cost(v: Value): nat
    decreases v, 1
  {
    if !IsCall(v) then 1
    else 1 + (if IsComparison(Op(v)) then 2 else 1) * CostAll(v, Operands(v))
  }

  function CostAll(v: Value, ops: seq<Value>): nat
    requires forall i :: 0 <= i < |ops| ==> ops[i] < v
    decreases v, 0, |ops|
  {
    if ops == [] then 0
    else (if ops[0].Object? then Cost(ops[0]) else 0) + CostAll(v, ops[1..])
  }

  // Expression nodes: the call itself and every object operand below it.
  function ExprNodes(v: Value): nat
    decreases v, 1
  {
    if !IsCall(v) then 1 else 1 + ExprNodesAll(v, Operands(v))
  }

  function ExprNodesAll(v: Value, ops: seq<Value>): nat
    requires forall i :: 0 <= i < |ops| ==> ops[i] < v
    decreases v, 0, |ops|
  {
    if ops == [] then 0
    else (if ops[0].Object? then ExprNodes(ops[0]) else 0) + ExprNodesAll(v, ops[1..])
  }

  // How many comparisons enclose one another.
  function Nesting(v: Value): nat
    decreases v, 1
  {
    if !IsCall(v) then 0
    else (if IsComparison(Op(v)) then 1 else 0) + NestingAll(v, Operands(v))
  }

  function NestingAll(v: Value, ops: seq<Value>): nat
    requires forall i :: 0 <= i < |ops| ==> ops[i] < v
    decreases v, 0, |ops|
  {
    if ops == [] then 0
    else
      var head := if ops[0].Object? then Nesting(ops[0]) else 0;
      var rest := NestingAll(v, ops[1..]);
      if head > rest then head else rest
  }

  function Pow2(n: nat): nat {
    if n == 0 then 1 else 2 * Pow2(n - 1)
  }

  lemma Pow2Monotone(m: nat, n: nat)
    requires m <= n
    ensures 1 <= Pow2(m) <= Pow2(n)
  {
  }

  lemma OneMoreLevel(cost: nat, p: nat, nodes: nat)
    requires cost <= p * nodes && 1 <= p
    ensures 1 + cost <= p * (1 + nodes) && 1 + 2 * cost <= 2 * p * (1 + nodes)
  {
    assert p * (1 + nodes) == p + p * nodes;
    assert 2 * p * (1 + nodes) == 2 * (p * (1 + nodes));
  }

  lemma OneMoreOperand(cost: nat, more: nat, q: nat, p: nat, nodes: nat, rest: nat)
    requires cost <= q * nodes && q <= p && more <= p * rest
    ensures cost + more <= p * (nodes + rest)
  {
    assert q * nodes <= p * nodes;
    assert p * (nodes + rest) == p * nodes + p * rest;
  }

  lemma {:induction false} CostBound(v: Value)
    ensures Cost(v) <= Pow2(Nesting(v)) * ExprNodes(v)
    decreases v, 1
  {
    if IsCall(v) {
      var ops := Operands(v);
      var k := NestingAll(v, ops);
      CostAllBound(v, ops, k);
      var p, e, c := Pow2(k), ExprNodesAll(v, ops), CostAll(v, ops);
      Pow2Monotone(0, k);
      OneMoreLevel(c, p, e);
      assert Pow2(Nesting(v)) == if IsComparison(Op(v)) then 2 * p else p;
    }
  }

  lemma {:induction false} CostAllBound(v: Value, ops: seq<Value>, k: nat)
    requires forall i :: 0 <= i < |ops| ==> ops[i] < v
    requires NestingAll(v, ops) <= k
    ensures CostAll(v, ops) <= Pow2(k) * ExprNodesAll(v, ops)
    decreases v, 0, |ops|
  {
    if ops != [] {
      CostAllBound(v, ops[1..], k);
      if ops[0].Object? {
        CostBound(ops[0]);
        Pow2Monotone(Nesting(ops[0]), k);
        OneMoreOperand(Cost(ops[0]), CostAll(v, ops[1..]), Pow2(Nesting(ops[0])), Pow2(k),
                       ExprNodes(ops[0]), ExprNodesAll(v, ops[1..]));
      }
    }
  }

  // How often the nodes below are checked when this one is checked `times` times: each
  // comparison doubles what it encloses.
  function Checks(v: Value, times: nat): nat
    decreases v, 1
  {
    if !IsCall(v) then times
    else times + ChecksAll(v, Operands(v), if Op(v) in {"<", "<=", ">", ">=", "==", "!="} then 2 * times else times)
  }

  function ChecksAll(v: Value, ops: seq<Value>, times: nat): nat
    requires forall i :: 0 <= i < |ops| ==> ops[i] < v
    decreases v, 0, |ops|
  {
    if ops == [] then 0
    else (if ops[0].Object? then Checks(ops[0], times) else 0) + ChecksAll(v, ops[1..], times)
  }

  /** The work charged for an expression is the number of checks of its nodes. */
  lemma {:induction false} CostIsChecks(v: Value, times: nat)
    ensures Checks(v, times) == times * Cost(v)
    decreases v, 1
  {
    if IsCall(v) {
      var more := if IsComparison(Op(v)) then 2 * times else times;
      ChecksAllOf(v, Operands(v), more);
      var c := CostAll(v, Operands(v));
      Distribute(times, 1, if IsComparison(Op(v)) then 2 * c else c);
      Regroup(times, c);
    }
  }

  lemma Regroup(t: nat, c: nat)
    ensures t * (2 * c) == (2 * t) * c
  {
  }

  lemma Distribute(t: nat, a: nat, b: nat)
    ensures t * (a + b) == t * a + t * b
  {
  }

  lemma {:induction false} ChecksAllOf(v: Value, ops: seq<Value>, times: nat)
    requires forall i :: 0 <= i < |ops| ==> ops[i] < v
    ensures ChecksAll(v, ops, times) == times * CostAll(v, ops)
    decreases v, 0, |ops|
  {
    if ops != [] {
      ChecksAllOf(v, ops[1..], times);
      if ops[0].Object? {
        CostIsChecks(ops[0], times);
      }
      Distribute(times, if ops[0].Object? then Cost(ops[0]) else 0, CostAll(v, ops[1..]));
    }
  }

  lemma CostOfPair(v: Value, ops: seq<Value>)
    requires |ops| == 2 && forall i :: 0 <= i < |ops| ==> ops[i] < v
    ensures CostAll(v, ops)
         == (if ops[0].Object? then Cost(ops[0]) else 0) + (if ops[1].Object? then Cost(ops[1]) else 0)
  {
    assert ops[1..] == [ops[1]] && ops[1..][1..] == [];
    assert CostAll(v, []) == 0;
  }

  // ----- `logic` itself, threading the budget

  method CheckLogic(v: Value, fields: Fields, budget: Budget) returns (r: Option<Kind>)
    modifies budget
    ensures r == if old(budget.work) + Cost(v) <= MAX_WORK then Logic(v, fields) else None
    ensures r.Some? ==> budget.work == old(budget.work) + Cost(v)
    decreases v, 1
  {
    var ok := budget.Charge(1);
    if !ok || !IsCall(v) || Op(v) !in OPERATORS {
      return None;
    }
    var op, args, operands := Op(v), Args(v), Operands(v);
    var checked := CheckOperands(v, operands, fields, budget);
    if !checked {
      return None;
    }
    if op == "var" {
      return Reference(VarName(args), fields);
    }
    if IsComparison(op) {
      if !args.Array? || |operands| != 2 {
        return None;
      }
      CostOfPair(v, operands);
      r := CheckPair(v, op, operands[0], operands[1], fields, budget);
      return;
    }
    return Some(if IsBoolean(op) then KBoolean else KString);
  }

  // The kinds of both operands of a comparison, checked once more.
  method CheckPair(v: Value, op: string, x: Value, y: Value, fields: Fields, budget: Budget) returns (r: Option<Kind>)
    requires x < v && y < v && budget.work <= MAX_WORK
    modifies budget
    ensures r == if old(budget.work) + OperandCost(x) + OperandCost(y) <= MAX_WORK
                 then PairKind(op, OperandKind(x, fields), OperandKind(y, fields)) else None
    ensures r.Some? ==> budget.work == old(budget.work) + OperandCost(x) + OperandCost(y)
    decreases v, 0
  {
    var a := KindOfOperand(x, fields, budget);
    if a.None? {
      return None;
    }
    var b := KindOfOperand(y, fields, budget);
    if b.None? {
      return None;
    }
    return PairKind(op, a, b);
  }

  function OperandCost(v: Value): nat {
    if v.Object? then Cost(v) else 0
  }

  method CheckOperands(v: Value, operands: seq<Value>, fields: Fields, budget: Budget) returns (ok: bool)
    requires forall i :: 0 <= i < |operands| ==> operands[i] < v
    requires budget.work <= MAX_WORK
    modifies budget
    ensures ok <==> && old(budget.work) + CostAll(v, operands) <= MAX_WORK
                    && forall i :: 0 <= i < |operands| && operands[i].Object? ==> Logic(operands[i], fields).Some?
    ensures ok ==> budget.work == old(budget.work) + CostAll(v, operands)
    decreases v, 0
  {
    var i := 0;
    while i < |operands|
      invariant 0 <= i <= |operands|
      invariant budget.work + CostAll(v, operands[i..]) == old(budget.work) + CostAll(v, operands)
      invariant forall j :: 0 <= j < i && operands[j].Object? ==> Logic(operands[j], fields).Some?
      invariant budget.work <= MAX_WORK
    {
      assert operands[i..][1..] == operands[i + 1..];
      if operands[i].Object? {
        var k := CheckLogic(operands[i], fields, budget);
        if k.None? {
          return false;
        }
      }
      i := i + 1;
    }
    return true;
  }

  method KindOfOperand(v: Value, fields: Fields, budget: Budget) returns (r: Option<Kind>)
    modifies budget
    ensures v.Object? ==> r == if old(budget.work) + Cost(v) <= MAX_WORK then Logic(v, fields) else None
    ensures !v.Object? ==> r == LiteralKind(v) && budget.work == old(budget.work)
    ensures r.Some? && v.Object? ==> budget.work == old(budget.work) + Cost(v)
    decreases v, 2
  {
    if v.Object? {
      r := CheckLogic(v, fields, budget);
    } else {
      r := LiteralKind(v);
    }
  }

  // ----- the build's checker

  predicate IsFlat(name: string) { '.' !in name }

  // `validate_variable_lookup_name`
  predicate ValidLookup(name: string) {
    name != "" &&
    if "runtime." <= name then |name| > 8 && IsFlat(name[8..]) else IsFlat(name)
  }

  // `resolve_var_field_type`
  function BuildVar(args: Value, fields: Fields): Option<Kind> {
    var name :=
      if args.Str? then Some(args.s)
      else if args.Array? && args.items != [] && args.items[0].Str? then Some(args.items[0].s)
      else None;
    if name.Some? && ValidLookup(Trim(name.value)) && name.value in fields then Some(fields[name.value]) else None
  }

  // `validate_logic_expression`
  predicate BuildCheck(v: Value, fields: Fields)
    decreases v, 2
  {
    && IsCall(v) && Trim(Op(v)) != ""
    && if Op(v) == "literal" then true
       else if Op(v) == "var" then
         var k := BuildVar(Args(v), fields); k.Some? && !k.value.Structured()
       else BuildArguments(Args(v), fields) && BuildConstraints(Op(v), Args(v), fields)
  }

  // `validate_logic_arguments`
  predicate BuildArguments(args: Value, fields: Fields)
    decreases args, 3
  {
    match args
    case Array(items) =>
      forall i :: 0 <= i < |items| && items[i].Object? ==> BuildCheck(items[i], fields)
    case Object(_) => BuildCheck(args, fields)
    case _ => true
  }

  // `validate_operator_type_constraints`
  predicate BuildConstraints(op: string, args: Value, fields: Fields)
    decreases args, 0
  {
    IsComparison(op) ==>
      && args.Array? && |args.items| == 2
      && PairKind(op, BuildInfer(args.items[0], fields), BuildInfer(args.items[1], fields)).Some?
  }

  // `infer_logic_value_type`
  function BuildInfer(v: Value, fields: Fields): Option<Kind>
    decreases v, 1
  {
    match v
    case Str(_) => Some(KString)
    case Bool(_) => Some(KBoolean)
    case Num(n) => Some(if n.AsI64().Some? || n.IsU64() then KInteger else KNumber)
    case Array(_) => Some(KArray)
    case Null => None
    case Object(ms) =>
      if |ms| != 1 then None
      else if Op(v) == "var" then BuildVar(Args(v), fields)
      else if IsComparison(Op(v)) then
        if BuildConstraints(Op(v), Args(v), fields) then Some(KBoolean) else None
      else if IsBoolean(Op(v)) then Some(KBoolean)
      else if Op(v) == "literal" then BuildInfer(Args(v), fields)
      else Some(KString)
  }

  // ----- agreement

  // Every declared name is one the build can look up. CaptureScopes shows that
  // the tables the definition gate builds have this shape.
  ghost predicate LookupTable(fields: Fields) {
    forall name :: name in fields ==> ValidLookup(Trim(name))
  }

  // Only operators of the strict list, and only `var` defaults the strict checker types.
  ghost predicate StrictForm(v: Value, fields: Fields) {
    && IsCall(v) && Op(v) in OPERATORS
    && forall i :: 0 <= i < |Operands(v)| && Operands(v)[i].Object? ==>
         if Op(v) == "var" then Logic(Operands(v)[i], fields).Some? else StrictForm(Operands(v)[i], fields)
  }

  // Kinds the build infers may differ only between integer and number.
  ghost predicate Matching(strict: Option<Kind>, build: Option<Kind>) {
    strict.Some? ==> build.Some? && Compatible(strict.value, build.value)
  }

  lemma VarAgrees(args: Value, fields: Fields)
    requires LookupTable(fields)
    ensures var strict, build := Reference(VarName(args), fields), BuildVar(args, fields);
            && (strict.Some? <==> build.Some? && !build.value.Structured())
            && (strict.Some? ==> strict == build)
  {
  }

  lemma StrictOperatorsNamed(op: string)
    requires op in OPERATORS
    ensures Trim(op) != "" && op != "literal"
  {
    assert op != "" && !IsWhitespace(op[0]);
    TrimNonEmpty(op);
  }

  /** The strict checker accepts an expression exactly when the build accepts it
      and it stays in the strict form; the kinds then agree up to integer/number. */
  lemma {:induction false} CheckersAgree(v: Value, fields: Fields)
    requires LookupTable(fields)
    ensures Logic(v, fields).Some? <==> BuildCheck(v, fields) && StrictForm(v, fields)
    ensures Matching(Logic(v, fields), BuildInfer(v, fields))
  {
    if IsCall(v) && Op(v) in OPERATORS {
      StrictOperatorsNamed(Op(v));
      if Op(v) == "var" {
        VarAgrees(Args(v), fields);
      } else {
        var ops := Operands(v);
        forall i | 0 <= i < |ops| && ops[i].Object?
          ensures Logic(ops[i], fields).Some? <==> BuildCheck(ops[i], fields) && StrictForm(ops[i], fields)
          ensures Matching(Logic(ops[i], fields), BuildInfer(ops[i], fields))
        {
          CheckersAgree(ops[i], fields);
        }
        CallAgrees(v, fields);
      }
    }
  }

  // A call other than `var`, given its operands.
  lemma CallAgrees(v: Value, fields: Fields)
    requires IsCall(v) && Op(v) in OPERATORS && Op(v) != "var" && OperandsAgree(v, fields)
    ensures Logic(v, fields).Some? <==> BuildCheck(v, fields) && StrictForm(v, fields)
    ensures Matching(Logic(v, fields), BuildInfer(v, fields))
  {
    StrictOperatorsNamed(Op(v));
    ArgumentsAgree(v, fields);
    if IsComparison(Op(v)) && BuildArguments(Args(v), fields) && StrictForm(v, fields) {
      ComparisonAgrees(v, fields);
    }
  }

  ghost predicate OperandsAgree(v: Value, fields: Fields)
    requires IsCall(v)
  {
    var ops := Operands(v);
    forall i :: 0 <= i < |ops| && ops[i].Object? ==>
      && (Logic(ops[i], fields).Some? <==> BuildCheck(ops[i], fields) && StrictForm(ops[i], fields))
      && Matching(Logic(ops[i], fields), BuildInfer(ops[i], fields))
  }

  lemma ArgumentsAgree(v: Value, fields: Fields)
    requires IsCall(v) && Op(v) in OPERATORS && Op(v) != "var" && OperandsAgree(v, fields)
    ensures var ops := Operands(v);
            (forall i :: 0 <= i < |ops| && ops[i].Object? ==> Logic(ops[i], fields).Some?)
            <==> BuildArguments(Args(v), fields) && StrictForm(v, fields)
  {
    var args := Args(v);
    if args.Object? {
      assert Operands(v)[0] == args;
    }
  }

  lemma OperandAgrees(v: Value, fields: Fields, i: nat)
    requires IsCall(v) && OperandsAgree(v, fields) && i < |Operands(v)|
    requires Operands(v)[i].Object? ==> Logic(Operands(v)[i], fields).Some?
    ensures var (a, b) := (OperandKind(Operands(v)[i], fields), BuildInfer(Operands(v)[i], fields));
            (a.Some? <==> b.Some?) && Matching(a, b)
  {
  }

  lemma PairAgrees(op: string, a: Option<Kind>, b: Option<Kind>, c: Option<Kind>, d: Option<Kind>)
    requires IsComparison(op) && (a.Some? <==> c.Some?) && Matching(a, c) && (b.Some? <==> d.Some?) && Matching(b, d)
    ensures PairKind(op, a, b) == PairKind(op, c, d)
  {
  }

  lemma ComparisonKind(v: Value, fields: Fields)
    requires IsCall(v) && IsComparison(Op(v))
    requires forall i :: 0 <= i < |Operands(v)| && Operands(v)[i].Object? ==> Logic(Operands(v)[i], fields).Some?
    ensures Logic(v, fields)
         == if Args(v).Array? && |Operands(v)| == 2
            then PairKind(Op(v), OperandKind(Operands(v)[0], fields), OperandKind(Operands(v)[1], fields)) else None
  {
  }

  lemma ComparisonAgrees(v: Value, fields: Fields)
    requires IsCall(v) && IsComparison(Op(v)) && OperandsAgree(v, fields)
    requires forall i :: 0 <= i < |Operands(v)| && Operands(v)[i].Object? ==> Logic(Operands(v)[i], fields).Some?
    ensures Logic(v, fields).Some? <==> BuildConstraints(Op(v), Args(v), fields)
    ensures Matching(Logic(v, fields), BuildInfer(v, fields))
  {
    ComparisonKind(v, fields);
    if Args(v).Array? && |Operands(v)| == 2 {
      var (x, y) := (Operands(v)[0], Operands(v)[1]);
      OperandAgrees(v, fields, 0);
      OperandAgrees(v, fields, 1);
      PairAgrees(Op(v), OperandKind(x, fields), OperandKind(y, fields), BuildInfer(x, fields), BuildInfer(y, fields));
    }
  }

  // ----- the typing rules, apart from both checkers

  const NUMERIC: set<Kind> := {KInteger, KNumber}

  // The operand kinds a comparison takes.
  predicate Takes(op: string, a: Kind, b: Kind) {
    if op in {"<", "<=", ">", ">="} then a in NUMERIC && b in NUMERIC
    else a == b || (a in NUMERIC && b in NUMERIC)
  }

  // One rule for each form of value and each group of operators.
  ghost predicate HasKind(v: Value, fields: Fields, k: Kind)
    decreases v, 1
  {
    match v
    case Null => false
    case Bool(_) => k == KBoolean
    case Num(n) => k == if n.Int? && n.i < 0x8000_0000_0000_0000 then KInteger else KNumber
    case Str(_) => k == KString
    case Array(_) => k == KArray
    case Object(ms) =>
      && |ms| == 1
      && var (op, args) := (ms[0].key, ms[0].value);
         if op == "var" then
           && (args.Array? ==> args.items != [] && forall i :: 1 <= i < |args.items| ==> Typed(args.items[i], fields))
           && var name := if args.Array? then args.items[0] else args;
              && name.Str? && Trim(name.s) != "" && name.s in fields
              && k == fields[name.s] && k in {KString, KBoolean, KInteger, KNumber}
         else
           && (args.Object? ==> Typed(args, fields))
           && (args.Array? ==> forall i :: 0 <= i < |args.items| ==> Typed(args.items[i], fields))
           && if op in {"<", "<=", ">", ">=", "==", "!="} then
                && k == KBoolean && args.Array? && |args.items| == 2
                && exists a, b :: HasKind(args.items[0], fields, a) && HasKind(args.items[1], fields, b) && Takes(op, a, b)
              else if op in {"and", "or", "!"} then k == KBoolean
              else k == KString && op in UNTYPED
  }

  // The operators whose result is used as text.
  const UNTYPED: set<string> := {
    "===", "!==", "!!", "if", "missing", "missing_some", "min", "max", "+", "-", "*", "/", "%", "in", "cat", "substr",
    "log", "merge", "map", "filter", "reduce", "all", "some", "none"}

  // An operand: an object must have a kind, a literal may be anything.
  ghost predicate Typed(v: Value, fields: Fields)
    decreases v, 2
  {
    v.Object? ==> exists k :: HasKind(v, fields, k)
  }

  lemma PairTaken(op: string, a: Option<Kind>, b: Option<Kind>)
    requires IsComparison(op)
    ensures PairKind(op, a, b) == Some(KBoolean)
       <==> exists x, y :: a == Some(x) && b == Some(y) && Takes(op, x, y)
    ensures PairKind(op, a, b).Some? ==> PairKind(op, a, b) == Some(KBoolean)
  {
    assert a.Some? ==> (a.value.Numeric() <==> a.value in NUMERIC);
    assert b.Some? ==> (b.value.Numeric() <==> b.value in NUMERIC);
  }

  lemma OperatorGroups(op: string)
    ensures op in OPERATORS <==> op == "var" || IsComparison(op) || IsBoolean(op) || op in UNTYPED
    ensures op in UNTYPED ==> op != "var" && !IsComparison(op) && !IsBoolean(op)
  {
  }

  // What the induction gives for the operands of a call.
  ghost predicate OperandsTyped(v: Value, fields: Fields)
    requires IsCall(v)
  {
    forall i {:trigger Operands(v)[i]} :: 0 <= i < |Operands(v)| ==>
      var x := Operands(v)[i];
      && (Typed(x, fields) <==> x.Object? ==> Logic(x, fields).Some?)
      && forall k :: OperandKind(x, fields) == Some(k) <==> HasKind(x, fields, k)
  }

  lemma OperandsChecked(v: Value, fields: Fields)
    requires IsCall(v) && OperandsTyped(v, fields)
    ensures (forall i :: 0 <= i < |Operands(v)| && Operands(v)[i].Object? ==> Logic(Operands(v)[i], fields).Some?)
       <==> forall i :: 0 <= i < |Operands(v)| ==> Typed(Operands(v)[i], fields)
  {
  }

  lemma DefaultOperands(v: Value, fields: Fields)
    requires IsCall(v) && Op(v) == "var"
    ensures var args := Args(v);
            (forall i :: 0 <= i < |Operands(v)| ==> Typed(Operands(v)[i], fields))
            <==> (args.Array? ==> forall i :: 1 <= i < |args.items| ==> Typed(args.items[i], fields))
  {
    var args := Args(v);
    if args.Array? && args.items != [] {
      assert forall i :: 1 <= i < |args.items| ==> args.items[i] == Operands(v)[i - 1];
      assert forall i :: 0 <= i < |Operands(v)| ==> Operands(v)[i] == args.items[i + 1];
    }
  }

  lemma VarTyped(v: Value, fields: Fields, k: Kind)
    requires IsCall(v) && Op(v) == "var" && OperandsTyped(v, fields)
    ensures Logic(v, fields) == Some(k) <==> HasKind(v, fields, k)
  {
    OperandsChecked(v, fields);
    DefaultOperands(v, fields);
  }

  // For the other operators, the operands as the rules list them.
  lemma ListedOperands(v: Value, fields: Fields)
    requires IsCall(v) && Op(v) != "var"
    ensures var args := Args(v);
            (forall i :: 0 <= i < |Operands(v)| ==> Typed(Operands(v)[i], fields))
            <==> && (args.Object? ==> Typed(args, fields))
                 && (args.Array? ==> forall i :: 0 <= i < |args.items| ==> Typed(args.items[i], fields))
  {
    if Args(v).Array? {
      assert Operands(v) == Args(v).items;
    } else {
      assert Operands(v) == [Args(v)] && Operands(v)[0] == Args(v);
    }
  }

  lemma PairTyped(op: string, x: Value, y: Value, fields: Fields)
    requires IsComparison(op)
    requires forall k :: OperandKind(x, fields) == Some(k) <==> HasKind(x, fields, k)
    requires forall k :: OperandKind(y, fields) == Some(k) <==> HasKind(y, fields, k)
    ensures PairKind(op, OperandKind(x, fields), OperandKind(y, fields)) == Some(KBoolean)
       <==> exists a, b :: HasKind(x, fields, a) && HasKind(y, fields, b) && Takes(op, a, b)
  {
    PairTaken(op, OperandKind(x, fields), OperandKind(y, fields));
  }

  // The rule for comparisons, with the operands as the checker lists them.
  lemma ComparisonRule(v: Value, fields: Fields, k: Kind)
    requires IsCall(v) && IsComparison(Op(v))
    ensures HasKind(v, fields, k)
       <==> && k == KBoolean && Args(v).Array? && |Operands(v)| == 2
            && (forall i :: 0 <= i < |Operands(v)| ==> Typed(Operands(v)[i], fields))
            && exists a, b :: HasKind(Operands(v)[0], fields, a) && HasKind(Operands(v)[1], fields, b) && Takes(Op(v), a, b)
  {
    assert Args(v).Array? ==> Operands(v) == Args(v).items;
  }

  lemma ComparisonTyped(v: Value, fields: Fields, k: Kind)
    requires IsCall(v) && IsComparison(Op(v)) && OperandsTyped(v, fields)
    ensures Logic(v, fields) == Some(k) <==> HasKind(v, fields, k)
  {
    ComparisonRule(v, fields, k);
    OperandsChecked(v, fields);
    if Args(v).Array? && |Operands(v)| == 2 {
      var (x, y) := (Operands(v)[0], Operands(v)[1]);
      PairTyped(Op(v), x, y, fields);
      PairTaken(Op(v), OperandKind(x, fields), OperandKind(y, fields));
    }
    if forall i :: 0 <= i < |Operands(v)| && Operands(v)[i].Object? ==> Logic(Operands(v)[i], fields).Some? {
      ComparisonKind(v, fields);
    } else {
      assert Logic(v, fields).None?;
    }
  }

  lemma OtherTyped(v: Value, fields: Fields, k: Kind)
    requires IsCall(v) && Op(v) != "var" && !IsComparison(Op(v)) && OperandsTyped(v, fields)
    ensures Logic(v, fields) == Some(k) <==> HasKind(v, fields, k)
  {
    OperatorGroups(Op(v));
    OperandsChecked(v, fields);
    ListedOperands(v, fields);
  }

  lemma ObjectTyped(x: Value, fields: Fields)
    requires forall k :: OperandKind(x, fields) == Some(k) <==> HasKind(x, fields, k)
    ensures Typed(x, fields) <==> (x.Object? ==> Logic(x, fields).Some?)
  {
    if x.Object? && Logic(x, fields).Some? {
      assert OperandKind(x, fields) == Some(Logic(x, fields).value);
    }
  }

  /** The strict checker gives a value exactly the kind the rules give it. */
  lemma {:induction false} LogicIffTyped(v: Value, fields: Fields, k: Kind)
    ensures OperandKind(v, fields) == Some(k) <==> HasKind(v, fields, k)
    decreases v
  {
    if IsCall(v) {
      forall i, j | 0 <= i < |Operands(v)|
        ensures OperandKind(Operands(v)[i], fields) == Some(j) <==> HasKind(Operands(v)[i], fields, j)
      {
        LogicIffTyped(Operands(v)[i], fields, j);
      }
      forall i | 0 <= i < |Operands(v)|
        ensures Typed(Operands(v)[i], fields)
           <==> (Operands(v)[i].Object? ==> Logic(Operands(v)[i], fields).Some?)
      {
        ObjectTyped(Operands(v)[i], fields);
      }
      if Op(v) == "var" {
        VarTyped(v, fields, k);
      } else if IsComparison(Op(v)) {
        ComparisonTyped(v, fields, k);
      } else {
        OtherTyped(v, fields, k);
      }
    }
  }

  /** The build's checker takes the same operand kinds, of what it infers. */
  lemma BuildComparisonIff(v: Value, fields: Fields)
    requires IsCall(v) && Op(v) in {"<", "<=", ">", ">=", "==", "!="}
    ensures BuildCheck(v, fields)
       <==> && Args(v).Array? && |Args(v).items| == 2
            && (forall i :: 0 <= i < 2 && Args(v).items[i].Object? ==> BuildCheck(Args(v).items[i], fields))
            && exists a, b :: && BuildInfer(Args(v).items[0], fields) == Some(a)
                              && BuildInfer(Args(v).items[1], fields) == Some(b) && Takes(Op(v), a, b)
    ensures BuildCheck(v, fields) ==> BuildInfer(v, fields) == Some(KBoolean)
  {
    OperatorGroups(Op(v));
    StrictOperatorsNamed(Op(v));
    if Args(v).Array? && |Args(v).items| == 2 {
      PairTaken(Op(v), BuildInfer(Args(v).items[0], fields), BuildInfer(Args(v).items[1], fields));
    }
  }

  // A plain name, or one with the prefix of runtime variables.
  ghost predicate NamedBy(name: string, plain: string) {
    (name == plain || name == "runtime." + plain) && plain != "" && '.' !in plain
  }

  /** The names the build looks up: plain ones and prefixed plain ones. */
  lemma LookupIff(name: string)
    ensures ValidLookup(name) <==> exists plain :: NamedBy(name, plain)
  {
    if "runtime." <= name {
      assert name == "runtime." + name[8..] && name[7] == '.';
      if ValidLookup(name) {
        assert NamedBy(name, name[8..]);
      }
      if plain :| NamedBy(name, plain) {
        assert name == "runtime." + plain ==> name[8..] == plain;
      }
    } else if ValidLookup(name) {
      assert NamedBy(name, name);
    }
  }

  /** The build infers the kind of a literal, whole numbers past 63 bits as integers. */
  lemma LiteralInferred(v: Value, fields: Fields)
    requires !v.Object?
    ensures BuildInfer(v, fields)
         == match v
            case Null => None
            case Bool(_) => Some(KBoolean)
            case Num(n) => Some(if n.Int? then KInteger else KNumber)
            case Str(_) => Some(KString)
            case _ => Some(KArray)
  {
  }

  /** Apart from comparisons and `var`, the build accepts any named operator over accepted
      arguments; a literal is accepted whatever it holds, and has the kind of that. */
  lemma BuildOtherIff(op: string, args: Value, fields: Fields)
    requires op !in {"<", "<=", ">", ">=", "==", "!=", "var"}
    ensures var v := Object([Member(op, args)]);
            && (BuildCheck(v, fields) <==>
                  || op == "literal"
                  || (&& Trim(op) != "" && (args.Object? ==> BuildCheck(args, fields))
                      && (args.Array? ==>
                            forall i :: 0 <= i < |args.items| && args.items[i].Object? ==> BuildCheck(args.items[i], fields))))
            && BuildInfer(v, fields)
               == if op == "literal" then BuildInfer(args, fields)
                  else Some(if op in {"and", "or", "!"} then KBoolean else KString)
  {
    var v := Object([Member(op, args)]);
    assert Op(v) == op && Args(v) == args;
    if op == "literal" {
      TrimNonEmpty(op);
    }
  }

  // ----- more fields never invalidate an accepted expression

  ghost predicate Extends(small: Fields, large: Fields) {
    forall name :: name in small ==> name in large && large[name] == small[name]
  }

  lemma {:induction false} MoreFieldsKeepKind(v: Value, small: Fields, large: Fields)
    requires Extends(small, large) && Logic(v, small).Some?
    ensures Logic(v, large) == Logic(v, small)
  {
    var ops := Operands(v);
    forall i | 0 <= i < |ops| && ops[i].Object?
      ensures Logic(ops[i], large) == Logic(ops[i], small)
    {
      MoreFieldsKeepKind(ops[i], small, large);
    }
  }
}
