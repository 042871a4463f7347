/** Rubric properties. The strict validator compares their numbers exactly; the
    interpreter's own validator, which the program never applies to them, would compare
    doubles. This module says exactly when that would make a difference. */
module Rubrics {
  import opened Text
  import opened Json
  import opened Kinds
  import opened Rounding
  import opened Schemas
  import opened Outputs
  import opened SchemaLaws
  import opened SchemaAgreement

  const MIN_INT: int := -0x8000_0000_0000_0000
  const PAST_INT: int := 0x1_0000_0000_0000_0000

  // A value a double can hold: below 2^53 the fraction does not matter here.
  predicate IsDouble(f: real) {
    || -(TWO_53 as real) < f < TWO_53 as real
    || (f == f.Floor as real && RoundToDouble(f.Floor) == f)
  }

  // A number as serde_json holds it.
  predicate JsonNumber(x: Number) {
    if x.Int? then MIN_INT <= x.i < PAST_INT else IsDouble(x.f)
  }

  // The schema of a rubric property as the interpreter holds it.
  ghost predicate IsRubric(n: Value) {
    && n.Object? && HasKey(n, "rubric") && !HasKey(n, "enum")
    && SchemaType(n, true) == Some(FieldType(KNumber, false)) && RuntimeType(n) == Some((KNumber.Name(), false))
    && HasKey(n, "minimum") && Get(n, "minimum").value.Num?
    && HasKey(n, "maximum") && Get(n, "maximum").value.Num?
    && !HasKey(n, "exclusiveMinimum") && !HasKey(n, "exclusiveMaximum")
  }

  lemma RubricRange(n: Value, x: Number)
    requires IsRubric(n)
    ensures var (low, high) := (Get(n, "minimum").value.n, Get(n, "maximum").value.n);
            && (StrictOutput(Num(x), n) <==> low.Exact() <= x.Exact() <= high.Exact())
            && (RuntimeOutput(Num(x), n) <==> low.AsF64() <= x.AsF64() <= high.AsF64())
  {
    StrictScalar(n, FieldType(KNumber, false), Num(x));
    RuntimeScalar(n, FieldType(KNumber, false), Num(x));
  }

  // The integer just above, and just below, a bound.
  function Above(x: Number): int {
    if x.Int? then x.i + 1 else x.f.Floor + 1
  }

  function Below(x: Number): int {
    if x.Int? then x.i - 1 else -(-x.f).Floor - 1
  }

  // No number above the bound rounds down to it. Past the integers of serde_json only
  // the bound itself must be a double.
  predicate UpperExact(x: Number) {
    || RoundToDouble(Above(x)) > x.AsF64()
    || (!(MIN_INT <= Above(x) < PAST_INT) && x.AsF64() == x.Exact())
  }

  predicate LowerExact(x: Number) {
    || RoundToDouble(Below(x)) < x.AsF64()
    || (!(MIN_INT <= Below(x) < PAST_INT) && x.AsF64() == x.Exact())
  }

  // ----- comparing exactly and as doubles

  lemma IntToFloatOrder(i: int, f: real)
    requires IsDouble(f) && i as real <= f
    ensures RoundToDouble(i) <= f
  {
    if -(TWO_53 as real) < f < TWO_53 as real {
      if i < -TWO_53 {
        RoundKeepsOrder(i, -TWO_53);
        SmallStays(-TWO_53);
      } else {
        SmallStays(i);
      }
    } else {
      RoundKeepsOrder(i, f.Floor);
    }
  }

  lemma FloatToIntOrder(f: real, i: int)
    requires IsDouble(f) && f <= i as real
    ensures f <= RoundToDouble(i)
  {
    if -(TWO_53 as real) < f < TWO_53 as real {
      if i > TWO_53 {
        RoundKeepsOrder(TWO_53, i);
        SmallStays(TWO_53);
      } else {
        SmallStays(i);
      }
    } else {
      RoundKeepsOrder(f.Floor, i);
    }
  }

  /** Rounding to doubles keeps the order of the numbers of JSON. */
  lemma AsF64KeepsOrder(x: Number, y: Number)
    requires JsonNumber(x) && JsonNumber(y) && x.Exact() <= y.Exact()
    ensures x.AsF64() <= y.AsF64()
  {
    match (x, y)
    case (Int(i), Int(j)) => RoundKeepsOrder(i, j);
    case (Int(i), Float(g)) => IntToFloatOrder(i, g);
    case (Float(f), Int(j)) => FloatToIntOrder(f, j);
    case _ =>
  }

  // Past an exact bound, numbers stay past it as doubles.
  lemma UpperSeparates(h: Number, x: Number)
    requires JsonNumber(h) && JsonNumber(x) && UpperExact(h) && h.Exact() < x.Exact()
    ensures h.AsF64() < x.AsF64()
  {
    if RoundToDouble(Above(h)) > h.AsF64() {
      if x.Int? {
        RoundKeepsOrder(Above(h), x.i);
      } else if h.Int? && x.f <= h.AsF64() {
        // Then h + 1 is no more than what h rounds to, so it rounds no further.
        RoundKeepsOrder(h.i + 1, Rounded(h.i));
        RoundedStays(h.i);
      }
    } else if x.Int? {
      RoundKeepsOrder(MIN_INT, x.i);
      EndsStay();
    }
  }

  lemma LowerSeparates(l: Number, x: Number)
    requires JsonNumber(l) && JsonNumber(x) && LowerExact(l) && x.Exact() < l.Exact()
    ensures x.AsF64() < l.AsF64()
  {
    if RoundToDouble(Below(l)) < l.AsF64() {
      if x.Int? {
        RoundKeepsOrder(x.i, Below(l));
      } else if l.Int? && l.AsF64() <= x.f {
        RoundKeepsOrder(Rounded(l.i), l.i - 1);
        RoundedStays(l.i);
      }
    } else if x.Int? {
      RoundKeepsOrder(x.i, PAST_INT);
      EndsStay();
    }
  }

  // A bound that is not exact has a number just past it that rounds onto it.
  lemma UpperWitness(h: Number) returns (x: Number)
    requires JsonNumber(h) && !UpperExact(h)
    ensures JsonNumber(x) && h.Exact() < x.Exact() && x.AsF64() == h.AsF64()
  {
    if MIN_INT <= Above(h) < PAST_INT {
      x := Int(Above(h));
      AsF64KeepsOrder(h, x);
    } else {
      x := Float(PAST_INT as real);
      EndsStay();
      RoundKeepsOrder(h.i, PAST_INT);
    }
  }

  lemma LowerWitness(l: Number) returns (x: Number)
    requires JsonNumber(l) && !LowerExact(l)
    ensures JsonNumber(x) && x.Exact() < l.Exact() && x.AsF64() == l.AsF64()
  {
    EndsStay();
    x := Int(Below(l));
    AsF64KeepsOrder(x, l);
  }

  // ----- the two validators

  // The bounds of a rubric, in order as doubles, as the descriptor demands.
  ghost predicate Bounded(n: Value, low: Number, high: Number) {
    && IsRubric(n) && Get(n, "minimum") == Some(Num(low)) && Get(n, "maximum") == Some(Num(high))
    && JsonNumber(low) && JsonNumber(high) && low.AsF64() < high.AsF64()
  }

  /** On a rubric schema the validators agree on every number of JSON if and only if
      rounding moves no number onto either bound. */
  lemma RubricAgreeIff(n: Value, low: Number, high: Number)
    requires Bounded(n, low, high)
    ensures LowerExact(low) && UpperExact(high)
       <==> forall x :: JsonNumber(x) ==> StrictOutput(Num(x), n) == RuntimeOutput(Num(x), n)
  {
    if LowerExact(low) && UpperExact(high) {
      forall x | JsonNumber(x) ensures StrictOutput(Num(x), n) == RuntimeOutput(Num(x), n) {
        RubricAgreeOn(n, low, high, x);
      }
    } else {
      var x := RubricDisagree(n, low, high);
    }
  }

  lemma RubricAgreeOn(n: Value, low: Number, high: Number, x: Number)
    requires Bounded(n, low, high) && LowerExact(low) && UpperExact(high) && JsonNumber(x)
    ensures StrictOutput(Num(x), n) == RuntimeOutput(Num(x), n)
  {
    RubricRange(n, x);
    if x.Exact() < low.Exact() {
      LowerSeparates(low, x);
    } else {
      AsF64KeepsOrder(low, x);
    }
    if high.Exact() < x.Exact() {
      UpperSeparates(high, x);
    } else {
      AsF64KeepsOrder(x, high);
    }
  }

  lemma RubricDisagree(n: Value, low: Number, high: Number) returns (x: Number)
    requires Bounded(n, low, high) && !(LowerExact(low) && UpperExact(high))
    ensures JsonNumber(x) && !StrictOutput(Num(x), n) && RuntimeOutput(Num(x), n)
  {
    if !UpperExact(high) {
      x := UpperWitness(high);
    } else {
      x := LowerWitness(low);
    }
    RubricRange(n, x);
  }

  // ----- parsed rubrics have this form, and some are not exact

  lemma ParsedIsRubric(impl: Impl, o: Value)
    requires Descriptor(o, TopLevel, true).Some? && HasKey(o, "rubric")
    ensures ParseTopLevel(impl, o, true).Some?
    ensures var n := Object(ParseTopLevel(impl, o, true).value.members);
            IsRubric(n) && Get(n, "minimum") == Get(o, "minimum") && Get(n, "maximum") == Get(o, "maximum")
  {
    RubricKeeps(impl, o);
    RubricTyped(o);
    RubricForm(o, Object(ParseTopLevel(impl, o, true).value.members));
  }

  lemma RubricForm(o: Value, n: Value)
    requires o.Object? && n.Object? && HasKey(o, "rubric") && !HasKey(o, "enum")
    requires HasKey(o, "minimum") && Get(o, "minimum").value.Num?
    requires HasKey(o, "maximum") && Get(o, "maximum").value.Num?
    requires !HasKey(o, "exclusiveMinimum") && !HasKey(o, "exclusiveMaximum")
    requires Get(n, "type") == Some(TypeValue(FieldType(KNumber, false)))
    requires Get(n, "rubric") == Get(o, "rubric") && Get(n, "enum") == Get(o, "enum")
    requires forall key :: IsBoundKey(key) ==> Get(n, key) == Get(o, key)
    ensures IsRubric(n) && Get(n, "minimum") == Get(o, "minimum") && Get(n, "maximum") == Get(o, "maximum")
  {
    BoundKeys();
    NumberTypeRead(n);
  }

  lemma NumberTypeRead(n: Value)
    requires n.Object? && Get(n, "type") == Some(TypeValue(FieldType(KNumber, false)))
    ensures SchemaType(n, true) == Some(FieldType(KNumber, false)) && RuntimeType(n) == Some((KNumber.Name(), false))
  {
    NormalTypeReadBack(n, FieldType(KNumber, false), TopLevel);
  }

  lemma RubricTyped(o: Value)
    requires Descriptor(o, TopLevel, true).Some? && HasKey(o, "rubric")
    ensures ParseFieldType(o, TopLevel) == Some(FieldType(KNumber, false))
    ensures HasKey(o, "minimum") && Get(o, "minimum").value.Num? && HasKey(o, "maximum") && Get(o, "maximum").value.Num?
    ensures !HasKey(o, "exclusiveMinimum") && !HasKey(o, "exclusiveMaximum") && !HasKey(o, "enum")
  {
    RubricBounds(o);
    DescriptorChecked(Interpreted, o, TopLevel, true);
    TypeReadBack(o, TopLevel);
  }

  lemma RoundingHides()
    ensures RoundToDouble(TWO_53) == RoundToDouble(TWO_53 + 1) == TWO_53 as real && RoundToDouble(0) == 0.0
  {
    SmallStays(TWO_53);
    SmallStays(0);
    var n := TWO_53 + 1;
    assert RoundMagnitude(n, 1) == RoundMagnitude(n, 2) == NearestMultiple(n, 2) == TWO_53;
  }

  /** The maximum 2^53 is not exact: the validators differ at 2^53 + 1. */
  lemma RubricBoundsDiffer(impl: Impl, o: Value)
    requires Descriptor(o, TopLevel, true).Some? && HasKey(o, "rubric")
    requires Get(o, "minimum") == Some(Num(Int(0))) && Get(o, "maximum") == Some(Num(Int(TWO_53)))
    ensures !UpperExact(Int(TWO_53)) && ParseTopLevel(impl, o, true).Some?
    ensures var (n, x) := (Object(ParseTopLevel(impl, o, true).value.members), Num(Int(TWO_53 + 1)));
            !StrictOutput(x, n) && RuntimeOutput(x, n)
  {
    ParsedIsRubric(impl, o);
    RubricRange(Object(ParseTopLevel(impl, o, true).value.members), Int(TWO_53 + 1));
    RoundingHides();
  }

  // There are such rubrics.
  function WideRubric(text: Value): Value {
    Object([Member("type", Str("number")), Member("description", text), Member("minimum", Num(Int(0))),
            Member("maximum", Num(Int(TWO_53))), Member("rubric", Array([text, text]))])
  }

  lemma WideRubricHas(text: Value)
    ensures var n := WideRubric(text);
            && Get(n, "type") == Some(Str("number")) && Get(n, "rubric") == Some(Array([text, text]))
            && Get(n, "description") == Some(text)
            && Get(n, "minimum") == Some(Num(Int(0))) && Get(n, "maximum") == Some(Num(Int(TWO_53)))
  {
    var ms := WideRubric(text).members;
    assert "minimum"[1] != "maximum"[1];
    assert Distinct(ms);
    FindAt(ms, 0);
    FindAt(ms, 1);
    FindAt(ms, 2);
    FindAt(ms, 3);
    FindAt(ms, 4);
  }

  lemma WideRubricLacks(text: Value)
    ensures var n := WideRubric(text);
            && !HasKey(n, "enum") && !HasKey(n, "exclusiveMinimum") && !HasKey(n, "exclusiveMaximum")
            && KeysAllowed(n, KNumber, true)
  {
  }

  lemma RubricTypeRead(o: Value)
    requires o.Object? && Get(o, "type") == Some(Str("number"))
    ensures SchemaType(o, false) == Some(FieldType(KNumber, false))
  {
    KindNameParses(KNumber);
  }

  lemma WideBounds(o: Value)
    requires o.Object? && Get(o, "minimum") == Some(Num(Int(0))) && Get(o, "maximum") == Some(Num(Int(TWO_53)))
    requires !HasKey(o, "exclusiveMinimum") && !HasKey(o, "exclusiveMaximum")
    ensures BoundsOk(o, KNumber) && BoundsLeaveRoom(o, KNumber)
    ensures Int(0).AsF64() < Int(TWO_53).AsF64()
    ensures Int(TWO_53).AsF64() - Int(0).AsF64() < SPAN_LIMIT as real
  {
    RoundingHides();
  }

  lemma WideRubricOk(o: Value, text: Value)
    requires o.Object? && NonBlank(text).Some?
    requires Get(o, "rubric") == Some(Array([text, text])) && Get(o, "description") == Some(text)
    requires Get(o, "minimum") == Some(Num(Int(0))) && Get(o, "maximum") == Some(Num(Int(TWO_53)))
    requires !HasKey(o, "exclusiveMinimum") && !HasKey(o, "exclusiveMaximum")
    ensures BoundsOk(o, KNumber) && RubricOk(o, KNumber)
  {
    WideBounds(o);
  }

  lemma RubricAccepted(o: Value, text: Value)
    requires o.Object? && NonBlank(text).Some? && SchemaType(o, false) == Some(FieldType(KNumber, false))
    requires Get(o, "rubric") == Some(Array([text, text])) && Get(o, "description") == Some(text)
    requires Get(o, "minimum") == Some(Num(Int(0))) && Get(o, "maximum") == Some(Num(Int(TWO_53)))
    requires !HasKey(o, "enum") && !HasKey(o, "exclusiveMinimum") && !HasKey(o, "exclusiveMaximum")
    requires KeysAllowed(o, KNumber, true)
    ensures Descriptor(o, TopLevel, true) == Some(KNumber)
  {
    WideBounds(o);
    WideRubricOk(o, text);
    assert LevelOk(o, TopLevel, true, KNumber);
  }

  lemma WideRubricAccepted(text: Value)
    requires NonBlank(text).Some?
    ensures Descriptor(WideRubric(text), TopLevel, true) == Some(KNumber)
  {
    WideRubricHas(text);
    WideRubricLacks(text);
    RubricTypeRead(WideRubric(text));
    RubricAccepted(WideRubric(text), text);
  }
}
