/** The checker's scalar and structured kinds. */
module Kinds {
  import opened Text
  import opened Json

  datatype Kind = KString | KBoolean | KInteger | KNumber | KArray | KObject {
    predicate Structured() { KArray? || KObject? }
    predicate Numeric() { KInteger? || KNumber? }

    // `Kind::matches`; doubles held by serde_json are always finite.
    predicate Matches(v: Value) {
      match this
      case KString => v.Str?
      case KBoolean => v.Bool?
      case KInteger => v.Num? && v.n.AsI64().Some?
      case KNumber => v.Num?
      case KArray => v.Array?
      case KObject => v.Object?
    }

    function Name(): string {
      match this
      case KString => "string"
      case KBoolean => "boolean"
      case KInteger => "integer"
      case KNumber => "number"
      case KArray => "array"
      case KObject => "object"
    }
  }

  // A kind named exactly.
  function NamedKind(s: string): Option<Kind> {
    if s == "string" then Some(KString)
    else if s == "boolean" then Some(KBoolean)
    else if s == "integer" then Some(KInteger)
    else if s == "number" then Some(KNumber)
    else if s == "array" then Some(KArray)
    else if s == "object" then Some(KObject)
    else None
  }

  // Type names are compared after trimming and ASCII lowercasing.
  function Normal(s: string): string {
    AsciiLower(Trim(s))
  }

  function ParseKind(s: string): Option<Kind> {
    NamedKind(Normal(s))
  }

  lemma KindNameParses(k: Kind)
    ensures NamedKind(k.Name()) == Some(k)
    ensures Normal(k.Name()) == k.Name() && k.Name() != "null"
  {
    assert |k.Name()| > 0;
    NormalOfPlain(k.Name());
  }

  // A word of lowercase letters is its own normal form.
  lemma NormalOfPlain(s: string)
    requires s != [] && forall i :: 0 <= i < |s| ==> 'a' <= s[i] <= 'z'
    ensures Normal(s) == s
  {
  }

  function NonBlank(v: Value): Option<string> {
    if v.Str? && Trim(v.s) != "" then Some(v.s) else None
  }
}
