/** JSON values as the Rust code sees them through serde_json. An object is a
    sequence of members, so that member order is visible to the model; maps built
    by serde_json never repeat a key, which `WellFormed` records. */
module Json {
  import opened Text

  const I64_MAX: int := 0x7FFF_FFFF_FFFF_FFFF
  const TWO_53: int := 0x20_0000_0000_0000

  // serde_json stores an integer in [-2^63, 2^64) or a finite double.
  datatype Number = Int(i: int) | Float(f: real)
  {
    function AsI64(): Option<int> {
      if Int? && i <= I64_MAX then Some(i) else None
    }

    predicate IsU64() {
      Int? && 0 <= i
    }

    function AsF64(): real {
      if Int? then RoundToDouble(i) else f
    }

    // The mathematical value, with no rounding.
    function Exact(): real {
      if Int? then i as real else f
    }
  }

  // The choice between two neighbouring multiples, by quotient and remainder: the
  // nearer one, ties to the even one.
  function Pick(k: nat, rest: nat, q: nat): nat {
    if 2 * rest < q || (2 * rest == q && k % 2 == 0) then k * q else (k + 1) * q
  }

  // The nearest multiple of q.
  function NearestMultiple(n: nat, q: nat): nat
    requires q > 0
  {
    Pick(n / q, n % q, q)
  }

  function RoundMagnitude(n: nat, q: nat): nat
    requires q > 0
    decreases n - q
  {
    if n <= q || n <= q * TWO_53 then NearestMultiple(n, q) else RoundMagnitude(n, 2 * q)
  }

  // `integer as f64`: round to 53 significant bits, ties to even.
  function RoundToDouble(n: int): real {
    if n >= 0 then RoundMagnitude(n, 1) as real else -(RoundMagnitude(-n, 1) as real)
  }

  datatype Value =
    | Null
    | Bool(b: bool)
    | Num(n: Number)
    | Str(s: string)
    | Array(items: seq<Value>)
    | Object(members: seq<Member>)

  datatype Member = Member(key: string, value: Value)

  ghost predicate Distinct(ms: seq<Member>) {
    forall i, j :: 0 <= i < j < |ms| ==> ms[i].key != ms[j].key
  }

  ghost predicate WellFormed(v: Value) {
    match v
    case Array(items) => forall i :: 0 <= i < |items| ==> WellFormed(items[i])
    case Object(ms) => Distinct(ms) && forall i :: 0 <= i < |ms| ==> WellFormed(ms[i].value)
    case _ => true
  }

  // `Map::get`.
  function Find(ms: seq<Member>, key: string): (r: Option<Value>)
    ensures r.Some? <==> exists i :: 0 <= i < |ms| && ms[i].key == key
    ensures r.Some? ==> exists i :: 0 <= i < |ms| && ms[i] == Member(key, r.value)
  {
    if ms == [] then None
    else if ms[0].key == key then Some(ms[0].value)
    else
      var r := Find(ms[1..], key);
      assert forall i :: 0 <= i < |ms[1..]| ==> ms[1..][i] == ms[i + 1];
      r
  }

  // `Value::get`: nothing in what is not an object.
  function Lookup(v: Value, key: string): Option<Value> {
    if v.Object? then Find(v.members, key) else None
  }

  predicate Has(ms: seq<Member>, key: string) {
    Find(ms, key).Some?
  }

  lemma FindAt(ms: seq<Member>, i: nat)
    requires Distinct(ms) && i < |ms|
    ensures Find(ms, ms[i].key) == Some(ms[i].value)
  {
    if i > 0 {
      FindAt(ms[1..], i - 1);
    }
  }

  // `Map::insert`: replace the value under an existing key, append a new key.
  function Put(ms: seq<Member>, key: string, value: Value): (r: seq<Member>)
    ensures |ms| <= |r|
    ensures Find(ms, key) == Some(value) ==> r == ms
  {
    if ms == [] then [Member(key, value)]
    else if ms[0].key == key then [Member(key, value)] + ms[1..]
    else [ms[0]] + Put(ms[1..], key, value)
  }

  lemma {:induction false} PutFind(ms: seq<Member>, key: string, value: Value, k: string)
    ensures Find(Put(ms, key, value), k) == if k == key then Some(value) else Find(ms, k)
  {
    var r := Put(ms, key, value);
    if ms == [] {
      assert r[1..] == [];
    } else if ms[0].key == key {
      assert r[1..] == ms[1..];
    } else {
      assert r[1..] == Put(ms[1..], key, value);
      PutFind(ms[1..], key, value, k);
    }
  }

  lemma {:induction false} PutDistinct(ms: seq<Member>, key: string, value: Value)
    requires Distinct(ms)
    ensures Distinct(Put(ms, key, value))
  {
    if ms != [] && ms[0].key != key {
      PutDistinct(ms[1..], key, value);
      PutFind(ms[1..], key, value, ms[0].key);
    }
  }

  // `Map::insert` of a well-formed value keeps an object well formed.
  lemma {:induction false} PutWellFormed(ms: seq<Member>, key: string, value: Value)
    requires WellFormed(Object(ms)) && WellFormed(value)
    ensures WellFormed(Object(Put(ms, key, value)))
  {
    PutDistinct(ms, key, value);
    PutValues(ms, key, value);
  }

  lemma {:induction false} PutValues(ms: seq<Member>, key: string, value: Value)
    requires WellFormed(value) && forall i :: 0 <= i < |ms| ==> WellFormed(ms[i].value)
    ensures forall i :: 0 <= i < |Put(ms, key, value)| ==> WellFormed(Put(ms, key, value)[i].value)
  {
    if ms != [] && ms[0].key != key {
      PutValues(ms[1..], key, value);
    }
  }

  lemma {:induction false} FindValue(ms: seq<Member>, key: string)
    requires Has(ms, key) && forall i :: 0 <= i < |ms| ==> WellFormed(ms[i].value)
    ensures WellFormed(Find(ms, key).value)
  {
    if ms[0].key != key {
      FindValue(ms[1..], key);
    }
  }
}
