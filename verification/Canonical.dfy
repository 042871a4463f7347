/** Canonical JSON: object members in key order at every level. */
module Canonical {
  import opened Text
  import opened Json

  // Two values that differ only in the order of object members, at any level.
  ghost predicate SameUpToOrder(a: Value, b: Value) {
    match (a, b)
    case (Array(xs), Array(ys)) =>
      |xs| == |ys| && forall i :: 0 <= i < |xs| ==> SameUpToOrder(xs[i], ys[i])
    case (Object(xs), Object(ys)) =>
      && (forall k :: Has(xs, k) <==> Has(ys, k))
      && forall i {:trigger xs[i].value} :: 0 <= i < |xs| ==>
           var f := Find(ys, xs[i].key);
           f.Some? && SameUpToOrder(xs[i].value, f.value)
    case _ => a == b
  }

  ghost predicate Sorted(ms: seq<Member>) {
    forall i, j :: 0 <= i < j < |ms| ==> Less(ms[i].key, ms[j].key)
  }

  function Insert(m: Member, ms: seq<Member>): (r: seq<Member>)
    ensures |r| == |ms| + 1
  {
    if ms == [] || Less(m.key, ms[0].key) then [m] + ms else [ms[0]] + Insert(m, ms[1..])
  }

  // `ordered_entries` and the key sort of `canonicalize_json_value`.
  function SortMembers(ms: seq<Member>): (r: seq<Member>)
    ensures |r| == |ms|
  {
    if ms == [] then [] else Insert(ms[0], SortMembers(ms[1..]))
  }

  function Canonicalize(v: Value): Value {
    match v
    case Array(items) =>
      Array(seq(|items|, i requires 0 <= i < |items| => Canonicalize(items[i])))
    case Object(ms) =>
      Object(SortMembers(
        seq(|ms|, i requires 0 <= i < |ms| => Member(ms[i].key, Canonicalize(ms[i].value)))))
    case _ => v
  }

  function CanonicalizeAll(ms: seq<Member>): (r: seq<Member>)
    ensures |r| == |ms|
  {
    seq(|ms|, i requires 0 <= i < |ms| => Member(ms[i].key, Canonicalize(ms[i].value)))
  }

  lemma InsertProperties(m: Member, ms: seq<Member>)
    requires Sorted(ms) && !Has(ms, m.key)
    ensures Sorted(Insert(m, ms))
    ensures forall k :: Find(Insert(m, ms), k) == if k == m.key then Some(m.value) else Find(ms, k)
  {
    if ms != [] {
      LessTotal(m.key, ms[0].key);
      if Less(m.key, ms[0].key) {
        forall j | 0 <= j < |ms|
          ensures Less(m.key, ms[j].key)
        {
          if j > 0 { LessTransitive(m.key, ms[0].key, ms[j].key); }
        }
      } else {
        InsertProperties(m, ms[1..]);
        var rest := Insert(m, ms[1..]);
        forall j | 0 <= j < |rest|
          ensures Less(ms[0].key, rest[j].key)
        {
          assert Find(rest, rest[j].key).Some?;
        }
        assert ([ms[0]] + rest)[1..] == rest;
      }
    }
  }

  lemma SortProperties(ms: seq<Member>)
    requires Distinct(ms)
    ensures Sorted(SortMembers(ms))
    ensures forall k :: Find(SortMembers(ms), k) == Find(ms, k)
  {
    if ms != [] {
      SortProperties(ms[1..]);
      InsertProperties(ms[0], SortMembers(ms[1..]));
    }
  }

  lemma SortedDistinct(ms: seq<Member>)
    requires Sorted(ms)
    ensures Distinct(ms)
  {
    forall i, j | 0 <= i < j < |ms| ensures ms[i].key != ms[j].key {
      LessIrreflexive(ms[i].key);
    }
  }

  // Sorted members with the same lookups are the same sequence.
  lemma SortedUnique(a: seq<Member>, b: seq<Member>)
    requires Sorted(a) && Sorted(b)
    requires forall k :: Find(a, k) == Find(b, k)
    ensures a == b
  {
    SortedDistinct(a);
    SortedDistinct(b);
    assert a != [] ==> Has(a, a[0].key);
    assert b != [] ==> Has(b, b[0].key);
    if a != [] && b != [] {
      HeadKeysAgree(a, b);
      FindAt(a, 0);
      forall k
        ensures Find(a[1..], k) == Find(b[1..], k)
      {
        if k == a[0].key {
          assert !Has(a[1..], k) && !Has(b[1..], k);
        } else {
          assert Find(a, k) == Find(b, k);
        }
      }
      SortedUnique(a[1..], b[1..]);
      assert a == [a[0]] + a[1..] && b == [b[0]] + b[1..];
    }
  }

  lemma HeadKeysAgree(a: seq<Member>, b: seq<Member>)
    requires Sorted(a) && Sorted(b) && a != [] && b != []
    requires forall k :: Has(a, k) <==> Has(b, k)
    ensures a[0].key == b[0].key
  {
    assert Has(a, a[0].key) && Has(b, b[0].key);
    var i :| 0 <= i < |b| && b[i].key == a[0].key;
    var j :| 0 <= j < |a| && a[j].key == b[0].key;
    if i > 0 && j > 0 {
      LessTransitive(a[0].key, b[0].key, a[0].key);
      LessIrreflexive(a[0].key);
    }
  }

  lemma SortOfSorted(ms: seq<Member>)
    requires Sorted(ms)
    ensures SortMembers(ms) == ms
  {
    SortedDistinct(ms);
    SortProperties(ms);
    SortedUnique(SortMembers(ms), ms);
  }

  lemma FindCanonical(ms: seq<Member>, key: string)
    ensures Find(CanonicalizeAll(ms), key)
         == if Has(ms, key) then Some(Canonicalize(Find(ms, key).value)) else None
  {
    if ms != [] && ms[0].key != key {
      assert CanonicalizeAll(ms)[1..] == CanonicalizeAll(ms[1..]);
      FindCanonical(ms[1..], key);
    }
  }

  // Sorting looks at keys only, so it commutes with canonicalizing the values.
  lemma SortCommutes(ms: seq<Member>)
    requires Distinct(ms)
    ensures SortMembers(CanonicalizeAll(ms)) == CanonicalizeAll(SortMembers(ms))
  {
    SortProperties(ms);
    SortProperties(CanonicalizeAll(ms));
    forall k
      ensures Find(SortMembers(CanonicalizeAll(ms)), k) == Find(CanonicalizeAll(SortMembers(ms)), k)
    {
      FindCanonical(ms, k);
      FindCanonical(SortMembers(ms), k);
    }
    SortedUnique(SortMembers(CanonicalizeAll(ms)), CanonicalizeAll(SortMembers(ms)));
  }

  lemma ObjectCanonical(ms: seq<Member>)
    ensures Canonicalize(Object(ms)) == Object(SortMembers(CanonicalizeAll(ms)))
  {
  }

  lemma {:induction false} SameImpliesEqual(a: Value, b: Value)
    requires WellFormed(a) && WellFormed(b) && SameUpToOrder(a, b)
    ensures Canonicalize(a) == Canonicalize(b)
  {
    match (a, b)
    case (Array(xs), Array(ys)) =>
      forall i | 0 <= i < |xs| { SameImpliesEqual(xs[i], ys[i]); }
    case (Object(xs), Object(ys)) =>
      var p, q := CanonicalizeAll(xs), CanonicalizeAll(ys);
      SortProperties(p);
      SortProperties(q);
      forall k
        ensures Find(SortMembers(p), k) == Find(SortMembers(q), k)
      {
        FindCanonical(xs, k);
        FindCanonical(ys, k);
        if Has(xs, k) {
          var i :| 0 <= i < |xs| && xs[i].key == k;
          FindAt(xs, i);
          FindValue(ys, k);
          SameImpliesEqual(xs[i].value, Find(ys, k).value);
        } else {
          assert !Has(ys, k);
        }
      }
      SortedUnique(SortMembers(p), SortMembers(q));
    case _ =>
  }

  lemma {:induction false} EqualImpliesSame(a: Value, b: Value)
    requires WellFormed(a) && WellFormed(b) && Canonicalize(a) == Canonicalize(b)
    ensures SameUpToOrder(a, b)
  {
    match (a, b)
    case (Array(xs), Array(ys)) =>
      var p, q := Canonicalize(a).items, Canonicalize(b).items;
      forall i | 0 <= i < |xs|
        ensures SameUpToOrder(xs[i], ys[i])
      {
        assert p[i] == q[i];
        EqualImpliesSame(xs[i], ys[i]);
      }
    case (Object(xs), Object(ys)) =>
      SortProperties(CanonicalizeAll(xs));
      SortProperties(CanonicalizeAll(ys));
      forall k
        ensures Has(xs, k) <==> Has(ys, k)
        ensures Has(xs, k) ==> Canonicalize(Find(xs, k).value) == Canonicalize(Find(ys, k).value)
      {
        FindCanonical(xs, k);
        FindCanonical(ys, k);
        assert Find(SortMembers(CanonicalizeAll(xs)), k) == Find(SortMembers(CanonicalizeAll(ys)), k);
      }
      forall i | 0 <= i < |xs|
        ensures Has(ys, xs[i].key) && SameUpToOrder(xs[i].value, Find(ys, xs[i].key).value)
      {
        FindAt(xs, i);
        FindValue(ys, xs[i].key);
        EqualImpliesSame(xs[i].value, Find(ys, xs[i].key).value);
      }
    case _ =>
  }

  /** The canonical form is a unique normal form. */
  lemma CanonicalIffSame(a: Value, b: Value)
    requires WellFormed(a) && WellFormed(b)
    ensures Canonicalize(a) == Canonicalize(b) <==> SameUpToOrder(a, b)
  {
    if SameUpToOrder(a, b) {
      SameImpliesEqual(a, b);
    }
    if Canonicalize(a) == Canonicalize(b) {
      EqualImpliesSame(a, b);
    }
  }

  lemma {:induction false} CanonicalizeIdempotent(v: Value)
    requires WellFormed(v)
    ensures Canonicalize(Canonicalize(v)) == Canonicalize(v)
  {
    match v
    case Array(items) =>
      forall i | 0 <= i < |items| { CanonicalizeIdempotent(items[i]); }
    case Object(ms) =>
      var c := CanonicalizeAll(ms);
      SortProperties(c);
      forall i | 0 <= i < |ms| { CanonicalizeIdempotent(ms[i].value); }
      assert CanonicalizeAll(c) == c;
      SortKeepsCanonical(c);
      SortOfSorted(SortMembers(c));
    case _ =>
  }

  // Canonical members stay canonical when sorted.
  lemma SortKeepsCanonical(c: seq<Member>)
    requires Distinct(c) && CanonicalizeAll(c) == c
    ensures CanonicalizeAll(SortMembers(c)) == SortMembers(c)
  {
    SortCommutes(c);
  }

  // Members are in key order at every level.
  ghost predicate InKeyOrder(v: Value) {
    match v
    case Array(items) => forall i :: 0 <= i < |items| ==> InKeyOrder(items[i])
    case Object(ms) => Sorted(ms) && forall i :: 0 <= i < |ms| ==> InKeyOrder(ms[i].value)
    case _ => true
  }

  /** Canonicalizing yields key order everywhere and changes nothing but member order. */
  lemma CanonicalKeepsMeaning(v: Value)
    requires WellFormed(v)
    ensures InKeyOrder(Canonicalize(v)) && WellFormed(Canonicalize(v))
    ensures SameUpToOrder(v, Canonicalize(v))
  {
    CanonicalWellFormed(v);
    CanonicalizeIdempotent(v);
    CanonicalIffSame(v, Canonicalize(v));
  }

  lemma {:induction false} CanonicalWellFormed(v: Value)
    requires WellFormed(v)
    ensures WellFormed(Canonicalize(v)) && InKeyOrder(Canonicalize(v))
  {
    match v
    case Array(items) =>
      forall i | 0 <= i < |items| { CanonicalWellFormed(items[i]); }
    case Object(ms) =>
      var c := CanonicalizeAll(ms);
      forall i | 0 <= i < |ms| { CanonicalWellFormed(ms[i].value); }
      SortProperties(c);
      SortedDistinct(SortMembers(c));
      forall i | 0 <= i < |ms|
        ensures WellFormed(SortMembers(c)[i].value) && InKeyOrder(SortMembers(c)[i].value)
      {
        FindAt(SortMembers(c), i);
        var j :| 0 <= j < |c| && c[j] == SortMembers(c)[i];
      }
    case _ =>
  }
}
