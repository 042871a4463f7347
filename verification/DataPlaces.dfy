/** Places of a JSON value: what a path names, the order a reader meets them in, and which
    limit a value exceeds first. */
module DataPlaces {
  import opened Text
  import opened Json
  import opened Canonical
  import opened Budgets

  datatype Step = Field(key: string) | Index(i: nat)
  type Path = seq<Step>

  datatype Limit = JsonNodes | NestingDepth | StringBytes | ArrayEntries | ObjectMembers | KeyBytes | DecodedTextBytes
  datatype LimitError = LimitError(limit: Limit, path: Path)

  // A value at its path, `depth` levels below where a walk started.
  datatype Entry = Entry(value: Value, path: Path, depth: nat)

  // ----- what a path names

  function At(v: Value, path: Path): Option<Value>
    decreases |path|
  {
    if path == [] then Some(v)
    else
      match (path[0], v)
      case (Field(key), Object(ms)) =>
        if Find(ms, key).Some? then At(Find(ms, key).value, path[1..]) else None
      case (Index(i), Array(items)) =>
        if i < |items| then At(items[i], path[1..]) else None
      case _ => None
  }

  // A parent comes before what is below it, entries by index, members by key.
  predicate Earlier(a: Path, b: Path)
    decreases |a|
  {
    b != [] &&
    (a == [] ||
     match (a[0], b[0])
     case (Index(i), Index(j)) => i < j || (i == j && Earlier(a[1..], b[1..]))
     case (Field(k), Field(l)) => Less(k, l) || (k == l && Earlier(a[1..], b[1..]))
     case _ => false)
  }

  // ----- all places in order

  // The places of a value, itself first; members in key order.
  function Places(v: Value, path: Path, depth: nat): (r: seq<Entry>)
    ensures r != []
    decreases v, 1
  {
    [Entry(v, path, depth)] +
    match v
    case Array(items) => ItemPlaces(v, items, 0, path, depth + 1)
    case Object(ms) =>
      SortedBelow(v);
      MemberPlaces(v, SortMembers(ms), path, depth + 1)
    case _ => []
  }

  function ItemPlaces(o: Value, items: seq<Value>, from: nat, path: Path, depth: nat): seq<Entry>
    requires forall i :: 0 <= i < |items| ==> items[i] < o
    decreases o, 0, |items|
  {
    if items == [] then []
    else Places(items[0], path + [Index(from)], depth) + ItemPlaces(o, items[1..], from + 1, path, depth)
  }

  function MemberPlaces(o: Value, ms: seq<Member>, path: Path, depth: nat): seq<Entry>
    requires forall i :: 0 <= i < |ms| ==> ms[i].value < o
    decreases o, 0, |ms|
  {
    if ms == [] then []
    else Places(ms[0].value, path + [Field(ms[0].key)], depth) + MemberPlaces(o, ms[1..], path, depth)
  }

  lemma {:induction false} InsertKeeps(m: Member, ms: seq<Member>)
    ensures forall i :: 0 <= i < |Insert(m, ms)| ==> Insert(m, ms)[i] == m || Insert(m, ms)[i] in ms
  {
    if ms != [] && !Less(m.key, ms[0].key) {
      InsertKeeps(m, ms[1..]);
    }
  }

  lemma {:induction false} SortKeeps(ms: seq<Member>)
    ensures forall i :: 0 <= i < |SortMembers(ms)| ==> SortMembers(ms)[i] in ms
  {
    if ms != [] {
      SortKeeps(ms[1..]);
      InsertKeeps(ms[0], SortMembers(ms[1..]));
    }
  }

  lemma SortedBelow(v: Value)
    requires v.Object?
    ensures forall i :: 0 <= i < |SortMembers(v.members)| ==> SortMembers(v.members)[i].value < v
  {
    SortKeeps(v.members);
  }

  lemma ObjectParts(v: Value, path: Path, depth: nat)
    requires v.Object?
    requires forall i :: 0 <= i < |SortMembers(v.members)| ==> SortMembers(v.members)[i].value < v
    ensures Places(v, path, depth) == [Entry(v, path, depth)] + MemberPlaces(v, SortMembers(v.members), path, depth + 1)
  {
  }

  lemma ArrayParts(v: Value, path: Path, depth: nat)
    requires v.Array?
    ensures Places(v, path, depth) == [Entry(v, path, depth)] + ItemPlaces(v, v.items, 0, path, depth + 1)
  {
  }

  // ----- running totals

  // Bytes of a string, or of the keys of an object.
  function OwnBytes(v: Value): nat {
    match v
    case Str(s) => ByteLen(s)
    case Object(ms) => AllKeyBytes(ms)
    case _ => 0
  }

  function AllKeyBytes(ms: seq<Member>): nat {
    if ms == [] then 0 else ByteLen(ms[0].key) + AllKeyBytes(ms[1..])
  }

  // The text of the first k places.
  function TextUpTo(places: seq<Entry>, k: nat): nat
    requires k <= |places|
  {
    if k == 0 then 0 else TextUpTo(places, k - 1) + OwnBytes(places[k - 1].value)
  }

  // ----- which limits place number k exceeds

  ghost predicate Exceeds(places: seq<Entry>, k: nat, e: LimitError)
    requires k < |places|
  {
    var (v, path) := (places[k].value, places[k].path);
    match e.limit
    case JsonNodes => e.path == path && k + 1 > MAX_NODES
    case NestingDepth => e.path == path && places[k].depth > MAX_DEPTH
    case StringBytes => e.path == path && v.Str? && ByteLen(v.s) > MAX_STRING_BYTES
    case ArrayEntries => e.path == path && v.Array? && |v.items| > MAX_COLLECTION
    case ObjectMembers => e.path == path && v.Object? && |v.members| > MAX_COLLECTION
    case KeyBytes =>
      // of several keys over the limit, the last one
      && v.Object?
      && exists key ::
           && e.path == path + [Field(key)] && Has(v.members, key) && ByteLen(key) > MAX_KEY_BYTES
           && forall other :: Has(v.members, other) && Less(key, other) ==> ByteLen(other) <= MAX_KEY_BYTES
    case DecodedTextBytes => e.path == path && TextUpTo(places, k + 1) > MAX_TEXT_BYTES
  }

  // At one place, the limits are looked at in this order.
  function Turn(limit: Limit): nat {
    match limit
    case JsonNodes => 0
    case NestingDepth => 1
    case StringBytes => 2
    case ArrayEntries => 2
    case ObjectMembers => 2
    case KeyBytes => 3
    case DecodedTextBytes => 4
  }

  // The first limit exceeded at the first place that exceeds one.
  ghost predicate FirstExcess(places: seq<Entry>, e: LimitError) {
    exists k :: 0 <= k < |places| && ExceedsFirst(places, k, e)
  }

  ghost predicate ExceedsFirst(places: seq<Entry>, k: nat, e: LimitError)
    requires k < |places|
  {
    && Exceeds(places, k, e)
    && (forall d :: Exceeds(places, k, d) ==> Turn(e.limit) <= Turn(d.limit))
    && forall j, d :: 0 <= j < k ==> !Exceeds(places, j, d)
  }

  // ----- what the list of places is

  ghost predicate NamesIts(v: Value, root: Path, depth: nat, e: Entry) {
    && root <= e.path && At(v, e.path[|root|..]) == Some(e.value) && e.depth == depth + |e.path| - |root|
  }

  /** Every place of the list is named by its path. */
  lemma {:induction false} PlacesNamed(v: Value, root: Path, depth: nat, e: Entry)
    requires WellFormed(v) && e in Places(v, root, depth)
    ensures NamesIts(v, root, depth, e)
    decreases v, 1
  {
    if e != Entry(v, root, depth) {
      match v
      case Array(items) => ItemNamed(v, items, 0, root, depth, e);
      case Object(ms) =>
        SortedBelow(v);
        SortKeeps(ms);
        SortProperties(ms);
        SortedDistinct(SortMembers(ms));
        MemberNamed(v, SortMembers(ms), root, depth, e);
      case _ =>
    }
  }

  lemma StepDown(v: Value, root: Path, step: Step, child: Value, depth: nat, e: Entry)
    requires NamesIts(child, root + [step], depth + 1, e)
    requires At(v, [step]) == Some(child)
    ensures NamesIts(v, root, depth, e)
  {
    var rel := e.path[|root|..];
    assert e.path[|root + [step]|..] == rel[1..];
    assert rel[0] == e.path[|root|] == (root + [step])[|root|];
    assert [step][1..] == [];
    assert At(child, []) == Some(child);
  }

  lemma {:induction false} ItemNamed(v: Value, items: seq<Value>, from: nat, root: Path, depth: nat, e: Entry)
    requires WellFormed(v) && v.Array? && from <= |v.items| && items == v.items[from..]
    requires e in ItemPlaces(v, items, from, root, depth + 1)
    ensures NamesIts(v, root, depth, e)
    decreases v, 0, |items|
  {
    if e in Places(items[0], root + [Index(from)], depth + 1) {
      PlacesNamed(items[0], root + [Index(from)], depth + 1, e);
      StepDown(v, root, Index(from), items[0], depth, e);
    } else {
      ItemNamed(v, items[1..], from + 1, root, depth, e);
    }
  }

  lemma {:induction false} MemberNamed(v: Value, ms: seq<Member>, root: Path, depth: nat, e: Entry)
    requires WellFormed(v) && v.Object?
    requires forall i :: 0 <= i < |ms| ==> ms[i] in v.members
    requires forall i :: 0 <= i < |ms| ==> ms[i].value < v
    requires e in MemberPlaces(v, ms, root, depth + 1)
    ensures NamesIts(v, root, depth, e)
    decreases v, 0, |ms|
  {
    var (m, step) := (ms[0], Field(ms[0].key));
    if e in Places(m.value, root + [step], depth + 1) {
      var i :| 0 <= i < |v.members| && v.members[i] == m;
      FindAt(v.members, i);
      PlacesNamed(m.value, root + [step], depth + 1, e);
      assert At(v, [step]) == At(m.value, [step][1..]);
      StepDown(v, root, step, m.value, depth, e);
    } else {
      MemberNamed(v, ms[1..], root, depth, e);
    }
  }

  // The entry a path names.
  function Named(v: Value, root: Path, depth: nat, path: Path): Entry
    requires At(v, path).Some?
  {
    Entry(At(v, path).value, root + path, depth + |path|)
  }

  // The entry is the same seen from the child.
  lemma NamedBelow(v: Value, root: Path, depth: nat, step: Step, child: Value, path: Path)
    requires At(child, path).Some? && At(v, [step] + path) == At(child, path)
    ensures Named(v, root, depth, [step] + path) == Named(child, root + [step], depth + 1, path)
  {
    assert root + ([step] + path) == root + [step] + path;
  }

  /** Every path that names something is the path of a place of the list. */
  lemma {:induction false} PlacesComplete(v: Value, root: Path, depth: nat, path: Path)
    requires WellFormed(v) && At(v, path).Some?
    ensures Named(v, root, depth, path) in Places(v, root, depth)
    decreases |path|, 1
  {
    if path == [] {
      assert root + path == root;
    } else {
      var (step, rest) := (path[0], path[1..]);
      assert path == [step] + rest;
      match v
      case Array(_) => ItemComplete(v, root, depth, step.i, rest);
      case Object(ms) => MemberComplete(v, root, depth, step.key, rest);
      case _ =>
    }
  }

  lemma {:induction false} ItemComplete(v: Value, root: Path, depth: nat, i: nat, rest: Path)
    requires WellFormed(v) && v.Array? && i < |v.items| && At(v.items[i], rest).Some?
    ensures At(v, [Index(i)] + rest) == At(v.items[i], rest)
    ensures Named(v, root, depth, [Index(i)] + rest) in Places(v, root, depth)
    decreases |rest| + 1, 0
  {
    var (step, child) := (Index(i), v.items[i]);
    PlacesComplete(child, root + [step], depth + 1, rest);
    assert ([step] + rest)[1..] == rest;
    NamedBelow(v, root, depth, step, child, rest);
    ItemListed(v, v.items, 0, root, depth + 1, i, Named(v, root, depth, [step] + rest));
  }

  lemma {:induction false} MemberComplete(v: Value, root: Path, depth: nat, key: string, rest: Path)
    requires WellFormed(v) && v.Object? && Has(v.members, key) && At(Find(v.members, key).value, rest).Some?
    ensures At(v, [Field(key)] + rest) == At(Find(v.members, key).value, rest)
    ensures Named(v, root, depth, [Field(key)] + rest) in Places(v, root, depth)
    decreases |rest| + 1, 0
  {
    var (step, child) := (Field(key), Find(v.members, key).value);
    SortedBelow(v);
    SortProperties(v.members);
    FindValue(v.members, key);
    PlacesComplete(child, root + [step], depth + 1, rest);
    assert ([step] + rest)[1..] == rest;
    NamedBelow(v, root, depth, step, child, rest);
    MemberListed(v, SortMembers(v.members), root, depth + 1, key, Named(v, root, depth, [step] + rest));
  }

  lemma {:induction false} ItemListed(o: Value, items: seq<Value>, from: nat, path: Path, depth: nat, i: nat, e: Entry)
    requires forall j :: 0 <= j < |items| ==> items[j] < o
    requires from <= i < from + |items| && e in Places(items[i - from], path + [Index(i)], depth)
    ensures e in ItemPlaces(o, items, from, path, depth)
    decreases |items|
  {
    if from < i {
      ItemListed(o, items[1..], from + 1, path, depth, i, e);
    }
  }

  lemma {:induction false} MemberListed(o: Value, ms: seq<Member>, path: Path, depth: nat, key: string, e: Entry)
    requires forall i :: 0 <= i < |ms| ==> ms[i].value < o
    requires Has(ms, key) && e in Places(Find(ms, key).value, path + [Field(key)], depth)
    ensures e in MemberPlaces(o, ms, path, depth)
    decreases |ms|
  {
    if ms[0].key != key {
      MemberListed(o, ms[1..], path, depth, key, e);
    }
  }

  // ----- the order of the list

  ghost predicate InOrder(places: seq<Entry>) {
    forall i, j :: 0 <= i < j < |places| ==> Earlier(places[i].path, places[j].path)
  }

  lemma OrderAppend(a: seq<Entry>, b: seq<Entry>)
    requires InOrder(a) && InOrder(b)
    requires forall x, y :: x in a && y in b ==> Earlier(x.path, y.path)
    ensures InOrder(a + b)
  {
  }

  predicate StepEarlier(a: Step, b: Step) {
    match (a, b)
    case (Index(i), Index(j)) => i < j
    case (Field(k), Field(l)) => Less(k, l)
    case _ => false
  }

  lemma {:induction false} EarlierBelow(root: Path, a: Path, b: Path)
    requires root <= a && root <= b && |root| < |b|
    requires |a| == |root| || StepEarlier(a[|root|], b[|root|])
    ensures Earlier(a, b)
    decreases |root|
  {
    if root != [] {
      assert a[0] == root[0] == b[0];
      EarlierBelow(root[1..], a[1..], b[1..]);
    }
  }

  // Below a step of `root`.
  ghost predicate Below(root: Path, step: Step, path: Path) {
    |root| < |path| && root <= path && path[|root|] == step
  }

  lemma {:induction false} PlacesBelow(v: Value, root: Path, depth: nat, e: Entry)
    requires e in Places(v, root, depth)
    ensures root <= e.path && (e != Entry(v, root, depth) ==> |root| < |e.path|)
    decreases v, 1
  {
    if e != Entry(v, root, depth) {
      match v
      case Array(items) => var i := ItemsBelow(v, items, 0, root, depth + 1, e);
      case Object(ms) =>
        SortedBelow(v);
        var m := MembersBelow(v, SortMembers(ms), root, depth + 1, e);
      case _ =>
    }
  }

  lemma {:induction false} ItemsBelow(o: Value, items: seq<Value>, from: nat, root: Path, depth: nat, e: Entry)
    returns (i: nat)
    requires forall j :: 0 <= j < |items| ==> items[j] < o
    requires e in ItemPlaces(o, items, from, root, depth)
    ensures from <= i && Below(root, Index(i), e.path)
    decreases o, 0, |items|
  {
    if e in Places(items[0], root + [Index(from)], depth) {
      PlacesBelow(items[0], root + [Index(from)], depth, e);
      assert (root + [Index(from)])[|root|] == Index(from);
      return from;
    }
    i := ItemsBelow(o, items[1..], from + 1, root, depth, e);
  }

  lemma {:induction false} MembersBelow(o: Value, ms: seq<Member>, root: Path, depth: nat, e: Entry)
    returns (m: Member)
    requires forall j :: 0 <= j < |ms| ==> ms[j].value < o
    requires e in MemberPlaces(o, ms, root, depth)
    ensures m in ms && Below(root, Field(m.key), e.path)
    decreases o, 0, |ms|
  {
    if e in Places(ms[0].value, root + [Field(ms[0].key)], depth) {
      PlacesBelow(ms[0].value, root + [Field(ms[0].key)], depth, e);
      assert (root + [Field(ms[0].key)])[|root|] == Field(ms[0].key);
      return ms[0];
    }
    m := MembersBelow(o, ms[1..], root, depth, e);
  }

  /** The list is in order: parents first, entries by index, members by key. */
  lemma {:induction false} PlacesInOrder(v: Value, root: Path, depth: nat)
    requires WellFormed(v)
    ensures InOrder(Places(v, root, depth))
    decreases v, 1
  {
    var top := [Entry(v, root, depth)];
    match v
    case Array(items) =>
      var rest := ItemPlaces(v, items, 0, root, depth + 1);
      ItemsInOrder(v, items, 0, root, depth + 1);
      forall y | y in rest ensures Earlier(root, y.path) {
        var i := ItemsBelow(v, items, 0, root, depth + 1, y);
        EarlierBelow(root, root, y.path);
      }
      OrderAppend(top, rest);
    case Object(ms) =>
      SortedBelow(v);
      SortKeeps(ms);
      SortProperties(ms);
      var rest := MemberPlaces(v, SortMembers(ms), root, depth + 1);
      MembersInOrder(v, SortMembers(ms), root, depth + 1);
      forall y | y in rest ensures Earlier(root, y.path) {
        var m := MembersBelow(v, SortMembers(ms), root, depth + 1, y);
        EarlierBelow(root, root, y.path);
      }
      OrderAppend(top, rest);
    case _ =>
  }

  lemma {:induction false} ItemsInOrder(o: Value, items: seq<Value>, from: nat, root: Path, depth: nat)
    requires forall j :: 0 <= j < |items| ==> items[j] < o && WellFormed(items[j])
    ensures InOrder(ItemPlaces(o, items, from, root, depth))
    decreases o, 0, |items|
  {
    if items != [] {
      var (step, more) := (root + [Index(from)], ItemPlaces(o, items[1..], from + 1, root, depth));
      var here := Places(items[0], step, depth);
      PlacesInOrder(items[0], step, depth);
      ItemsInOrder(o, items[1..], from + 1, root, depth);
      forall x, y | x in here && y in more ensures Earlier(x.path, y.path) {
        PlacesBelow(items[0], step, depth, x);
        assert step[|root|] == Index(from);
        var i := ItemsBelow(o, items[1..], from + 1, root, depth, y);
        EarlierBelow(root, x.path, y.path);
      }
      OrderAppend(here, more);
    }
  }

  lemma {:induction false} MembersInOrder(o: Value, ms: seq<Member>, root: Path, depth: nat)
    requires Sorted(ms) && forall j :: 0 <= j < |ms| ==> ms[j].value < o && WellFormed(ms[j].value)
    ensures InOrder(MemberPlaces(o, ms, root, depth))
    decreases o, 0, |ms|
  {
    if ms != [] {
      var (step, more) := (root + [Field(ms[0].key)], MemberPlaces(o, ms[1..], root, depth));
      var here := Places(ms[0].value, step, depth);
      PlacesInOrder(ms[0].value, step, depth);
      MembersInOrder(o, ms[1..], root, depth);
      forall x, y | x in here && y in more ensures Earlier(x.path, y.path) {
        PlacesBelow(ms[0].value, step, depth, x);
        assert step[|root|] == Field(ms[0].key);
        var m := MembersBelow(o, ms[1..], root, depth, y);
        EarlierBelow(root, x.path, y.path);
      }
      OrderAppend(here, more);
    }
  }
}
