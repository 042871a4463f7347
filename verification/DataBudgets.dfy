/** `data_budget`: the explicit-stack walk that bounds every JSON value before
    anything else inspects it. */
module DataBudgets {
  import opened Text
  import opened Json
  import opened Canonical
  import opened Budgets
  import opened Sums
  import opened DataPlaces

  datatype Outcome = Passed(nodes: nat) | Failed(error: LimitError)
  datatype Visited = Stop(error: LimitError) | Go(pushed: seq<Entry>, bytes: nat)

  // ----- what the limits mean, by recursion on the value

  function Nodes(v: Value): (n: nat)
    ensures n >= 1
    decreases v, 1
  {
    match v
    case Array(items) => 1 + ItemNodes(items)
    case Object(ms) => 1 + MemberNodes(ms)
    case _ => 1
  }

  function ItemNodes(items: seq<Value>): nat
    decreases items, 0
  {
    if items == [] then 0 else Nodes(items[0]) + ItemNodes(items[1..])
  }

  function MemberNodes(ms: seq<Member>): nat
    decreases ms, 0
  {
    if ms == [] then 0 else Nodes(ms[0].value) + MemberNodes(ms[1..])
  }

  // Bytes of all strings and keys.
  function TextBytes(v: Value): nat
    decreases v, 1
  {
    match v
    case Str(s) => ByteLen(s)
    case Array(items) => ItemBytes(items)
    case Object(ms) => MemberBytes(ms)
    case _ => 0
  }

  function ItemBytes(items: seq<Value>): nat
    decreases items, 0
  {
    if items == [] then 0 else TextBytes(items[0]) + ItemBytes(items[1..])
  }

  function MemberBytes(ms: seq<Member>): nat
    decreases ms, 0
  {
    if ms == [] then 0 else ByteLen(ms[0].key) + TextBytes(ms[0].value) + MemberBytes(ms[1..])
  }

  // Depth, per-string, per-key and per-collection limits, for a value at `depth`.
  ghost predicate Fits(v: Value, depth: nat) {
    && depth <= MAX_DEPTH
    && match v
       case Str(s) => ByteLen(s) <= MAX_STRING_BYTES
       case Array(items) =>
         |items| <= MAX_COLLECTION && forall i :: 0 <= i < |items| ==> Fits(items[i], depth + 1)
       case Object(ms) =>
         && |ms| <= MAX_COLLECTION
         && forall i {:trigger ms[i]} :: 0 <= i < |ms| ==>
              ByteLen(ms[i].key) <= MAX_KEY_BYTES && Fits(ms[i].value, depth + 1)
       case _ => true
  }

  ghost predicate WithinLimits(v: Value) {
    && Fits(v, 0)
    && Nodes(v) <= MAX_NODES
    && TextBytes(v) <= MAX_TEXT_BYTES
  }

  // ----- the walk, one stack entry at a time

  function PushItems(items: seq<Value>, path: Path, depth: nat): seq<Entry> {
    seq(|items|, j requires 0 <= j < |items| =>
      var i := |items| - 1 - j; Entry(items[i], path + [Index(i)], depth + 1))
  }

  // Members are pushed last key first, each key being checked as it is pushed.
  function PushMembers(ms: seq<Member>, path: Path, depth: nat, pushed: seq<Entry>, bytes: nat): Visited {
    if ms == [] then Go(pushed, bytes)
    else
      var m := ms[|ms| - 1];
      var p := path + [Field(m.key)];
      if ByteLen(m.key) > MAX_KEY_BYTES then Stop(LimitError(KeyBytes, p))
      else
        PushMembers(ms[..|ms| - 1], path, depth, pushed + [Entry(m.value, p, depth + 1)], bytes + ByteLen(m.key))
  }

  function Expand(e: Entry, bytes: nat): Visited {
    match e.value
    case Str(s) =>
      if ByteLen(s) > MAX_STRING_BYTES then Stop(LimitError(StringBytes, e.path))
      else Go([], bytes + ByteLen(s))
    case Array(items) =>
      if |items| > MAX_COLLECTION then Stop(LimitError(ArrayEntries, e.path))
      else Go(PushItems(items, e.path, e.depth), bytes)
    case Object(ms) =>
      if |ms| > MAX_COLLECTION then Stop(LimitError(ObjectMembers, e.path))
      else PushMembers(SortMembers(ms), e.path, e.depth, [], bytes)
    case _ => Go([], bytes)
  }

  function Visit(e: Entry, nodes: nat, bytes: nat): Visited {
    if nodes > MAX_NODES then Stop(LimitError(JsonNodes, e.path))
    else if e.depth > MAX_DEPTH then Stop(LimitError(NestingDepth, e.path))
    else
      match Expand(e, bytes)
      case Stop(error) => Stop(error)
      case Go(pushed, b) =>
        if b > MAX_TEXT_BYTES then Stop(LimitError(DecodedTextBytes, e.path)) else Go(pushed, b)
  }

  function Run(stack: seq<Entry>, nodes: nat, bytes: nat): Outcome
    decreases MAX_NODES + 1 - nodes
  {
    if stack == [] then Passed(nodes)
    else
      match Visit(stack[|stack| - 1], nodes + 1, bytes)
      case Stop(error) => Failed(error)
      case Go(pushed, b) => Run(stack[..|stack| - 1] + pushed, nodes + 1, b)
  }

  function Walk(v: Value, path: Path): Outcome {
    Run([Entry(v, path, 0)], 0, 0)
  }

  // ----- what is left to visit

  function EntryNodes(e: Entry): nat { Nodes(e.value) }
  function EntryBytes(e: Entry): nat { TextBytes(e.value) }
  function NodesOf(m: Member): nat { Nodes(m.value) }
  function BytesOf(m: Member): nat { ByteLen(m.key) + TextBytes(m.value) }
  function KeyBytesOf(m: Member): nat { ByteLen(m.key) }
  function ValueBytesOf(m: Member): nat { TextBytes(m.value) }

  ghost predicate StackFits(stack: seq<Entry>) {
    forall i :: 0 <= i < |stack| ==> Fits(stack[i].value, stack[i].depth)
  }

  lemma {:induction false} ItemTotals(items: seq<Value>)
    ensures ItemNodes(items) == Total(items, Nodes) && ItemBytes(items) == Total(items, TextBytes)
  {
    if items != [] {
      ItemTotals(items[1..]);
    }
  }

  lemma {:induction false} MemberTotals(ms: seq<Member>)
    ensures MemberNodes(ms) == Total(ms, NodesOf) && MemberBytes(ms) == Total(ms, BytesOf)
  {
    if ms != [] {
      MemberTotals(ms[1..]);
    }
  }

  lemma {:induction false} InsertTotal(m: Member, ms: seq<Member>, w: Member -> nat)
    ensures Total(Insert(m, ms), w) == w(m) + Total(ms, w)
    ensures forall x :: x in Insert(m, ms) <==> x == m || x in ms
  {
    if ms == [] || Less(m.key, ms[0].key) {
      assert ([m] + ms)[1..] == ms;
    } else {
      InsertTotal(m, ms[1..], w);
      assert Insert(m, ms)[1..] == Insert(m, ms[1..]);
    }
  }

  lemma {:induction false} SortTotal(ms: seq<Member>, w: Member -> nat)
    ensures Total(SortMembers(ms), w) == Total(ms, w)
    ensures forall x :: x in SortMembers(ms) <==> x in ms
  {
    if ms != [] {
      SortTotal(ms[1..], w);
      InsertTotal(ms[0], SortMembers(ms[1..]), w);
    }
  }

  function MemberEntry(m: Member, path: Path, depth: nat): Entry {
    Entry(m.value, path + [Field(m.key)], depth + 1)
  }

  // In stack order: the last member first.
  function MemberEntries(ms: seq<Member>, path: Path, depth: nat): (r: seq<Entry>)
    ensures |r| == |ms|
  {
    if ms == [] then []
    else [MemberEntry(ms[|ms| - 1], path, depth)] + MemberEntries(ms[..|ms| - 1], path, depth)
  }

  lemma {:induction false} MemberEntryAt(ms: seq<Member>, path: Path, depth: nat, i: nat)
    requires i < |ms|
    ensures MemberEntries(ms, path, depth)[|ms| - 1 - i] == MemberEntry(ms[i], path, depth)
  {
    if i < |ms| - 1 {
      MemberEntryAt(ms[..|ms| - 1], path, depth, i);
    }
  }

  predicate KeysFit(ms: seq<Member>) {
    forall m :: m in ms ==> ByteLen(m.key) <= MAX_KEY_BYTES
  }

  lemma LastKey(ms: seq<Member>)
    requires ms != []
    ensures Total(ms, KeyBytesOf) == Total(ms[..|ms| - 1], KeyBytesOf) + ByteLen(ms[|ms| - 1].key)
  {
    var n := |ms| - 1;
    assert ms == ms[..n] + [ms[n]];
    TotalAppend(ms[..n], [ms[n]], KeyBytesOf);
    TotalOne(ms[n], KeyBytesOf);
  }

  lemma LastKeyFits(ms: seq<Member>)
    requires ms != []
    ensures KeysFit(ms) <==> KeysFit(ms[..|ms| - 1]) && ByteLen(ms[|ms| - 1].key) <= MAX_KEY_BYTES
  {
    var n := |ms| - 1;
    assert ms == ms[..n] + [ms[n]];
    assert forall m :: m in ms <==> m in ms[..n] || m == ms[n];
  }

  lemma {:induction false} PushMembersEffect(ms: seq<Member>, path: Path, depth: nat, pushed: seq<Entry>, bytes: nat)
    ensures var r := PushMembers(ms, path, depth, pushed, bytes);
            if KeysFit(ms)
            then r == Go(pushed + MemberEntries(ms, path, depth), bytes + Total(ms, KeyBytesOf))
            else r.Stop?
    decreases |ms|
  {
    if ms != [] {
      var n := |ms| - 1;
      var e := MemberEntry(ms[n], path, depth);
      PushMembersEffect(ms[..n], path, depth, pushed + [e], bytes + ByteLen(ms[n].key));
      LastKey(ms);
      LastKeyFits(ms);
      assert pushed + ([e] + MemberEntries(ms[..n], path, depth)) == pushed + [e] + MemberEntries(ms[..n], path, depth);
    }
  }

  lemma PushedItems(items: seq<Value>, path: Path, depth: nat)
    ensures var pushed := PushItems(items, path, depth);
            && |pushed| == |items|
            && forall i :: 0 <= i < |items| ==>
                 pushed[|items| - 1 - i].value == items[i] && pushed[|items| - 1 - i].depth == depth + 1
  {
  }

  lemma ExpandItems(items: seq<Value>, path: Path, depth: nat)
    ensures var pushed := PushItems(items, path, depth);
            && Total(pushed, EntryNodes) == ItemNodes(items)
            && Total(pushed, EntryBytes) == ItemBytes(items)
            && (StackFits(pushed) <==> forall i :: 0 <= i < |items| ==> Fits(items[i], depth + 1))
  {
    ItemTotals(items);
    PushedItems(items, path, depth);
    ReversedItems(items, PushItems(items, path, depth), depth);
  }

  // Any stack that holds the items last first.
  lemma ReversedItems(items: seq<Value>, pushed: seq<Entry>, depth: nat)
    requires |pushed| == |items|
    requires forall i :: 0 <= i < |items| ==>
               pushed[|items| - 1 - i].value == items[i] && pushed[|items| - 1 - i].depth == depth + 1
    ensures Total(pushed, EntryNodes) == Total(items, Nodes) && Total(pushed, EntryBytes) == Total(items, TextBytes)
    ensures StackFits(pushed) <==> forall i :: 0 <= i < |items| ==> Fits(items[i], depth + 1)
  {
    TotalReversed(items, pushed, Nodes, EntryNodes);
    TotalReversed(items, pushed, TextBytes, EntryBytes);
    forall j | 0 <= j < |pushed| ensures pushed[j].value == items[|items| - 1 - j] && pushed[j].depth == depth + 1 {
      assert pushed[|items| - 1 - (|items| - 1 - j)] == pushed[j];
    }
  }

  lemma MemberEntriesValues(ms: seq<Member>, path: Path, depth: nat)
    ensures var pushed := MemberEntries(ms, path, depth);
            && (forall i :: 0 <= i < |ms| ==> ms[i].value == pushed[|ms| - 1 - i].value)
            && (StackFits(pushed) <==> forall m :: m in ms ==> Fits(m.value, depth + 1))
  {
    var pushed := MemberEntries(ms, path, depth);
    forall i | 0 <= i < |ms| ensures pushed[|ms| - 1 - i] == MemberEntry(ms[i], path, depth) {
      MemberEntryAt(ms, path, depth, i);
    }
    assert forall i :: 0 <= i < |ms| ==> ms[i] in ms;
  }

  lemma ExpandMembers(ms: seq<Member>, path: Path, depth: nat)
    ensures var pushed := MemberEntries(SortMembers(ms), path, depth);
            && Total(pushed, EntryNodes) == MemberNodes(ms)
            && Total(SortMembers(ms), KeyBytesOf) + Total(pushed, EntryBytes) == MemberBytes(ms)
  {
    var sorted := SortMembers(ms);
    var pushed := MemberEntries(sorted, path, depth);
    MemberTotals(ms);
    SortTotal(ms, NodesOf);
    SortTotal(ms, BytesOf);
    MemberEntriesValues(sorted, path, depth);
    TotalReversed(sorted, pushed, NodesOf, EntryNodes);
    TotalReversed(sorted, pushed, ValueBytesOf, EntryBytes);
    TotalSplit(sorted, KeyBytesOf, ValueBytesOf, BytesOf);
  }

  lemma FitsObject(ms: seq<Member>, depth: nat)
    ensures Fits(Object(ms), depth)
       <==> && depth <= MAX_DEPTH && |ms| <= MAX_COLLECTION
            && (forall m :: m in ms ==> ByteLen(m.key) <= MAX_KEY_BYTES)
            && (forall m :: m in ms ==> Fits(m.value, depth + 1))
  {
    assert forall i :: 0 <= i < |ms| ==> ms[i] in ms;
  }

  lemma ExpandObject(ms: seq<Member>, path: Path, depth: nat, bytes: nat)
    requires depth <= MAX_DEPTH && |ms| <= MAX_COLLECTION
    ensures var r := PushMembers(SortMembers(ms), path, depth, [], bytes);
            && (r.Go? && StackFits(r.pushed) <==> Fits(Object(ms), depth))
            && (r.Go? ==>
                  && bytes <= r.bytes
                  && Total(r.pushed, EntryNodes) == MemberNodes(ms)
                  && r.bytes + Total(r.pushed, EntryBytes) == bytes + MemberBytes(ms))
  {
    var sorted := SortMembers(ms);
    ExpandMembers(ms, path, depth);
    MemberEntriesValues(sorted, path, depth);
    PushMembersEffect(sorted, path, depth, [], bytes);
    SortTotal(ms, NodesOf);
    FitsObject(ms, depth);
    assert [] + MemberEntries(sorted, path, depth) == MemberEntries(sorted, path, depth);
  }

  // One visited value: its children carry exactly what is left to account for.
  lemma ExpandEffect(e: Entry, bytes: nat)
    requires e.depth <= MAX_DEPTH
    ensures var r := Expand(e, bytes);
            && (r.Go? && StackFits(r.pushed) <==> Fits(e.value, e.depth))
            && (r.Go? ==>
                  && bytes <= r.bytes
                  && Total(r.pushed, EntryNodes) + 1 == Nodes(e.value)
                  && r.bytes + Total(r.pushed, EntryBytes) == bytes + TextBytes(e.value))
  {
    match e.value
    case Array(items) =>
      ExpandItems(items, e.path, e.depth);
    case Object(ms) =>
      if |ms| <= MAX_COLLECTION {
        ExpandObject(ms, e.path, e.depth, bytes);
      }
    case _ =>
  }

  // What a stack holds, in two parts.
  lemma StackParts(a: seq<Entry>, b: seq<Entry>)
    ensures Total(a + b, EntryNodes) == Total(a, EntryNodes) + Total(b, EntryNodes)
    ensures Total(a + b, EntryBytes) == Total(a, EntryBytes) + Total(b, EntryBytes)
    ensures StackFits(a + b) <==> StackFits(a) && StackFits(b)
  {
    TotalAppend(a, b, EntryNodes);
    TotalAppend(a, b, EntryBytes);
    StackFitsAppend(a, b);
  }

  lemma OneEntry(e: Entry)
    ensures Total([e], EntryNodes) == Nodes(e.value) && Total([e], EntryBytes) == TextBytes(e.value)
    ensures StackFits([e]) <==> Fits(e.value, e.depth)
  {
    TotalOne(e, EntryNodes);
    TotalOne(e, EntryBytes);
    assert [e][0] == e;
  }

  // What visiting one value leaves to do.
  ghost predicate VisitOk(e: Entry, nodes: nat, bytes: nat, r: Visited) {
    && (r.Go? ==>
          && nodes <= MAX_NODES && r.bytes <= MAX_TEXT_BYTES
          && Total(r.pushed, EntryNodes) + 1 == Nodes(e.value)
          && r.bytes + Total(r.pushed, EntryBytes) == bytes + TextBytes(e.value)
          && (StackFits(r.pushed) <==> Fits(e.value, e.depth)))
    && (nodes <= MAX_NODES && bytes + TextBytes(e.value) <= MAX_TEXT_BYTES && Fits(e.value, e.depth) ==> r.Go?)
  }

  lemma VisitMeaning(e: Entry, nodes: nat, bytes: nat)
    ensures VisitOk(e, nodes, bytes, Visit(e, nodes, bytes))
  {
    FitsDepth(e.value, e.depth);
    if nodes <= MAX_NODES && e.depth <= MAX_DEPTH {
      ExpandEffect(e, bytes);
    }
  }

  lemma FitsDepth(v: Value, depth: nat)
    ensures Fits(v, depth) ==> depth <= MAX_DEPTH
  {
  }

  // What the outcome of a run says.
  ghost predicate RunOk(stack: seq<Entry>, nodes: nat, bytes: nat, out: Outcome) {
    && (out.Passed? <==> && StackFits(stack)
                         && nodes + Total(stack, EntryNodes) <= MAX_NODES
                         && bytes + Total(stack, EntryBytes) <= MAX_TEXT_BYTES)
    && (out.Passed? ==> out.nodes == nodes + Total(stack, EntryNodes))
  }

  lemma TurnMeaning(below: seq<Entry>, top: Entry, nodes: nat, bytes: nat, r: Visited, out: Outcome)
    requires VisitOk(top, nodes + 1, bytes, r)
    requires r.Stop? ==> out.Failed?
    requires r.Go? ==> RunOk(below + r.pushed, nodes + 1, r.bytes, out)
    ensures RunOk(below + [top], nodes, bytes, out)
  {
    StackParts(below, [top]);
    OneEntry(top);
    if r.Go? {
      StackParts(below, r.pushed);
    }
  }

  /** A run succeeds exactly when what is left on the stack is within limits. */
  lemma {:induction false} RunMeaning(stack: seq<Entry>, nodes: nat, bytes: nat)
    requires nodes <= MAX_NODES && bytes <= MAX_TEXT_BYTES
    ensures RunOk(stack, nodes, bytes, Run(stack, nodes, bytes))
    decreases MAX_NODES + 1 - nodes
  {
    if stack != [] {
      var below, top := stack[..|stack| - 1], stack[|stack| - 1];
      assert stack == below + [top];
      var r := Visit(top, nodes + 1, bytes);
      VisitMeaning(top, nodes + 1, bytes);
      if r.Go? {
        RunMeaning(below + r.pushed, nodes + 1, r.bytes);
      }
      TurnMeaning(below, top, nodes, bytes, r, Run(stack, nodes, bytes));
    }
  }

  lemma StackFitsAppend(a: seq<Entry>, b: seq<Entry>)
    ensures StackFits(a + b) <==> StackFits(a) && StackFits(b)
  {
    assert forall i :: 0 <= i < |a| ==> (a + b)[i] == a[i];
    assert forall i :: 0 <= i < |b| ==> (a + b)[|a| + i] == b[i];
  }

  // ----- independence of member order

  function CanonicalStack(stack: seq<Entry>): seq<Entry> {
    seq(|stack|, i requires 0 <= i < |stack| => stack[i].(value := Canonicalize(stack[i].value)))
  }

  function CanonicalVisit(r: Visited): Visited {
    if r.Go? then Go(CanonicalStack(r.pushed), r.bytes) else r
  }

  lemma {:induction false} PushMembersCanonical(ms: seq<Member>, path: Path, depth: nat, pushed: seq<Entry>, bytes: nat)
    ensures PushMembers(CanonicalizeAll(ms), path, depth, CanonicalStack(pushed), bytes)
         == CanonicalVisit(PushMembers(ms, path, depth, pushed, bytes))
    decreases |ms|
  {
    if ms != [] {
      var n := |ms| - 1;
      var e := MemberEntry(ms[n], path, depth);
      PushMembersCanonical(ms[..n], path, depth, pushed + [e], bytes + ByteLen(ms[n].key));
      assert CanonicalizeAll(ms)[..n] == CanonicalizeAll(ms[..n]);
      assert CanonicalizeAll(ms)[n] == Member(ms[n].key, Canonicalize(ms[n].value));
      assert CanonicalStack(pushed + [e]) == CanonicalStack(pushed) + [e.(value := Canonicalize(e.value))];
    }
  }

  ghost predicate StackWellFormed(stack: seq<Entry>) {
    forall i :: 0 <= i < |stack| ==> WellFormed(stack[i].value)
  }

  lemma ExpandCanonicalItems(items: seq<Value>, path: Path, depth: nat)
    requires WellFormed(Array(items))
    ensures PushItems(Canonicalize(Array(items)).items, path, depth) == CanonicalStack(PushItems(items, path, depth))
    ensures StackWellFormed(PushItems(items, path, depth))
  {
  }

  lemma SortedCanonical(ms: seq<Member>)
    requires Distinct(ms)
    ensures Canonicalize(Object(ms)).Object?
    ensures SortMembers(Canonicalize(Object(ms)).members) == CanonicalizeAll(SortMembers(ms))
  {
    ObjectCanonical(ms);
    SortProperties(CanonicalizeAll(ms));
    SortOfSorted(SortMembers(CanonicalizeAll(ms)));
    SortCommutes(ms);
  }

  lemma MemberEntriesWellFormed(ms: seq<Member>, path: Path, depth: nat)
    requires forall m :: m in ms ==> WellFormed(m.value)
    ensures StackWellFormed(MemberEntries(ms, path, depth))
  {
    var stack := MemberEntries(ms, path, depth);
    forall j | 0 <= j < |stack| ensures WellFormed(stack[j].value) {
      MemberEntryAt(ms, path, depth, |ms| - 1 - j);
      assert ms[|ms| - 1 - j] in ms;
    }
  }

  lemma ExpandCanonicalMembers(ms: seq<Member>, path: Path, depth: nat, bytes: nat)
    requires WellFormed(Object(ms))
    ensures PushMembers(SortMembers(Canonicalize(Object(ms)).members), path, depth, [], bytes)
         == CanonicalVisit(PushMembers(SortMembers(ms), path, depth, [], bytes))
    ensures var r := PushMembers(SortMembers(ms), path, depth, [], bytes);
            r.Go? ==> StackWellFormed(r.pushed)
  {
    var sorted := SortMembers(ms);
    SortTotal(ms, NodesOf);
    SortedCanonical(ms);
    PushMembersCanonical(sorted, path, depth, [], bytes);
    PushMembersEffect(sorted, path, depth, [], bytes);
    assert CanonicalStack([]) == [];
    MemberEntriesWellFormed(sorted, path, depth);
    assert [] + MemberEntries(sorted, path, depth) == MemberEntries(sorted, path, depth);
  }

  lemma CanonicalStackAppend(a: seq<Entry>, b: seq<Entry>)
    ensures CanonicalStack(a + b) == CanonicalStack(a) + CanonicalStack(b)
    ensures StackWellFormed(a + b) <==> StackWellFormed(a) && StackWellFormed(b)
  {
    assert forall i :: 0 <= i < |a| ==> (a + b)[i] == a[i];
    assert forall i :: 0 <= i < |b| ==> (a + b)[|a| + i] == b[i];
  }

  lemma ExpandCanonical(e: Entry, bytes: nat)
    requires WellFormed(e.value)
    ensures Expand(e.(value := Canonicalize(e.value)), bytes) == CanonicalVisit(Expand(e, bytes))
    ensures Expand(e, bytes).Go? ==> StackWellFormed(Expand(e, bytes).pushed)
  {
    match e.value
    case Array(items) => ExpandCanonicalItems(items, e.path, e.depth);
    case Object(ms) => ExpandCanonicalMembers(ms, e.path, e.depth, bytes);
    case _ => assert CanonicalStack([]) == [];
  }

  lemma VisitCanonical(e: Entry, nodes: nat, bytes: nat)
    requires WellFormed(e.value)
    ensures Visit(e.(value := Canonicalize(e.value)), nodes, bytes) == CanonicalVisit(Visit(e, nodes, bytes))
    ensures Visit(e, nodes, bytes).Go? ==> StackWellFormed(Visit(e, nodes, bytes).pushed)
  {
    ExpandCanonical(e, bytes);
  }

  // One turn of the loop.
  lemma RunTurn(below: seq<Entry>, top: Entry, nodes: nat, bytes: nat)
    requires nodes <= MAX_NODES
    ensures Run(below + [top], nodes, bytes)
         == match Visit(top, nodes + 1, bytes)
            case Stop(error) => Failed(error)
            case Go(pushed, b) => Run(below + pushed, nodes + 1, b)
  {
    assert (below + [top])[..|below + [top]| - 1] == below;
  }

  lemma {:induction false} RunCanonical(stack: seq<Entry>, nodes: nat, bytes: nat)
    requires StackWellFormed(stack) && nodes <= MAX_NODES
    ensures Run(CanonicalStack(stack), nodes, bytes) == Run(stack, nodes, bytes)
    decreases MAX_NODES + 1 - nodes
  {
    if stack != [] {
      var below, top := stack[..|stack| - 1], stack[|stack| - 1];
      assert stack == below + [top];
      var r := Visit(top, nodes + 1, bytes);
      RunTurn(below, top, nodes, bytes);
      CanonicalTurn(below, top, nodes, bytes);
      if r.Go? {
        VisitPassed(top, nodes + 1, bytes);
        CanonicalStackAppend(below, r.pushed);
        RunCanonical(below + r.pushed, nodes + 1, r.bytes);
      }
    }
  }

  lemma VisitPassed(e: Entry, nodes: nat, bytes: nat)
    requires Visit(e, nodes, bytes).Go?
    ensures nodes <= MAX_NODES
  {
  }

  lemma CanonicalTurn(below: seq<Entry>, top: Entry, nodes: nat, bytes: nat)
    requires StackWellFormed(below + [top]) && nodes <= MAX_NODES
    ensures StackWellFormed(below)
    ensures var r := Visit(top, nodes + 1, bytes);
            && Run(CanonicalStack(below + [top]), nodes, bytes)
               == (match r
                   case Stop(error) => Failed(error)
                   case Go(pushed, b) => Run(CanonicalStack(below + pushed), nodes + 1, b))
            && (r.Go? ==> StackWellFormed(r.pushed))
  {
    CanonicalStackAppend(below, [top]);
    assert (below + [top])[|below|] == top;
    VisitCanonical(top, nodes + 1, bytes);
    var c := top.(value := Canonicalize(top.value));
    assert CanonicalStack([top]) == [c];
    RunTurn(CanonicalStack(below), c, nodes, bytes);
    var r := Visit(top, nodes + 1, bytes);
    if r.Go? {
      CanonicalStackAppend(below, r.pushed);
    }
  }

  /** Success, and the limit and path of the first error, do not depend on the
      order of object members at any level. */
  lemma OutcomeIgnoresMemberOrder(a: Value, b: Value, path: Path)
    requires WellFormed(a) && WellFormed(b) && SameUpToOrder(a, b)
    ensures Walk(a, path) == Walk(b, path)
  {
    CanonicalIffSame(a, b);
    RunCanonical([Entry(a, path, 0)], 0, 0);
    RunCanonical([Entry(b, path, 0)], 0, 0);
    assert CanonicalStack([Entry(a, path, 0)]) == CanonicalStack([Entry(b, path, 0)]);
  }

  lemma WalkMeaning(v: Value, path: Path)
    ensures Walk(v, path).Passed? <==> WithinLimits(v)
    ensures Walk(v, path).Passed? ==> Walk(v, path).nodes == Nodes(v)
  {
    var stack := [Entry(v, path, 0)];
    RunMeaning(stack, 0, 0);
    TotalOne(stack[0], EntryNodes);
    TotalOne(stack[0], EntryBytes);
  }

  // ----- where the first error is

  function EntryPlaces(e: Entry): seq<Entry> {
    Places(e.value, e.path, e.depth)
  }

  // What a stack still leaves to visit, in order.
  function StackPlaces(stack: seq<Entry>): seq<Entry> {
    FromTop(stack, EntryPlaces)
  }

  lemma {:induction false} PushedItemPlaces(o: Value, items: seq<Value>, path: Path, depth: nat, from: nat)
    requires from <= |items| && forall i :: 0 <= i < |items| ==> items[i] < o
    ensures StackPlaces(PushItems(items, path, depth)[..|items| - from]) == ItemPlaces(o, items[from..], from, path, depth + 1)
    decreases |items| - from
  {
    if from < |items| {
      var n := |items| - from;
      var stack := PushItems(items, path, depth)[..n];
      assert stack[n - 1] == Entry(items[from], path + [Index(from)], depth + 1);
      assert stack[..n - 1] == PushItems(items, path, depth)[..n - 1];
      PushedItemPlaces(o, items, path, depth, from + 1);
      assert items[from..][1..] == items[from + 1..] && items[from..][0] == items[from];
    }
  }

  lemma {:induction false} MemberEntriesSplit(ms: seq<Member>, path: Path, depth: nat)
    requires ms != []
    ensures MemberEntries(ms, path, depth) == MemberEntries(ms[1..], path, depth) + [MemberEntry(ms[0], path, depth)]
  {
    if |ms| > 1 {
      var n := |ms| - 1;
      MemberEntriesSplit(ms[..n], path, depth);
      assert ms[..n][1..] == ms[1..][..n - 1];
    }
  }

  lemma {:induction false} MemberEntryPlaces(o: Value, ms: seq<Member>, path: Path, depth: nat)
    requires forall i :: 0 <= i < |ms| ==> ms[i].value < o
    ensures StackPlaces(MemberEntries(ms, path, depth)) == MemberPlaces(o, ms, path, depth + 1)
  {
    if ms != [] {
      MemberEntriesSplit(ms, path, depth);
      var rest := MemberEntries(ms[1..], path, depth);
      assert (rest + [MemberEntry(ms[0], path, depth)])[..|rest|] == rest;
      MemberEntryPlaces(o, ms[1..], path, depth);
    }
  }

  lemma {:induction false} KeyTotal(ms: seq<Member>)
    ensures AllKeyBytes(ms) == Total(ms, KeyBytesOf)
  {
    if ms != [] {
      KeyTotal(ms[1..]);
    }
  }

  // Member number i is the last one with a key over the limit.
  ghost predicate LastLong(ms: seq<Member>, i: nat) {
    && i < |ms| && ByteLen(ms[i].key) > MAX_KEY_BYTES
    && forall j :: i < j < |ms| ==> ByteLen(ms[j].key) <= MAX_KEY_BYTES
  }

  // The key reported is the last one over the limit.
  lemma {:induction false} PushMembersStop(ms: seq<Member>, path: Path, depth: nat, pushed: seq<Entry>, bytes: nat)
    returns (i: nat)
    requires PushMembers(ms, path, depth, pushed, bytes).Stop?
    ensures LastLong(ms, i)
    ensures PushMembers(ms, path, depth, pushed, bytes) == Stop(LimitError(KeyBytes, path + [Field(ms[i].key)]))
    decreases |ms|
  {
    var n := |ms| - 1;
    if ByteLen(ms[n].key) > MAX_KEY_BYTES {
      return n;
    }
    var e := Entry(ms[n].value, path + [Field(ms[n].key)], depth + 1);
    i := PushMembersStop(ms[..n], path, depth, pushed + [e], bytes + ByteLen(ms[n].key));
    LastLongExtends(ms, i);
  }

  lemma LastLongExtends(ms: seq<Member>, i: nat)
    requires ms != [] && LastLong(ms[..|ms| - 1], i) && ByteLen(ms[|ms| - 1].key) <= MAX_KEY_BYTES
    ensures LastLong(ms, i)
  {
    assert forall j :: 0 <= j < |ms| - 1 ==> ms[..|ms| - 1][j] == ms[j];
  }

  // The keys of an object are over the limit where the walk says so.
  ghost predicate LongKey(ms: seq<Member>, path: Path, e: LimitError) {
    exists key :: && e == LimitError(KeyBytes, path + [Field(key)]) && Has(ms, key) && ByteLen(key) > MAX_KEY_BYTES
                  && forall other :: Has(ms, other) && Less(key, other) ==> ByteLen(other) <= MAX_KEY_BYTES
  }

  // Members in key order, and the last key over the limit.
  lemma LastLongKey(ms: seq<Member>, sorted: seq<Member>, i: nat, path: Path)
    requires Sorted(sorted) && (forall key :: Has(sorted, key) <==> Has(ms, key)) && LastLong(sorted, i)
    ensures LongKey(ms, path, LimitError(KeyBytes, path + [Field(sorted[i].key)]))
  {
    assert Has(sorted, sorted[i].key);
    forall other | Has(ms, other) && Less(sorted[i].key, other) ensures ByteLen(other) <= MAX_KEY_BYTES {
      assert Has(sorted, other);
      var j :| 0 <= j < |sorted| && sorted[j].key == other;
      LessIrreflexive(other);
      if j < i {
        LessTransitive(other, sorted[i].key, other);
      }
    }
  }

  lemma AllKeysFit(ms: seq<Member>, sorted: seq<Member>)
    requires (forall key :: Has(sorted, key) <==> Has(ms, key)) && KeysFit(sorted)
    ensures forall key :: Has(ms, key) ==> ByteLen(key) <= MAX_KEY_BYTES
  {
    forall key | Has(ms, key) ensures ByteLen(key) <= MAX_KEY_BYTES {
      assert Has(sorted, key);
      var i :| 0 <= i < |sorted| && sorted[i].key == key;
      assert sorted[i] in sorted;
    }
  }

  lemma LongKeyFound(ms: seq<Member>, path: Path, depth: nat, bytes: nat)
    requires Distinct(ms)
    ensures match PushMembers(SortMembers(ms), path, depth, [], bytes)
            case Stop(e) => LongKey(ms, path, e)
            case Go(_, _) => forall key :: Has(ms, key) ==> ByteLen(key) <= MAX_KEY_BYTES
  {
    var sorted := SortMembers(ms);
    SortProperties(ms);
    PushMembersEffect(sorted, path, depth, [], bytes);
    if KeysFit(sorted) {
      AllKeysFit(ms, sorted);
    } else {
      var i := PushMembersStop(sorted, path, depth, [], bytes);
      LastLongKey(ms, sorted, i, path);
    }
  }

  // One visit, against the limits of its place.
  lemma VisitExceeds(places: seq<Entry>, k: nat)
    requires k < |places| && WellFormed(places[k].value)
    ensures match Visit(places[k], k + 1, TextUpTo(places, k))
            case Stop(e) =>
              Exceeds(places, k, e) && forall d :: Exceeds(places, k, d) ==> Turn(e.limit) <= Turn(d.limit)
            case Go(_, bytes) =>
              bytes == TextUpTo(places, k + 1) && forall d :: !Exceeds(places, k, d)
  {
    var e := places[k];
    var bytes := TextUpTo(places, k);
    if e.value.Object? {
      var ms := e.value.members;
      LongKeyFound(ms, e.path, e.depth, bytes);
      PushMembersEffect(SortMembers(ms), e.path, e.depth, [], bytes);
      SortTotal(ms, KeyBytesOf);
      KeyTotal(ms);
    }
  }

  lemma ArrayPlaces(e: Entry)
    requires e.value.Array?
    ensures EntryPlaces(e) == [e] + StackPlaces(PushItems(e.value.items, e.path, e.depth))
  {
    var pushed := PushItems(e.value.items, e.path, e.depth);
    ArrayParts(e.value, e.path, e.depth);
    PushedItemPlaces(e.value, e.value.items, e.path, e.depth, 0);
    assert pushed[..|pushed|] == pushed && e.value.items[0..] == e.value.items;
  }

  lemma SortedEntries(ms: seq<Member>, path: Path, depth: nat, bytes: nat)
    ensures var r := PushMembers(SortMembers(ms), path, depth, [], bytes);
            r.Go? ==> r.pushed == MemberEntries(SortMembers(ms), path, depth)
  {
    PushMembersEffect(SortMembers(ms), path, depth, [], bytes);
    assert [] + MemberEntries(SortMembers(ms), path, depth) == MemberEntries(SortMembers(ms), path, depth);
  }

  lemma ObjectPlaces(e: Entry, bytes: nat)
    requires e.value.Object?
    ensures var r := PushMembers(SortMembers(e.value.members), e.path, e.depth, [], bytes);
            r.Go? ==> EntryPlaces(e) == [e] + StackPlaces(r.pushed)
  {
    var sorted := SortMembers(e.value.members);
    SortedEntries(e.value.members, e.path, e.depth, bytes);
    SortedBelow(e.value);
    ObjectParts(e.value, e.path, e.depth);
    MemberEntryPlaces(e.value, sorted, e.path, e.depth);
  }

  lemma VisitPlaces(e: Entry, nodes: nat, bytes: nat)
    requires Visit(e, nodes, bytes).Go?
    ensures EntryPlaces(e) == [e] + StackPlaces(Visit(e, nodes, bytes).pushed)
  {
    match e.value
    case Array(_) => ArrayPlaces(e);
    case Object(_) => ObjectPlaces(e, bytes);
    case _ =>
  }

  ghost predicate NoExcess(places: seq<Entry>, k: nat)
    requires k <= |places|
  {
    forall j, d :: 0 <= j < k ==> !Exceeds(places, j, d)
  }

  // A stack that has the places from k on left to visit.
  ghost predicate Continues(stack: seq<Entry>, places: seq<Entry>, k: nat) {
    && k <= |places| && places[k..] == StackPlaces(stack)
    && StackWellFormed(stack) && NoExcess(places, k)
  }

  lemma TopPlace(below: seq<Entry>, top: Entry, places: seq<Entry>, k: nat)
    requires Continues(below + [top], places, k)
    ensures k < |places| && places[k] == top && WellFormed(top.value) && StackWellFormed(below)
    ensures places[k..] == EntryPlaces(top) + StackPlaces(below)
  {
    assert (below + [top])[..|below|] == below;
    CanonicalStackAppend(below, [top]);
    assert places[k..][0] == places[k];
  }

  lemma NextPlaces(below: seq<Entry>, top: Entry, places: seq<Entry>, k: nat)
    requires Continues(below + [top], places, k) && Visit(top, k + 1, TextUpTo(places, k)).Go?
    ensures var r := Visit(top, k + 1, TextUpTo(places, k));
            Continues(below + r.pushed, places, k + 1) && r.bytes == TextUpTo(places, k + 1)
  {
    var r := Visit(top, k + 1, TextUpTo(places, k));
    TopPlace(below, top, places, k);
    VisitExceeds(places, k);
    VisitCanonical(top, k + 1, TextUpTo(places, k));
    VisitPlaces(top, k + 1, TextUpTo(places, k));
    FromTopAppend(below, r.pushed, EntryPlaces);
    CanonicalStackAppend(below, r.pushed);
    DropFirst(places, k, top, StackPlaces(r.pushed), StackPlaces(below));
  }

  lemma DropFirst(places: seq<Entry>, k: nat, top: Entry, a: seq<Entry>, b: seq<Entry>)
    requires k < |places| && places[k..] == [top] + a + b
    ensures places[k + 1..] == a + b
  {
    assert places[k + 1..] == places[k..][1..];
  }

  // A run that has visited the first k places.
  lemma {:induction false} RunFirst(stack: seq<Entry>, places: seq<Entry>, k: nat)
    requires k <= MAX_NODES && Continues(stack, places, k)
    ensures match Run(stack, k, TextUpTo(places, k))
            case Failed(e) => FirstExcess(places, e)
            case Passed(_) => NoExcess(places, |places|)
    decreases MAX_NODES + 1 - k
  {
    if stack != [] {
      var below, top := stack[..|stack| - 1], stack[|stack| - 1];
      assert stack == below + [top];
      TopPlace(below, top, places, k);
      RunTurn(below, top, k, TextUpTo(places, k));
      var r := Visit(top, k + 1, TextUpTo(places, k));
      if r.Stop? {
        VisitExceeds(places, k);
        assert ExceedsFirst(places, k, r.error);
      } else {
        VisitPassed(top, k + 1, TextUpTo(places, k));
        NextPlaces(below, top, places, k);
        RunFirst(below + r.pushed, places, k + 1);
      }
    }
  }

  lemma FirstExcessUnique(places: seq<Entry>, e: LimitError, d: LimitError)
    requires FirstExcess(places, e) && FirstExcess(places, d)
    ensures e == d
  {
    var k :| 0 <= k < |places| && ExceedsFirst(places, k, e);
    var j :| 0 <= j < |places| && ExceedsFirst(places, j, d);
    assert k == j;
    if e.limit.KeyBytes? && d.limit.KeyBytes? {
      var (path, ms) := (places[k].path, places[k].value.members);
      var a :| && e.path == path + [Field(a)] && Has(ms, a) && ByteLen(a) > MAX_KEY_BYTES
               && forall other :: Has(ms, other) && Less(a, other) ==> ByteLen(other) <= MAX_KEY_BYTES;
      var b :| && d.path == path + [Field(b)] && Has(ms, b) && ByteLen(b) > MAX_KEY_BYTES
               && forall other :: Has(ms, other) && Less(b, other) ==> ByteLen(other) <= MAX_KEY_BYTES;
      LessTotal(a, b);
    }
  }

  /** The walk fails with an error if and only if, of all places in order, it is the first
      limit exceeded at the first place that exceeds one. */
  lemma WalkFailsFirst(v: Value, path: Path, e: LimitError)
    requires WellFormed(v)
    ensures Walk(v, path) == Failed(e) <==> FirstExcess(Places(v, path, 0), e)
  {
    var (places, stack) := (Places(v, path, 0), [Entry(v, path, 0)]);
    assert stack[..0] == [] && StackPlaces([]) == [];
    RunFirst(stack, places, 0);
    match Walk(v, path)
    case Failed(d) => if FirstExcess(places, e) { FirstExcessUnique(places, e, d); }
    case Passed(_) =>
  }

  lemma WalkExplained(v: Value, path: Path)
    ensures WellFormed(v) && Walk(v, path).Failed? ==> FirstExcess(Places(v, path, 0), Walk(v, path).error)
  {
    if WellFormed(v) && Walk(v, path).Failed? {
      WalkFailsFirst(v, path, Walk(v, path).error);
    }
  }

  // ----- the loop itself

  method PushAllItems(stack: seq<Entry>, items: seq<Value>, path: Path, depth: nat) returns (r: seq<Entry>)
    ensures r == stack + PushItems(items, path, depth)
  {
    r := stack;
    var i := |items|;
    while i > 0
      invariant 0 <= i <= |items|
      invariant r == stack + PushItems(items, path, depth)[..|items| - i]
    {
      i := i - 1;
      r := r + [Entry(items[i], path + [Index(i)], depth + 1)];
    }
  }

  method PushAllMembers(stack: seq<Entry>, ms: seq<Member>, path: Path, depth: nat, bytes: nat)
    returns (r: Visited)
    ensures var spec := PushMembers(ms, path, depth, [], bytes);
            r == if spec.Go? then Go(stack + spec.pushed, spec.bytes) else spec
  {
    var top, total: nat := stack, bytes;
    ghost var pushed: seq<Entry> := [];
    var i := |ms|;
    assert ms[..i] == ms;
    while i > 0
      invariant 0 <= i <= |ms|
      invariant top == stack + pushed
      invariant PushMembers(ms[..i], path, depth, pushed, total) == PushMembers(ms, path, depth, [], bytes)
    {
      i := i - 1;
      assert ms[..i + 1][..i] == ms[..i];
      var p := path + [Field(ms[i].key)];
      if ByteLen(ms[i].key) > MAX_KEY_BYTES {
        return Stop(LimitError(KeyBytes, p));
      }
      total := total + ByteLen(ms[i].key);
      var e := Entry(ms[i].value, p, depth + 1);
      top, pushed := top + [e], pushed + [e];
    }
    return Go(top, total);
  }

  method DataBudget(value: Value, path: Path) returns (error: Option<LimitError>, budget: Budget)
    ensures fresh(budget)
    ensures error.None? <==> WithinLimits(value)
    ensures error.None? ==> budget.work == Nodes(value)
    ensures error.Some? ==> Walk(value, path) == Failed(error.value)
    ensures error.Some? && WellFormed(value) ==> FirstExcess(Places(value, path, 0), error.value)
  {
    WalkMeaning(value, path);
    WalkExplained(value, path);
    budget := new Budget();
    var stack := [Entry(value, path, 0)];
    var nodes: nat, bytes: nat := 0, 0;
    while stack != []
      invariant fresh(budget) && budget.work == nodes <= MAX_NODES
      invariant Run(stack, nodes, bytes) == Walk(value, path)
      decreases MAX_NODES - nodes
    {
      var e := stack[|stack| - 1];
      stack := stack[..|stack| - 1];
      nodes := nodes + 1;
      if nodes > MAX_NODES {
        return Some(LimitError(JsonNodes, e.path)), budget;
      }
      if e.depth > MAX_DEPTH {
        return Some(LimitError(NestingDepth, e.path)), budget;
      }
      var charged := budget.Charge(1);
      assert charged;  // MAX_NODES is below MAX_WORK, so this charge cannot fail
      match e.value {
        case Str(s) =>
          if ByteLen(s) > MAX_STRING_BYTES {
            return Some(LimitError(StringBytes, e.path)), budget;
          }
          bytes := bytes + ByteLen(s);
          assert stack == stack + [];
        case Array(items) =>
          if |items| > MAX_COLLECTION {
            return Some(LimitError(ArrayEntries, e.path)), budget;
          }
          stack := PushAllItems(stack, items, e.path, e.depth);
        case Object(ms) =>
          if |ms| > MAX_COLLECTION {
            return Some(LimitError(ObjectMembers, e.path)), budget;
          }
          var r := PushAllMembers(stack, SortMembers(ms), e.path, e.depth, bytes);
          if r.Stop? {
            return Some(r.error), budget;
          }
          stack, bytes := r.pushed, r.bytes;
        case _ =>
          assert stack == stack + [];
      }
      if bytes > MAX_TEXT_BYTES {
        return Some(LimitError(DecodedTextBytes, e.path)), budget;
      }
    }
    return None, budget;
  }
}
