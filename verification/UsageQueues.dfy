/** `persist_history`: a bounded retry queue of each writer in front of the shared
    store of facts. */
module UsageQueues {
  import opened Text
  import opened UsageStores

  const MAX_PENDING: nat := 100

  // ----- one call, on values

  // How many of the queued events are stored before the first refusal.
  function Written(facts: Facts, queue: seq<Fact>, faults: nat -> Faults, k: nat): (n: nat)
    ensures n <= |queue|
    decreases |queue|
  {
    if queue == [] || Outcome(facts, queue[0], faults(k)).Refused? then 0
    else 1 + Written(After(facts, queue[0], faults(k)), queue[1..], faults, k + 1)
  }

  function Flushed(facts: Facts, queue: seq<Fact>, faults: nat -> Faults, k: nat): Facts
    decreases |queue|
  {
    if queue == [] then facts
    else
      var next := After(facts, queue[0], faults(k));
      if Outcome(facts, queue[0], faults(k)).Refused? then next else Flushed(next, queue[1..], faults, k + 1)
  }

  function Queued(pending: seq<Fact>, event: Fact): seq<Fact> {
    if |pending| < MAX_PENDING then pending + [event] else pending
  }

  datatype Ledger = Ledger(facts: Facts, marked: bool)

  // The store and marker, and the writer's queue, after one call.
  function Persisted(l: Ledger, pending: seq<Fact>, event: Fact, opens: bool, faults: nat -> Faults): (Ledger, seq<Fact>) {
    var queue := Queued(pending, event);
    var dropped := |pending| >= MAX_PENDING;
    if !opens then (Ledger(l.facts, true), queue)
    else
      var n := Written(l.facts, queue, faults, 0);
      (Ledger(Flushed(l.facts, queue, faults, 0), l.marked || dropped || n < |queue|), queue[n..])
  }

  // ----- when a call empties the queue

  predicate Stores(facts: Facts, e: Fact) {
    e.id.Some? && e.id.value in facts && facts[e.id.value] == Parsed(e)
  }

  // Every event of the queue has its fields, is absent or stored as it is, and is the
  // only one of the queue under its identity.
  ghost predicate Storable(facts: Facts, queue: seq<Fact>) {
    && (forall e :: e in queue ==>
          e.id.Some? && e.kind.Some? && e.timestamp.Some? && (e.id.value in facts ==> facts[e.id.value] == Parsed(e)))
    && forall e, other :: e in queue && other in queue && e.id == other.id ==> e == other
  }

  // The facts and the events of the queue, and nothing else.
  ghost predicate Joined(facts: Facts, queue: seq<Fact>, now: Facts) {
    && (forall id :: id in facts ==> id in now && now[id] == facts[id])
    && (forall e :: e in queue ==> Stores(now, e))
    && forall id :: id in now && id !in facts ==> exists e :: e in queue && e.id == Some(id)
  }

  lemma StorableStep(facts: Facts, queue: seq<Fact>, faults: Faults)
    requires queue != [] && NoFault(faults)
    ensures Storable(facts, queue) ==> !Outcome(facts, queue[0], faults).Refused?
    ensures !Outcome(facts, queue[0], faults).Refused? ==>
              (Storable(facts, queue) <==> Storable(After(facts, queue[0], faults), queue[1..]))
  {
    var (e, rest) := (queue[0], queue[1..]);
    CleanInsertIff(facts, e, faults);
    assert forall x :: x in queue <==> x == e || x in rest;
    var next := After(facts, e, faults);
    if !Outcome(facts, e, faults).Refused? {
      assert Stores(next, e);
      if Storable(facts, queue) {
        forall x | x in rest && x.id.value in next ensures next[x.id.value] == Parsed(x) {
          assert x in queue;
        }
      }
      if Storable(next, rest) {
        forall x | x in rest ensures x.id == e.id ==> x == e {
          assert x.id == e.id ==> x.id.value in next;
        }
      }
    }
  }

  /** Without failures, a flush stores the whole queue if and only if every event has its
      fields and none conflicts with a stored record or another event; the store then has
      gained the events of the queue and nothing else. */
  lemma {:induction false} CleanFlushIff(facts: Facts, queue: seq<Fact>, faults: nat -> Faults, k: nat)
    requires forall i :: NoFault(faults(i))
    ensures Written(facts, queue, faults, k) == |queue| <==> Storable(facts, queue)
    ensures Storable(facts, queue) ==> Joined(facts, queue, Flushed(facts, queue, faults, k))
    decreases |queue|
  {
    if queue != [] {
      var next := After(facts, queue[0], faults(k));
      StorableStep(facts, queue, faults(k));
      CleanFlushIff(next, queue[1..], faults, k + 1);
      CleanInsertIff(facts, queue[0], faults(k));
      assert forall x :: x in queue <==> x == queue[0] || x in queue[1..];
    }
  }

  // ----- the sink as it runs

  class Sink {
    var pending: seq<Fact>
    var warned: bool
    var marked: bool  // `mark_incomplete` was requested

    constructor ()
      ensures pending == [] && !warned && !marked
    {
      pending, warned, marked := [], false, false;
    }

    method PersistHistory(event: Fact, db: Connection, opens: bool, faults: nat -> Faults)
      modifies this, db
      ensures (Ledger(db.facts, marked), pending)
           == Persisted(Ledger(old(db.facts), old(marked)), old(pending), event, opens, faults)
      ensures db.saved == old(db.saved)
      ensures warned == (old(warned) || pending != [])
      ensures opens && (forall k :: NoFault(faults(k))) ==>
                var queue := if |old(pending)| < 100 then old(pending) + [event] else old(pending);
                && (pending == [] <==> Storable(old(db.facts), queue))
                && (pending == [] ==> Joined(old(db.facts), queue, db.facts))
                && (pending == [] && |old(pending)| < 100 ==> marked == old(marked))
    {
      ghost var queue := Queued(pending, event);
      if |pending| < MAX_PENDING {
        pending := pending + [event];
      } else {
        marked := true;
      }
      var failed := !opens;
      if opens {
        if forall k :: NoFault(faults(k)) {
          CleanFlushIff(db.facts, queue, faults, 0);
        }
        failed := StorePending(db, faults);
      }
      if failed {
        marked := true;
        if !warned {
          warned := true;
        }
      }
    }

    // The loop over the queue, with the store open.
    method StorePending(db: Connection, faults: nat -> Faults) returns (failed: bool)
      modifies this, db
      ensures db.saved == old(db.saved) && warned == old(warned) && marked == old(marked)
      ensures db.facts == Flushed(old(db.facts), old(pending), faults, 0)
      ensures var n := Written(old(db.facts), old(pending), faults, 0);
              pending == old(pending)[n..] && (failed <==> n < |old(pending)|)
    {
      var queue := pending;
      var written := 0;
      failed := false;
      assert queue[0..] == queue;
      while written < |queue| && !failed
        invariant 0 <= written <= |queue| && pending == queue
        invariant db.saved == old(db.saved) && warned == old(warned) && marked == old(marked)
        invariant Flushed(old(db.facts), queue, faults, 0)
               == if failed then db.facts else Flushed(db.facts, queue[written..], faults, written)
        invariant Written(old(db.facts), queue, faults, 0)
               == if failed then written else written + Written(db.facts, queue[written..], faults, written)
        invariant failed ==> written < |queue|
        decreases |queue| - written, !failed
      {
        assert queue[written..][1..] == queue[written + 1..];
        var r := db.InsertEvent(queue[written], faults(written));
        if r.Refused? {
          failed := true;
        } else {
          written := written + 1;
        }
      }
      pending := pending[written..];
    }
  }

  // ----- many writers sharing one store, one insert at a time

  // One writer: everything submitted so far, the identities dropped, the events
  // reported as stored, and the queue, of which a flush under way has passed `written`.
  // `unsure` notes that the next event of the queue was stored and reported as failed.
  datatype Writer = Writer(log: seq<Fact>, dropped: set<string>, delivered: seq<Fact>,
                           pending: seq<Fact>, flushing: bool, written: nat, unsure: bool)

  // `owner` records which writer submitted an identity, and as which of its events.
  datatype System = System(ledger: Ledger, writers: seq<Writer>, base: set<string>, owner: map<string, (nat, nat)>)

  // A call starts with `Submit`; while it flushes, each `Continue` is one insert or
  // the end of the call. Steps of different writers interleave freely.
  datatype Action = Submit(w: nat, event: Fact, opens: bool) | Continue(w: nat, faults: Faults)

  predicate Enabled(s: System, a: Action) {
    && a.w < |s.writers|
    && match a
       case Submit(w, e, _) =>
         !s.writers[w].flushing && e.id.Some? && e.id.value !in s.base && e.id.value !in s.owner
       case Continue(w, _) => s.writers[w].flushing && s.writers[w].written <= |s.writers[w].pending|
  }

  function Submitted(w: Writer, event: Fact, opens: bool): Writer
    requires event.id.Some?
  {
    w.(log := w.log + [event], pending := Queued(w.pending, event),
       dropped := if |w.pending| < MAX_PENDING then w.dropped else w.dropped + {event.id.value},
       flushing := opens, written := 0)
  }

  function Ended(w: Writer): Writer
    requires w.written <= |w.pending|
  {
    w.(pending := w.pending[w.written..], flushing := false, written := 0)
  }

  function Delivered(w: Writer): Writer
    requires w.written < |w.pending|
  {
    w.(delivered := w.delivered + [w.pending[w.written]], written := w.written + 1, unsure := false)
  }

  function Step(s: System, a: Action): (t: System)
    requires Enabled(s, a)
    ensures |t.writers| == |s.writers|
  {
    var w := s.writers[a.w];
    match a
    case Submit(_, e, opens) =>
      System(Ledger(s.ledger.facts, s.ledger.marked || |w.pending| >= MAX_PENDING || !opens),
             s.writers[a.w := Submitted(w, e, opens)], s.base, s.owner[e.id.value := (a.w, |w.log|)])
    case Continue(_, faults) =>
      if w.written == |w.pending| then s.(writers := s.writers[a.w := Ended(w)])
      else
        var e := w.pending[w.written];
        var next := After(s.ledger.facts, e, faults);
        if Outcome(s.ledger.facts, e, faults).Refused? then
          s.(ledger := Ledger(next, true), writers := s.writers[a.w := Ended(w).(unsure := Stores(next, e))])
        else
          s.(ledger := s.ledger.(facts := next), writers := s.writers[a.w := Delivered(w)])
  }

  // Every event has an identity of its own, and each writer makes one call at a time.
  predicate Runnable(s: System, actions: seq<Action>)
    decreases |actions|
  {
    actions == [] || (Enabled(s, actions[0]) && Runnable(Step(s, actions[0]), actions[1..]))
  }

  function Run(s: System, actions: seq<Action>): (t: System)
    requires Runnable(s, actions)
    ensures |t.writers| == |s.writers|
    decreases |actions|
  {
    if actions == [] then s else Run(Step(s, actions[0]), actions[1..])
  }

  function Fresh(count: nat): (r: seq<Writer>)
    ensures |r| == count && forall i :: 0 <= i < count ==> r[i] == Writer([], {}, [], [], false, 0, false)
  {
    if count == 0 then [] else Fresh(count - 1) + [Writer([], {}, [], [], false, 0, false)]
  }

  function Start(facts: Facts, count: nat): System {
    System(Ledger(facts, false), Fresh(count), facts.Keys, map[])
  }

  // The submitted events that were not dropped, in order.
  function Kept(log: seq<Fact>, dropped: set<string>): seq<Fact> {
    if log == [] then []
    else
      var last := log[|log| - 1];
      Kept(log[..|log| - 1], dropped) + if last.id.Some? && last.id.value in dropped then [] else [last]
  }

  // ----- what holds in every reachable state

  predicate Absent(facts: Facts, e: Fact) {
    e.id.Some? && e.id.value !in facts
  }

  function Waiting(w: Writer): seq<Fact>
    requires w.written <= |w.pending|
  {
    w.pending[w.written..]
  }

  // The queue keeps its bounds and its order.
  predicate QueueOk(w: Writer) {
    && w.written <= |w.pending| <= MAX_PENDING
    && (!w.flushing ==> w.written == 0)
    && Kept(w.log, w.dropped) == w.delivered + Waiting(w)
  }

  // Logged identities are the writer's own.
  ghost predicate LogOk(w: Writer, owner: map<string, (nat, nat)>, i: nat) {
    && (forall j :: 0 <= j < |w.log| ==>
          w.log[j].id.Some? && w.log[j].id.value in owner && owner[w.log[j].id.value] == (i, j))
    && (forall id :: id in w.dropped ==> id in owner && owner[id].0 == i)
  }

  // The store holds what was delivered, the next event when unsure, and nothing else
  // that waits or was dropped.
  ghost predicate StoreOk(w: Writer, facts: Facts)
    requires w.written <= |w.pending|
  {
    && (forall e :: e in w.delivered ==> Stores(facts, e))
    && (w.unsure ==> Waiting(w) != [] && Stores(facts, Waiting(w)[0]) && Complete(Waiting(w)[0]))
    && (forall j :: (if w.unsure then 1 else 0) <= j < |Waiting(w)| ==> Absent(facts, Waiting(w)[j]))
    && (forall id :: id in w.dropped ==> id !in facts)
  }

  predicate MarkOk(w: Writer, marked: bool) {
    (w.pending != [] && !w.flushing) || w.dropped != {} ==> marked
  }

  ghost predicate WriterOk(s: System, i: nat)
    requires i < |s.writers|
  {
    var w := s.writers[i];
    QueueOk(w) && LogOk(w, s.owner, i) && StoreOk(w, s.ledger.facts) && MarkOk(w, s.ledger.marked)
  }

  ghost predicate Conserved(s: System) {
    && s.ledger.facts.Keys <= s.base + s.owner.Keys
    && s.base !! s.owner.Keys
    && forall i :: 0 <= i < |s.writers| ==> WriterOk(s, i)
  }

  // ----- the log and what is kept of it

  lemma {:induction false} KeptMembers(log: seq<Fact>, dropped: set<string>, e: Fact)
    ensures e in Kept(log, dropped) <==> e in log && !(e.id.Some? && e.id.value in dropped)
  {
    if log != [] {
      KeptMembers(log[..|log| - 1], dropped, e);
      assert log == log[..|log| - 1] + [log[|log| - 1]];
    }
  }

  // Dropping an identity that was never logged keeps the same events.
  lemma {:induction false} KeptUnchanged(log: seq<Fact>, dropped: set<string>, id: string)
    requires forall j :: 0 <= j < |log| ==> log[j].id != Some(id)
    ensures Kept(log, dropped + {id}) == Kept(log, dropped)
  {
    if log != [] {
      KeptUnchanged(log[..|log| - 1], dropped, id);
    }
  }

  lemma {:induction false} KeptDistinct(log: seq<Fact>, dropped: set<string>)
    requires forall i, j :: 0 <= i < j < |log| ==> log[i].id != log[j].id
    ensures forall i, j :: 0 <= i < j < |Kept(log, dropped)| ==> Kept(log, dropped)[i].id != Kept(log, dropped)[j].id
  {
    if log != [] {
      var n := |log| - 1;
      KeptDistinct(log[..n], dropped);
      var before := Kept(log[..n], dropped);
      forall i | 0 <= i < |before| ensures before[i].id != log[n].id {
        KeptMembers(log[..n], dropped, before[i]);
        var j :| 0 <= j < n && log[..n][j] == before[i];
      }
    }
  }

  // A waiting event is logged under its own identity and was not dropped.
  lemma WaitingOwned(w: Writer, owner: map<string, (nat, nat)>, i: nat, e: Fact)
    requires QueueOk(w) && LogOk(w, owner, i) && e in Waiting(w)
    ensures e.id.Some? && e.id.value in owner && owner[e.id.value].0 == i && e.id.value !in w.dropped
  {
    assert e in w.delivered + Waiting(w);
    KeptMembers(w.log, w.dropped, e);
    var j :| 0 <= j < |w.log| && w.log[j] == e;
  }

  lemma WaitingDistinct(w: Writer, owner: map<string, (nat, nat)>, i: nat, j: nat, k: nat)
    requires QueueOk(w) && LogOk(w, owner, i) && j < k < |Waiting(w)|
    ensures Waiting(w)[j].id != Waiting(w)[k].id
  {
    KeptDistinct(w.log, w.dropped);
    var all, d := Kept(w.log, w.dropped), |w.delivered|;
    assert all[d + j] == Waiting(w)[j] && all[d + k] == Waiting(w)[k];
  }

  // ----- each step keeps the invariant

  // A new event joins the end of the queue, or is dropped and the queue stays.
  lemma SubmittedQueue(w: Writer, e: Fact, opens: bool)
    requires QueueOk(w) && !w.flushing && e.id.Some? && e.id.value !in w.dropped
    requires forall j :: 0 <= j < |w.log| ==> w.log[j].id != e.id
    ensures QueueOk(Submitted(w, e, opens))
    ensures Waiting(Submitted(w, e, opens)) == Queued(Waiting(w), e)
  {
    var v := Submitted(w, e, opens);
    assert v.log[..|w.log|] == w.log;
    if |w.pending| < MAX_PENDING {
      assert w.delivered + (Waiting(w) + [e]) == w.delivered + Waiting(w) + [e];
    } else {
      KeptUnchanged(w.log, w.dropped, e.id.value);
    }
  }

  lemma SubmittedLog(w: Writer, owner: map<string, (nat, nat)>, i: nat, e: Fact, opens: bool)
    requires LogOk(w, owner, i) && e.id.Some? && e.id.value !in owner
    ensures LogOk(Submitted(w, e, opens), owner[e.id.value := (i, |w.log|)], i)
  {
    assert Submitted(w, e, opens).log[|w.log|] == e;
  }

  lemma SubmittedOk(w: Writer, owner: map<string, (nat, nat)>, facts: Facts, i: nat, e: Fact, opens: bool)
    requires QueueOk(w) && !w.flushing && LogOk(w, owner, i) && e.id.Some? && e.id.value !in owner
    requires StoreOk(w, facts) && e.id.value !in facts
    ensures var v := Submitted(w, e, opens);
            QueueOk(v) && LogOk(v, owner[e.id.value := (i, |w.log|)], i) && StoreOk(v, facts)
  {
    assert e.id.value !in w.dropped;
    forall j | 0 <= j < |w.log| ensures w.log[j].id != e.id {
      assert w.log[j].id.value in owner;
    }
    SubmittedQueue(w, e, opens);
    SubmittedLog(w, owner, i, e, opens);
  }

  // One insert adds at most the next event; the ones behind it stay out of the store.
  lemma BehindStaysAbsent(w: Writer, owner: map<string, (nat, nat)>, facts: Facts, i: nat, faults: Faults, j: nat)
    requires QueueOk(w) && LogOk(w, owner, i) && StoreOk(w, facts) && 1 <= j < |Waiting(w)|
    ensures Absent(After(facts, Waiting(w)[0], faults), Waiting(w)[j])
  {
    WaitingDistinct(w, owner, i, 0, j);
    assert Waiting(w)[0] in Waiting(w);
    WaitingOwned(w, owner, i, Waiting(w)[0]);
  }

  // A reported insert: the event leaves the queue for the store.
  lemma DeliveredOk(w: Writer, owner: map<string, (nat, nat)>, facts: Facts, i: nat, faults: Faults)
    requires QueueOk(w) && LogOk(w, owner, i) && StoreOk(w, facts) && w.flushing && w.written < |w.pending|
    requires !Outcome(facts, w.pending[w.written], faults).Refused?
    ensures var e := w.pending[w.written];
            QueueOk(Delivered(w)) && StoreOk(Delivered(w), After(facts, e, faults))
  {
    var v, e := Delivered(w), w.pending[w.written];
    assert Waiting(w) == [e] + Waiting(v);
    assert w.delivered + Waiting(w) == v.delivered + Waiting(v);
    WaitingOwned(w, owner, i, e);
    forall k | 0 <= k < |Waiting(v)| ensures Absent(After(facts, e, faults), Waiting(v)[k]) {
      BehindStaysAbsent(w, owner, facts, i, faults, k + 1);
    }
  }

  // A refused insert: the event stays first in the queue, stored or not.
  lemma RefusedOk(w: Writer, owner: map<string, (nat, nat)>, facts: Facts, i: nat, faults: Faults)
    requires QueueOk(w) && LogOk(w, owner, i) && StoreOk(w, facts) && w.flushing && w.written < |w.pending|
    requires Outcome(facts, w.pending[w.written], faults).Refused?
    ensures var e := w.pending[w.written];
            var next := After(facts, e, faults);
            var v := Ended(w).(unsure := Stores(next, e));
            QueueOk(v) && StoreOk(v, next)
  {
    var e := w.pending[w.written];
    var next := After(facts, e, faults);
    var v := Ended(w).(unsure := Stores(next, e));
    assert Waiting(v) == Waiting(w) && Waiting(w)[0] == e && e in Waiting(w);
    WaitingOwned(w, owner, i, e);
    forall k | 1 <= k < |Waiting(w)| ensures Absent(next, Waiting(w)[k]) {
      BehindStaysAbsent(w, owner, facts, i, faults, k);
    }
  }

  // A step of another writer: its new identity or its insert is not this writer's.
  lemma OtherWriterOk(w: Writer, owner: map<string, (nat, nat)>, facts: Facts, i: nat, e: Fact, faults: Faults)
    requires QueueOk(w) && LogOk(w, owner, i) && StoreOk(w, facts)
    requires e.id.Some? && (e.id.value in owner ==> owner[e.id.value].0 != i)
    ensures StoreOk(w, After(facts, e, faults))
  {
    forall j | 0 <= j < |Waiting(w)| ensures Waiting(w)[j].id != e.id {
      assert Waiting(w)[j] in Waiting(w);
      WaitingOwned(w, owner, i, Waiting(w)[j]);
    }
  }

  // A new identity leaves the others in place.
  lemma OtherLogOk(w: Writer, owner: map<string, (nat, nat)>, i: nat, id: string, place: (nat, nat))
    requires LogOk(w, owner, i) && id !in owner
    ensures LogOk(w, owner[id := place], i)
  {
  }

  lemma SubmitConserves(s: System, a: Action)
    requires Conserved(s) && a.Submit? && Enabled(s, a)
    ensures Conserved(Step(s, a))
  {
    var t := Step(s, a);
    assert WriterOk(s, a.w);
    SubmittedOk(s.writers[a.w], s.owner, s.ledger.facts, a.w, a.event, a.opens);
    forall i | 0 <= i < |t.writers| ensures WriterOk(t, i) {
      assert WriterOk(s, i);
      if i != a.w {
        OtherLogOk(s.writers[i], s.owner, i, a.event.id.value, (a.w, |s.writers[a.w].log|));
        assert t.writers[i] == s.writers[i];
      }
    }
  }

  lemma ContinueConserves(s: System, a: Action)
    requires Conserved(s) && a.Continue? && Enabled(s, a)
    ensures Conserved(Step(s, a))
  {
    var t, w, facts := Step(s, a), s.writers[a.w], s.ledger.facts;
    assert WriterOk(s, a.w);
    if w.written == |w.pending| {
      assert Waiting(Ended(w)) == Waiting(w);
      forall i | 0 <= i < |t.writers| ensures WriterOk(t, i) {
        assert WriterOk(s, i);
      }
    } else {
      var e := w.pending[w.written];
      assert e in Waiting(w);
      if Outcome(facts, e, a.faults).Refused? {
        RefusedOk(w, s.owner, facts, a.w, a.faults);
      } else {
        DeliveredOk(w, s.owner, facts, a.w, a.faults);
      }
      WaitingOwned(w, s.owner, a.w, e);
      forall i | 0 <= i < |t.writers| ensures WriterOk(t, i) {
        assert WriterOk(s, i);
        if i != a.w {
          OtherWriterOk(s.writers[i], s.owner, facts, i, e, a.faults);
        }
      }
    }
  }

  lemma {:induction false} RunConserves(s: System, actions: seq<Action>)
    requires Conserved(s) && Runnable(s, actions)
    ensures Conserved(Run(s, actions))
    decreases |actions|
  {
    if actions != [] {
      if actions[0].Submit? {
        SubmitConserves(s, actions[0]);
      } else {
        ContinueConserves(s, actions[0]);
      }
      RunConserves(Step(s, actions[0]), actions[1..]);
    }
  }

  lemma StartConserved(facts: Facts, count: nat)
    ensures Conserved(Start(facts, count))
  {
    var s := Start(facts, count);
    forall i | 0 <= i < |s.writers| ensures WriterOk(s, i) {
      assert s.writers[i] == Writer([], {}, [], [], false, 0, false);
    }
  }

  // ----- the promises

  /** In every run, with any failures of the store and any number of interleaved
      writers, each submitted event is stored, waiting or dropped. It is only one of
      these, except for the event a writer is unsure of, which is stored and next in
      its queue. */
  lemma EachEventOnce(facts: Facts, count: nat, actions: seq<Action>, i: nat, j: nat)
    requires Runnable(Start(facts, count), actions) && i < count
    requires j < |Run(Start(facts, count), actions).writers[i].log|
    ensures var s := Run(Start(facts, count), actions);
            var w := s.writers[i];
            w.written <= |w.pending| &&
            var e := w.log[j];
            var stored, waiting, dropped :=
              Stores(s.ledger.facts, e), e in Waiting(w), e.id.Some? && e.id.value in w.dropped;
            && (stored || waiting || dropped) && !(stored && dropped) && !(waiting && dropped)
            && (stored && waiting <==> w.unsure && Waiting(w) != [] && e == Waiting(w)[0])
  {
    StartConserved(facts, count);
    RunConserves(Start(facts, count), actions);
    var s := Run(Start(facts, count), actions);
    var w := s.writers[i];
    assert WriterOk(s, i);
    KeptMembers(w.log, w.dropped, w.log[j]);
    assert w.log[j] in w.delivered + Waiting(w) <==> w.log[j] in w.delivered || w.log[j] in Waiting(w);
  }

  // No commit or release of the run takes effect and is reported as failed.
  predicate RepliesArrive(actions: seq<Action>) {
    forall i :: 0 <= i < |actions| && actions[i].Continue? ==> !actions[i].faults.lost
  }

  ghost predicate AllSure(s: System) {
    forall i :: 0 <= i < |s.writers| ==> !s.writers[i].unsure
  }

  lemma StepStaysSure(s: System, a: Action)
    requires Conserved(s) && AllSure(s) && Enabled(s, a) && (a.Continue? ==> !a.faults.lost)
    ensures AllSure(Step(s, a))
  {
    var w := s.writers[a.w];
    assert WriterOk(s, a.w);
    if a.Continue? && w.written < |w.pending| {
      assert Waiting(w)[0] == w.pending[w.written];
    }
  }

  lemma {:induction false} RunStaysSure(s: System, actions: seq<Action>)
    requires Conserved(s) && AllSure(s) && Runnable(s, actions) && RepliesArrive(actions)
    ensures AllSure(Run(s, actions))
    decreases |actions|
  {
    if actions != [] {
      StepStaysSure(s, actions[0]);
      if actions[0].Submit? {
        SubmitConserves(s, actions[0]);
      } else {
        ContinueConserves(s, actions[0]);
      }
      RunStaysSure(Step(s, actions[0]), actions[1..]);
    }
  }

  /** Writers are unsure only after a reply was lost: without that, every event is in
      exactly one place. */
  lemma ExactlyOnceWithReplies(facts: Facts, count: nat, actions: seq<Action>, i: nat)
    requires Runnable(Start(facts, count), actions) && i < count && RepliesArrive(actions)
    ensures !Run(Start(facts, count), actions).writers[i].unsure
  {
    StartConserved(facts, count);
    RunStaysSure(Start(facts, count), actions);
  }

  ghost predicate Heals(s: System, i: nat, faults: Faults)
    requires i < |s.writers| && s.writers[i].written <= |s.writers[i].pending| && Enabled(s, Continue(i, faults))
  {
    var t := Step(s, Continue(i, faults));
    var w, v := s.writers[i], t.writers[i];
    && Waiting(w) != [] && v.written <= |v.pending| && Waiting(v) == Waiting(w)[1..]
    && Outcome(s.ledger.facts, Waiting(w)[0], faults) == AlreadyStored && t.ledger.facts == s.ledger.facts
    && v.delivered == w.delivered + [Waiting(w)[0]] && !v.unsure
  }

  lemma UnsureHeals(s: System, i: nat, faults: Faults)
    requires i < |s.writers| && QueueOk(s.writers[i]) && StoreOk(s.writers[i], s.ledger.facts)
    requires s.writers[i].unsure && s.writers[i].flushing
    requires !faults.prepare && !faults.open && !faults.query && !faults.close && !faults.lost
    ensures Heals(s, i, faults)
  {
    var w := s.writers[i];
    assert Waiting(w)[0] == w.pending[w.written];
  }

  /** A lost reply heals: the next insert that meets no failure finds the event already
      stored, changes no fact, and takes it out of the queue. */
  lemma LostReplyHeals(facts: Facts, count: nat, actions: seq<Action>, i: nat, faults: Faults)
    requires Runnable(Start(facts, count), actions) && i < count
    requires var w := Run(Start(facts, count), actions).writers[i]; w.unsure && w.flushing
    requires !faults.prepare && !faults.open && !faults.query && !faults.close && !faults.lost
    ensures var s := Run(Start(facts, count), actions);
            s.writers[i].written <= |s.writers[i].pending| && Enabled(s, Continue(i, faults)) && Heals(s, i, faults)
  {
    StartConserved(facts, count);
    RunConserves(Start(facts, count), actions);
    var s := Run(Start(facts, count), actions);
    assert WriterOk(s, i);
    UnsureHeals(s, i, faults);
  }

  /** Queues stay bounded, each writer's events are stored and kept in submission
      order, and events left pending by a call, or dropped, mean the marker was
      requested. */
  lemma QueuesBoundedAndOrdered(facts: Facts, count: nat, actions: seq<Action>, i: nat)
    requires Runnable(Start(facts, count), actions) && i < count
    ensures var s := Run(Start(facts, count), actions);
            var w := s.writers[i];
            && w.written <= |w.pending| <= MAX_PENDING
            && Kept(w.log, w.dropped) == w.delivered + Waiting(w)
            && (forall e :: e in w.delivered ==> Stores(s.ledger.facts, e))
            && ((w.pending != [] && !w.flushing) || w.dropped != {} ==> s.ledger.marked)
  {
    StartConserved(facts, count);
    RunConserves(Start(facts, count), actions);
    assert WriterOk(Run(Start(facts, count), actions), i);
  }

  // ----- a call that is not interleaved is what the sink runs

  // The steps of one flush, up to its end.
  function Flush(s: System, w: nat, faults: nat -> Faults, k: nat): System
    requires w < |s.writers| && s.writers[w].flushing && s.writers[w].written <= |s.writers[w].pending|
    decreases |s.writers[w].pending| - s.writers[w].written
  {
    var t := Step(s, Continue(w, faults(k)));
    if t.writers[w].flushing then Flush(t, w, faults, k + 1) else t
  }

  lemma {:induction false} FlushMeaning(s: System, w: nat, faults: nat -> Faults, k: nat)
    requires w < |s.writers| && s.writers[w].flushing && s.writers[w].written <= |s.writers[w].pending|
    ensures var t, queue := Flush(s, w, faults, k), Waiting(s.writers[w]);
            var n := Written(s.ledger.facts, queue, faults, k);
            && |t.writers| == |s.writers| && t.writers[w].pending == queue[n..] && !t.writers[w].flushing
            && t.ledger == Ledger(Flushed(s.ledger.facts, queue, faults, k), s.ledger.marked || n < |queue|)
    decreases |s.writers[w].pending| - s.writers[w].written
  {
    var t := Step(s, Continue(w, faults(k)));
    var queue := Waiting(s.writers[w]);
    if t.writers[w].flushing {
      FlushMeaning(t, w, faults, k + 1);
      assert Waiting(t.writers[w]) == queue[1..];
    } else {
      assert queue[0..] == queue;
    }
  }

  /** One call run without interruption, as its steps, does what `Persisted` says. */
  lemma CallIsItsSteps(s: System, w: nat, event: Fact, opens: bool, faults: nat -> Faults)
    requires Enabled(s, Submit(w, event, opens))
    ensures var t := Step(s, Submit(w, event, opens));
            var end := if opens then Flush(t, w, faults, 0) else t;
            && |end.writers| == |s.writers|
            && (end.ledger, end.writers[w].pending) == Persisted(s.ledger, s.writers[w].pending, event, opens, faults)
  {
    var t := Step(s, Submit(w, event, opens));
    if opens {
      FlushMeaning(t, w, faults, 0);
      assert Waiting(t.writers[w]) == Queued(s.writers[w].pending, event);
    }
  }

  /** In every reachable state, whatever failed before, the next call of a writer that
      meets no failure stores everything that waits: its queue ends empty, if only its
      events have their fields. */
  lemma CleanCallDrains(facts: Facts, count: nat, actions: seq<Action>, w: nat, event: Fact, faults: nat -> Faults)
    requires Runnable(Start(facts, count), actions)
    requires Enabled(Run(Start(facts, count), actions), Submit(w, event, true))
    requires forall k :: NoFault(faults(k))
    requires forall e :: e in Run(Start(facts, count), actions).writers[w].pending + [event] ==> Complete(e)
    ensures var s := Run(Start(facts, count), actions);
            var end := Flush(Step(s, Submit(w, event, true)), w, faults, 0);
            && |end.writers| == count && end.writers[w].pending == []
            && (|s.writers[w].pending| < 100 ==> end.ledger.marked == s.ledger.marked)
            && Joined(s.ledger.facts, Queued(s.writers[w].pending, event), end.ledger.facts)
  {
    StartConserved(facts, count);
    RunConserves(Start(facts, count), actions);
    var s := Run(Start(facts, count), actions);
    var t := Step(s, Submit(w, event, true));
    SubmitConserves(s, Submit(w, event, true));
    assert WriterOk(s, w) && WriterOk(t, w);
    var queue := Waiting(t.writers[w]);
    assert queue == Queued(s.writers[w].pending, event);
    WaitingStorable(t, w);
    CleanFlushIff(s.ledger.facts, queue, faults, 0);
    FlushMeaning(t, w, faults, 0);
  }

  lemma WaitingStorable(s: System, i: nat)
    requires i < |s.writers| && WriterOk(s, i)
    requires forall e :: e in Waiting(s.writers[i]) ==> Complete(e)
    ensures Storable(s.ledger.facts, Waiting(s.writers[i]))
  {
    var (w, queue) := (s.writers[i], Waiting(s.writers[i]));
    forall e, other | e in queue && other in queue && e.id == other.id ensures e == other {
      var j :| 0 <= j < |queue| && queue[j] == e;
      var k :| 0 <= k < |queue| && queue[k] == other;
      if j < k {
        WaitingDistinct(w, s.owner, i, j, k);
      } else if k < j {
        WaitingDistinct(w, s.owner, i, k, j);
      }
    }
  }
}
