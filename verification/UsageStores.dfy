/** The store of immutable usage facts and `insert_event`, which runs in its own
    transaction or in a savepoint of the caller's. */
module UsageStores {
  import opened Text

  // A usage event as JSON; equal facts are equal JSON values.
  datatype Fact = Fact(id: Option<string>, kind: Option<string>, timestamp: Option<string>, body: nat)

  // A stored record may be unreadable, as old rows can be.
  datatype Stored = Parsed(fact: Fact) | Unreadable
  type Facts = map<string, Stored>

  datatype Reason = StoreFailure | MissingField | IdentityConflict
  datatype Result = Inserted | AlreadyStored | Refused(reason: Reason)

  // Which of the steps of one call fail. Steps a call does not reach do not matter.
  // `lost` is a commit or release that takes effect and is reported as failed.
  datatype Faults = Faults(prepare: bool, open: bool, query: bool, check: bool, write: bool, index: bool,
                           close: bool, lost: bool)

  predicate Complete(f: Fact) {
    f.id.Some? && f.kind.Some? && f.timestamp.Some?
  }

  // Nothing of the call fails.
  predicate NoFault(faults: Faults) {
    faults == Faults(false, false, false, false, false, false, false, false)
  }

  // A new fact gets as far as the commit.
  predicate ReachesCommit(facts: Facts, f: Fact, faults: Faults) {
    && !faults.prepare && !faults.open && Complete(f) && !faults.query && f.id.value !in facts
    && !faults.check && !faults.write && !faults.index
  }

  // What one call returns, and the facts it leaves.
  function Outcome(facts: Facts, f: Fact, faults: Faults): Result {
    if faults.prepare || faults.open then Refused(StoreFailure)
    else if !Complete(f) then Refused(MissingField)
    else if faults.query then Refused(StoreFailure)
    else if f.id.value in facts then
      if facts[f.id.value] != Parsed(f) then Refused(IdentityConflict)
      else if faults.close || faults.lost then Refused(StoreFailure) else AlreadyStored
    else if !ReachesCommit(facts, f, faults) || faults.close || faults.lost then Refused(StoreFailure)
    else Inserted
  }

  function After(facts: Facts, f: Fact, faults: Faults): Facts {
    if ReachesCommit(facts, f, faults) && !faults.close then facts[f.id.value := Parsed(f)] else facts
  }

  /** One connection: the facts it sees, and the states to return to, one for each
      open transaction or savepoint. */
  class Connection {
    var facts: Facts
    var saved: seq<Facts>

    constructor (facts: Facts)
      ensures this.facts == facts && saved == []
    {
      this.facts := facts;
      saved := [];
    }

    // BEGIN IMMEDIATE or SAVEPOINT
    method Open()
      modifies this
      ensures facts == old(facts) && saved == old(saved) + [old(facts)]
    {
      saved := saved + [facts];
    }

    // COMMIT or RELEASE
    method Close()
      requires saved != []
      modifies this
      ensures facts == old(facts) && saved == old(saved)[..|old(saved)| - 1]
    {
      saved := saved[..|saved| - 1];
    }

    // ROLLBACK, or ROLLBACK TO and RELEASE; it fails, unnoticed, when the transaction
    // or savepoint of this call is already gone.
    method Undo(depth: nat)
      requires depth <= |saved| <= depth + 1
      modifies this
      ensures |old(saved)| == depth ==> facts == old(facts) && saved == old(saved)
      ensures |old(saved)| == depth + 1 ==> facts == old(saved)[depth] && saved == old(saved)[..depth]
    {
      if |saved| == depth + 1 {
        facts, saved := saved[depth], saved[..depth];
      }
    }

    method InsertEvent(f: Fact, faults: Faults) returns (r: Result)
      modifies this
      ensures r == Outcome(old(facts), f, faults)
      ensures facts == After(old(facts), f, faults)
      ensures saved == old(saved)
      ensures NoFault(faults) ==>
                && (r == Inserted <==>
                      f.id.Some? && f.kind.Some? && f.timestamp.Some? && f.id.value !in old(facts))
                && facts == if r == Inserted then old(facts)[f.id.value := Parsed(f)] else old(facts)
    {
      if faults.prepare || faults.open {
        return Refused(StoreFailure);
      }
      var depth := |saved|;
      Open();
      r := InsertInner(f, faults);
      if !r.Refused? {
        if !faults.close {
          Close();
        }
        if faults.close || faults.lost {
          r := Refused(StoreFailure);
        }
      }
      if r.Refused? {
        Undo(depth);
      }
    }

    // The fact may already be written when a later step fails.
    method InsertInner(f: Fact, faults: Faults) returns (r: Result)
      modifies this
      ensures saved == old(saved)
      ensures r == Outcome(old(facts), f, faults.(prepare := false, open := false, close := false, lost := false))
      ensures facts == if ReachesCommit(old(facts), f, faults.(prepare := false, open := false, index := false))
                       then old(facts)[f.id.value := Parsed(f)] else old(facts)
    {
      if !Complete(f) {
        return Refused(MissingField);
      }
      if faults.query {
        return Refused(StoreFailure);
      }
      if f.id.value in facts {
        return if facts[f.id.value] == Parsed(f) then AlreadyStored else Refused(IdentityConflict);
      }
      if faults.check || faults.write {
        return Refused(StoreFailure);
      }
      facts := facts[f.id.value := Parsed(f)];
      if faults.index {
        return Refused(StoreFailure);
      }
      return Inserted;
    }
  }

  // ----- when an insert succeeds

  /** Without failures: an insert succeeds if and only if the event has its three fields
      and a new identity, and it then adds exactly this event; it reports an event as
      stored if and only if an equal one is stored. Only a conflicting record or a
      missing field is refused. */
  lemma CleanInsertIff(facts: Facts, f: Fact, faults: Faults)
    requires NoFault(faults)
    ensures var (r, next) := (Outcome(facts, f, faults), After(facts, f, faults));
            && (r == Inserted <==> f.id.Some? && f.kind.Some? && f.timestamp.Some? && f.id.value !in facts)
            && (r == AlreadyStored <==>
                  && f.id.Some? && f.kind.Some? && f.timestamp.Some?
                  && f.id.value in facts && facts[f.id.value] == Parsed(f))
            && (r == Refused(MissingField) <==> f.id.None? || f.kind.None? || f.timestamp.None?)
            && r != Refused(StoreFailure)
            && next == if r == Inserted then facts[f.id.value := Parsed(f)] else facts
  {
  }

  /** With failures: a new event is stored if and only if no step up to the commit fails,
      and reported so if and only if the reply of the commit arrives too. An equal event is
      reported if and only if none of the four steps on its way fails. Failures the call
      does not reach change nothing. */
  lemma InsertIff(facts: Facts, f: Fact, faults: Faults)
    ensures var (r, next) := (Outcome(facts, f, faults), After(facts, f, faults));
            var reached := !faults.prepare && !faults.open && f.id.Some? && f.kind.Some? && f.timestamp.Some? && !faults.query;
            var stored := && reached && f.id.value !in facts
                          && !faults.check && !faults.write && !faults.index && !faults.close;
            && next == (if stored then facts[f.id.value := Parsed(f)] else facts)
            && (r == Inserted <==> stored && !faults.lost)
            && (r == AlreadyStored <==>
                  && reached && f.id.value in facts && facts[f.id.value] == Parsed(f) && !faults.close && !faults.lost)
            && (r == Refused(IdentityConflict) <==>
                  reached && f.id.value in facts && facts[f.id.value] != Parsed(f))
            && (r == Refused(MissingField) <==>
                  !faults.prepare && !faults.open && (f.id.None? || f.kind.None? || f.timestamp.None?))
  {
  }

  // ----- runs of calls

  datatype Call = Call(fact: Fact, faults: Faults)

  function RunCalls(facts: Facts, calls: seq<Call>): Facts
    decreases |calls|
  {
    if calls == [] then facts else RunCalls(After(facts, calls[0].fact, calls[0].faults), calls[1..])
  }

  /** Facts are immutable: over any sequence of calls a stored identity keeps its
      record, and a new record is one some call submitted. */
  lemma {:induction false} FactsImmutable(facts: Facts, calls: seq<Call>)
    ensures forall id :: id in facts ==> id in RunCalls(facts, calls) && RunCalls(facts, calls)[id] == facts[id]
    ensures forall id :: id in RunCalls(facts, calls) && id !in facts ==>
              exists i :: && 0 <= i < |calls| && calls[i].fact.id == Some(id)
                          && RunCalls(facts, calls)[id] == Parsed(calls[i].fact)
    decreases |calls|
  {
    if calls != [] {
      var next := After(facts, calls[0].fact, calls[0].faults);
      FactsImmutable(next, calls[1..]);
      var end := RunCalls(facts, calls);
      forall id | id in end && id !in facts
        ensures exists i :: 0 <= i < |calls| && calls[i].fact.id == Some(id) && end[id] == Parsed(calls[i].fact)
      {
        if id !in next {
          var i :| 0 <= i < |calls[1..]| && calls[1..][i].fact.id == Some(id) && end[id] == Parsed(calls[1..][i].fact);
          assert calls[i + 1] == calls[1..][i];
        } else {
          assert calls[0].fact.id == Some(id) && next[id] == end[id];
        }
      }
    }
  }

  /** Facts are left as they were by every refused call whose commit did not take
      effect behind its back; that one stored exactly its event. */
  lemma RefusalKeepsFacts(facts: Facts, f: Fact, faults: Faults)
    requires Outcome(facts, f, faults).Refused?
    ensures if ReachesCommit(facts, f, faults) && faults.lost && !faults.close
            then f.id.Some? && f.id.value !in facts && After(facts, f, faults) == facts[f.id.value := Parsed(f)]
            else After(facts, f, faults) == facts
  {
  }

  /** Once a call has stored an event, whether it reported so or not, re-inserting it
      changes nothing and reports it as already stored; any other record under that
      identity is refused, then and at any later time. */
  lemma ReinsertKeepsFacts(facts: Facts, f: Fact, faults: Faults, calls: seq<Call>, again: Fact, later: Faults)
    requires ReachesCommit(facts, f, faults) && !faults.close && again.id == f.id
    ensures var now := RunCalls(After(facts, f, faults), calls);
            && After(now, again, later) == now
            && (Outcome(now, again, later) == AlreadyStored ==> again == f)
            && (again == f && !later.prepare && !later.open && !later.query && !later.close && !later.lost ==>
                  Outcome(now, again, later) == AlreadyStored)
  {
    FactsImmutable(After(facts, f, faults), calls);
  }
}
