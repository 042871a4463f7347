/** What a call for the identity returns: one call left alone, and the causes of every
    failure in any run. */
module IdentityCalls {
  import opened Text
  import opened Identity

  // ----- one call that nothing disturbs

  // The steps of an initializer, from the first look to the release of the lock.
  function InitializerSteps(p: Pid, newId: string, text: nat): seq<Event> {
    [Begin(p, Initializer)] + ([Acquire(p), Reread(p)] + ([Load(p, newId, text), Compare(p)] + [Install(p), Release(p)]))
  }

  // Those of a metadata writer, which loads a missing file a second time.
  function WriterSteps(p: Pid, suppress: bool, newId: string, text: nat): seq<Event> {
    [Begin(p, Writer(suppress)), Acquire(p)]
    + ([Load(p, newId, text), Load(p, newId, text)] + ([Compare(p)] + [Install(p), Release(p)]))
  }

  predicate HasId(c: Content) {
    c.installId.Some? && Trim(c.installId.value) != ""
  }

  // The call is over and the lock free; nothing else changed but the file.
  predicate Ends(before: State, after: State, p: Pid, outcome: Outcome, file: File) {
    after == State(file, None, before.phases[p := Done(outcome)], before.writes)
  }

  // A call that has not got the lock, which is free.
  predicate CanEnter(s: State, p: Pid, role: Role) {
    s.lock.None? && (PhaseOf(s, p) == Idle || PhaseOf(s, p) == Waiting(role))
  }

  lemma RunTo(s: State, es: seq<Event>, k: nat)
    requires k < |es|
    ensures Run(s, es[..k + 1]) == Next(Run(s, es[..k]), es[k])
  {
    assert es[..k + 1] == es[..k] + [es[k]];
    RunAppend(s, es[..k], [es[k]]);
    RunOne(Run(s, es[..k]), es[k], []);
    assert [es[k]] + [] == [es[k]];
  }

  lemma RunTwo(s: State, a: Event, b: Event, rest: seq<Event>)
    ensures Run(s, [a, b] + rest) == Run(Next(Next(s, a), b), rest)
  {
    assert [a, b] + rest == [a] + ([b] + rest);
    RunOne(s, a, [b] + rest);
    RunOne(Next(s, a), b, rest);
  }

  // Steps of a call that is over do nothing.
  lemma {:induction false} DoneStays(s: State, p: Pid, es: seq<Event>)
    requires PhaseOf(s, p).Done?
    requires forall e :: e in es ==>
               !e.Outside? && e.p == p
               && (e.Acquire? || e.Reread? || e.Load? || e.Compare? || e.Install? || e.Release?)
    ensures Run(s, es) == s
    decreases |es|
  {
    if es != [] {
      assert es[0] in es && Next(s, es[0]) == s;
      DoneStays(s, p, es[1..]);
    }
  }

  // The first look answers, or sends the call to the lock.
  lemma FirstLook(s: State, p: Pid)
    requires CanEnter(s, p, Initializer)
    ensures var t := Next(s, Begin(p, Initializer));
            && t.file == s.file && t.lock.None? && t.writes == s.writes
            && (t.phases == s.phases[p := Waiting(Initializer)]
                || (s.file.Some? && !s.file.value.valid && Ends(s, t, p, Failed, s.file))
                || (s.file.Some? && s.file.value.valid && HasId(s.file.value)
                    && Ends(s, t, p, GotId(Trim(s.file.value.installId.value)), s.file)))
  {
    assert PhaseOf(s, p).Waiting? ==> s.phases[p := Waiting(Initializer)] == s.phases;
  }

  // A call over but for the lock lets it go.
  lemma ReleasingEnds(s: State, p: Pid)
    requires p in s.phases && s.phases[p].Releasing?
    ensures Ends(s, Run(s, [Install(p), Release(p)]), p, s.phases[p].outcome, s.file)
  {
    RunTwo(s, Install(p), Release(p), []);
    assert [Install(p), Release(p)] + [] == [Install(p), Release(p)];
  }

  lemma ReadyEnds(s: State, p: Pid)
    requires p in s.phases && s.phases[p].Ready? && s.phases[p].original == s.file
    ensures Ends(s, Run(s, [Install(p), Release(p)]), p, s.phases[p].outcome, Some(s.phases[p].next))
  {
    RunTwo(s, Install(p), Release(p), []);
    assert [Install(p), Release(p)] + [] == [Install(p), Release(p)];
  }

  // Into the lock, and a second look at the file.
  lemma LockedLook(s: State, p: Pid)
    requires p in s.phases && s.phases[p] == Waiting(Initializer) && s.lock.None?
    ensures var t := Next(Next(s, Acquire(p)), Reread(p));
            && t.file == s.file && t.lock == Some(p) && t.writes == s.writes
            && t.phases == s.phases[p := if s.file.Some? && !s.file.value.valid then Releasing(Failed)
                                         else if s.file.Some? && HasId(s.file.value)
                                              then Releasing(GotId(Trim(s.file.value.installId.value)))
                                         else Checked(|s.writes|)]
  {
  }

  lemma LoadedAndCompared(s: State, p: Pid, newId: string, text: nat)
    requires p in s.phases && s.phases[p].Checked? && IsFreshId(newId)
    requires s.file.Some? ==> s.file.value.valid
    ensures var t := Next(Next(s, Load(p, newId, text)), Compare(p));
            && p in t.phases && t == s.(phases := s.phases[p := t.phases[p]])
            && if s.file.Some? && s.file.value.legacy then t.phases[p] == Releasing(Failed)
               else t.phases[p].Ready? && t.phases[p].original == s.file && t.phases[p].outcome == GotId(newId)
                    && t.phases[p].next == Content(text, true, Some(newId), false)
  {
    var loaded := Next(s, Load(p, newId, text));
    assert loaded.file == s.file && (PhaseOf(loaded, p).Staged? || PhaseOf(loaded, p) == Releasing(Failed));
  }

  lemma LoadAndFinish(s: State, p: Pid, newId: string, text: nat)
    requires p in s.phases && s.phases[p].Checked? && IsFreshId(newId)
    requires s.file.Some? ==> s.file.value.valid
    ensures var t := Run(s, [Load(p, newId, text), Compare(p)] + [Install(p), Release(p)]);
            if s.file.Some? && s.file.value.legacy then Ends(s, t, p, Failed, s.file)
            else Ends(s, t, p, GotId(newId), Some(Content(text, true, Some(newId), false)))
  {
    RunTwo(s, Load(p, newId, text), Compare(p), [Install(p), Release(p)]);
    LoadedAndCompared(s, p, newId, text);
    var t := Next(Next(s, Load(p, newId, text)), Compare(p));
    if t.phases[p].Releasing? {
      ReleasingEnds(t, p);
    } else {
      ReadyEnds(t, p);
    }
  }

  // What an initializer makes of each file.
  predicate InitializerResult(s: State, t: State, p: Pid, newId: string, text: nat) {
    match s.file
    case None => Ends(s, t, p, GotId(newId), Some(Content(text, true, Some(newId), false)))
    case Some(c) =>
      if !c.valid then Ends(s, t, p, Failed, s.file)
      else if HasId(c) then Ends(s, t, p, GotId(Trim(c.installId.value)), s.file)
      else if c.legacy then Ends(s, t, p, Failed, s.file)
      else Ends(s, t, p, GotId(newId), Some(Content(text, true, Some(newId), false)))
  }

  // With an answer from the second look there is nothing left to load.
  lemma AnsweredEnds(s: State, p: Pid, newId: string, text: nat)
    requires p in s.phases && s.phases[p].Releasing?
    ensures Ends(s, Run(s, [Load(p, newId, text), Compare(p)] + [Install(p), Release(p)]), p, s.phases[p].outcome, s.file)
  {
    RunTwo(s, Load(p, newId, text), Compare(p), [Install(p), Release(p)]);
    assert Next(s, Load(p, newId, text)) == s && Next(s, Compare(p)) == s;
    ReleasingEnds(s, p);
  }

  lemma FromWaiting(s: State, p: Pid, newId: string, text: nat)
    requires p in s.phases && s.phases[p] == Waiting(Initializer) && s.lock.None? && IsFreshId(newId)
    ensures var t := Run(s, [Acquire(p), Reread(p)] + ([Load(p, newId, text), Compare(p)] + [Install(p), Release(p)]));
            InitializerResult(s, t, p, newId, text)
  {
    RunTwo(s, Acquire(p), Reread(p), [Load(p, newId, text), Compare(p)] + [Install(p), Release(p)]);
    LockedLook(s, p);
    var looked := Next(Next(s, Acquire(p)), Reread(p));
    if looked.phases[p].Releasing? {
      AnsweredEnds(looked, p, newId, text);
    } else {
      LoadAndFinish(looked, p, newId, text);
    }
  }

  /** An initializer that nothing disturbs, from every state with the lock free, its own
      first look taken or not. A missing file, and a readable one with neither an identity
      nor legacy credentials, get the new identity; a present identity is returned and the
      file left as it is; an unreadable file, and one with legacy credentials and no
      identity, are left as they are and the call fails. The lock is free afterwards. */
  lemma InitializerAlone(s: State, p: Pid, newId: string, text: nat)
    requires CanEnter(s, p, Initializer) && IsFreshId(newId)
    ensures InitializerResult(s, Run(s, InitializerSteps(p, newId, text)), p, newId, text)
  {
    var rest := [Acquire(p), Reread(p)] + ([Load(p, newId, text), Compare(p)] + [Install(p), Release(p)]);
    RunOne(s, Begin(p, Initializer), rest);
    FirstLook(s, p);
    var t := Next(s, Begin(p, Initializer));
    if t.phases[p].Done? {
      DoneStays(t, p, rest);
    } else {
      FromWaiting(t, p, newId, text);
    }
  }

  // The identity a metadata writer leaves in a readable file.
  function KeptId(c: Content, suppress: bool, newId: string): Option<string> {
    if HasId(c) then Some(Trim(c.installId.value)) else if suppress then None else Some(newId)
  }

  lemma WriterEnters(s: State, p: Pid, suppress: bool)
    requires CanEnter(s, p, Writer(suppress))
    ensures Next(Next(s, Begin(p, Writer(suppress))), Acquire(p))
         == State(s.file, Some(p), s.phases[p := Locked(Writer(suppress))], s.writes)
  {
  }

  // Both loads: the second one does nothing when the first found a file.
  lemma WriterLoads(s: State, p: Pid, suppress: bool, newId: string, text: nat)
    requires p in s.phases && s.phases[p] == Locked(Writer(suppress)) && s.lock == Some(p) && IsFreshId(newId)
    ensures var t := Next(Next(s, Load(p, newId, text)), Load(p, newId, text));
            && p in t.phases && t == State(s.file, s.lock, s.phases[p := t.phases[p]], s.writes)
            && match s.file
               case None =>
                 t.phases[p].Ready? && t.phases[p].original.None? && t.phases[p].outcome == Written
                 && t.phases[p].next == Content(text, true, if suppress then None else Some(newId), false)
               case Some(c) =>
                 var next := Content(text, true, KeptId(c, suppress, newId), false);
                 if !c.valid || c.legacy then t.phases[p] == Releasing(Failed)
                 else if next == c then t.phases[p] == Releasing(Written)
                 else t.phases[p].Staged? && t.phases[p].original == s.file && t.phases[p].next == next
                      && t.phases[p].outcome == Written
  {
    var t := Next(s, Load(p, newId, text));
    assert t.file == s.file;
  }

  lemma WriterFinishes(s: State, p: Pid)
    requires p in s.phases
    requires var ph := s.phases[p];
             ph.Releasing? || ((ph.Staged? || ph.Ready?) && ph.original == s.file)
    ensures var ph, t := s.phases[p], Run(s, [Compare(p)] + [Install(p), Release(p)]);
            Ends(s, t, p, ph.outcome, if ph.Releasing? then s.file else Some(ph.next))
  {
    RunOne(s, Compare(p), [Install(p), Release(p)]);
    var compared := Next(s, Compare(p));
    if PhaseOf(compared, p).Releasing? {
      ReleasingEnds(compared, p);
    } else {
      ReadyEnds(compared, p);
    }
  }

  // What a metadata writer makes of each file.
  predicate WriterResult(s: State, t: State, p: Pid, suppress: bool, newId: string, text: nat) {
    match s.file
    case None => Ends(s, t, p, Written, Some(Content(text, true, if suppress then None else Some(newId), false)))
    case Some(c) =>
      if !c.valid || c.legacy then Ends(s, t, p, Failed, s.file)
      else Ends(s, t, p, Written, Some(Content(text, true, KeptId(c, suppress, newId), false)))
  }

  lemma FromLocked(s: State, p: Pid, suppress: bool, newId: string, text: nat)
    requires p in s.phases && s.phases[p] == Locked(Writer(suppress)) && s.lock == Some(p) && IsFreshId(newId)
    ensures var t := Run(s, [Load(p, newId, text), Load(p, newId, text)] + ([Compare(p)] + [Install(p), Release(p)]));
            WriterResult(s, t, p, suppress, newId, text)
  {
    RunTwo(s, Load(p, newId, text), Load(p, newId, text), [Compare(p)] + [Install(p), Release(p)]);
    WriterLoads(s, p, suppress, newId, text);
    WriterFinishes(Next(Next(s, Load(p, newId, text)), Load(p, newId, text)), p);
  }

  /** A metadata writer likewise: a present identity is kept, a missing one added unless
      suppressed, and an unreadable file or one with legacy credentials is left as it is
      and the call fails. */
  lemma WriterAlone(s: State, p: Pid, suppress: bool, newId: string, text: nat)
    requires CanEnter(s, p, Writer(suppress)) && IsFreshId(newId)
    ensures WriterResult(s, Run(s, WriterSteps(p, suppress, newId, text)), p, suppress, newId, text)
  {
    var rest := [Load(p, newId, text), Load(p, newId, text)] + ([Compare(p)] + [Install(p), Release(p)]);
    RunTwo(s, Begin(p, Writer(suppress)), Acquire(p), rest);
    WriterEnters(s, p, suppress);
    FromLocked(Next(Next(s, Begin(p, Writer(suppress))), Acquire(p)), p, suppress, newId, text);
  }

  // ----- what can go wrong at any step

  /** A call inside the lock may crash, which leaves the lock taken and the file as it is,
      or meet an I/O error, after which it fails and lets the lock go; a waiting call may
      give up. None of these touches the file. */
  lemma CallsCanFail(s: State, p: Pid)
    requires Inside(PhaseOf(s, p)) && s.lock == Some(p)
    ensures Next(s, Crash(p)) == State(s.file, Some(p), s.phases[p := Crashed], s.writes)
    ensures Ends(s, Next(Next(s, IoError(p)), Release(p)), p, Failed, s.file)
  {
  }

  lemma WaitingCanGiveUp(s: State, p: Pid, role: Role)
    requires PhaseOf(s, p) == Waiting(role)
    ensures Next(s, GiveUp(p)) == State(s.file, s.lock, s.phases[p := Done(Failed)], s.writes)
    ensures s.lock.Some? ==> Next(s, Acquire(p)) == s
  {
  }

  // ----- why calls fail, in every run

  // What the file of a call in progress was when the call loaded it, and how many
  // outside writes had happened.
  predicate ChangedSince(s: State, loaded: nat, original: File) {
    loaded < |s.writes| && Last(s.writes) != original
  }

  // The event gives the call a reason to fail.
  predicate FailsBy(s: State, e: Event, p: Pid) {
    match e
    case GiveUp(q) => q == p
    case IoError(q) => q == p
    case Begin(q, _) => q == p && s.file.Some? && !s.file.value.valid
    case Reread(q) => q == p && s.file.Some? && !s.file.value.valid
    case Load(q, _, _) => q == p && s.file.Some? && (!s.file.value.valid || s.file.value.legacy)
    case Compare(q) =>
      q == p && PhaseOf(s, p).Staged? && ChangedSince(s, PhaseOf(s, p).loaded, PhaseOf(s, p).original)
    case Install(q) =>
      q == p && PhaseOf(s, p).Ready? && PhaseOf(s, p).original.None? && ChangedSince(s, PhaseOf(s, p).compared, None)
    case _ => false
  }

  predicate Failing(ph: Phase) {
    (ph.Releasing? || ph.Done?) && ph.outcome.Failed?
  }

  // Calls in progress plan to succeed.
  predicate Hopeful(ph: Phase) {
    (ph.Staged? || ph.Ready?) ==> !ph.outcome.Failed?
  }

  lemma StepFails(s: State, e: Event, p: Pid)
    requires AllTraced(s) && Hopeful(PhaseOf(s, p))
    ensures Hopeful(PhaseOf(Next(s, e), p))
    ensures Failing(PhaseOf(Next(s, e), p)) ==> Failing(PhaseOf(s, p)) || FailsBy(s, e, p)
  {
    assert Traced(s, PhaseOf(s, p));
  }

  /** In every run with any other calls, crashes and outside writers, a call fails only
      for a reason: it gave up waiting or met an I/O error, the file was unreadable or,
      when loaded, had legacy credentials, or an outside write changed or created the
      file after the call loaded it. */
  lemma {:induction false} FailuresHaveCauses(file: File, es: seq<Event>, p: Pid)
    requires Failing(PhaseOf(Run(Initial(file), es), p))
    ensures exists i :: 0 <= i < |es| && FailsBy(Run(Initial(file), es[..i]), es[i], p)
    decreases |es|
  {
    FailingTraced(file, es, p);
    if es != [] {
      var n := |es| - 1;
      var before := Run(Initial(file), es[..n]);
      RunTo(Initial(file), es, |es| - 1);
      assert es[..|es| - 1 + 1] == es;
      FailingTraced(file, es[..n], p);
      StepFails(before, es[n], p);
      if Failing(PhaseOf(before, p)) {
        FailuresHaveCauses(file, es[..n], p);
        var i :| 0 <= i < n && FailsBy(Run(Initial(file), es[..n][..i]), es[..n][i], p);
        assert es[..n][..i] == es[..i];
      }
    }
  }

  lemma {:induction false} FailingTraced(file: File, es: seq<Event>, p: Pid)
    ensures AllTraced(Run(Initial(file), es)) && Hopeful(PhaseOf(Run(Initial(file), es), p))
    decreases |es|
  {
    RunTraced(Initial(file), es);
    if es != [] {
      FailingTraced(file, es[..|es| - 1], p);
      RunTo(Initial(file), es, |es| - 1);
      assert es[..|es| - 1 + 1] == es;
      StepFails(Run(Initial(file), es[..|es| - 1]), es[|es| - 1], p);
    }
  }
}
