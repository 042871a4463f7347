/** Installing the environment identity: any number of processes share one config
    file and one lock file, may crash anywhere, and meet outside writers that
    ignore the lock. Every file operation is one atomic step. */
module Identity {
  import opened Text

  type Pid = nat

  // A config file: its raw text, and what the parsers make of it.
  datatype Content = Content(text: nat, valid: bool, installId: Option<string>, legacy: bool)
  type File = Option<Content>

  // The identity callers see: present, trimmed and not blank.
  function TrimmedId(file: File): Option<string> {
    if file.Some? && file.value.valid && file.value.installId.Some? && Trim(file.value.installId.value) != ""
    then Some(Trim(file.value.installId.value)) else None
  }

  predicate Unreadable(file: File) {
    file.Some? && !file.value.valid
  }

  predicate IsFreshId(id: string) {
    id != "" && Trim(id) == id
  }

  // `ensure_environment_id_at`, or a metadata writer that may suppress a missing id.
  datatype Role = Initializer | Writer(suppress: bool)
  datatype Outcome = GotId(id: string) | Written | Failed

  // `read`, `loaded` and `compared` note how many outside writes had happened when
  // the call looked for an identity, loaded the file and compared it.
  datatype Phase =
    | Idle
    | Waiting(role: Role)                          // wants the lock
    | Locked(role: Role)                           // lock taken, nothing read yet
    | Checked(read: nat)                           // initializer: locked re-read found no id
    | Missing(id: Option<string>, read: nat)       // writer: first load found no file
    | Staged(original: File, next: Content, outcome: Outcome, read: nat, loaded: nat)
    | Ready(original: File, next: Content, outcome: Outcome, read: nat, loaded: nat, compared: nat)
    | Releasing(outcome: Outcome)                  // action over, lock still held
    | Done(outcome: Outcome)
    | Crashed

  predicate Inside(ph: Phase) {
    ph.Locked? || ph.Checked? || ph.Missing? || ph.Staged? || ph.Ready? || ph.Releasing?
  }

  // `writes` are the outside writes so far; the protocol never reads them.
  datatype State = State(file: File, lock: Option<Pid>, phases: map<Pid, Phase>, writes: seq<File>)

  function PhaseOf(s: State, p: Pid): Phase {
    if p in s.phases then s.phases[p] else Idle
  }

  datatype Event =
    | Begin(p: Pid, role: Role)
    | Acquire(p: Pid)
    | GiveUp(p: Pid)
    | Reread(p: Pid)
    | Load(p: Pid, newId: string, text: nat)
    | Compare(p: Pid)
    | Install(p: Pid)
    | IoError(p: Pid)
    | Release(p: Pid)
    | Crash(p: Pid)
    | Outside(content: File)

  function Move(s: State, p: Pid, ph: Phase): State {
    s.(phases := s.phases[p := ph])
  }

  // `install_id_or_new`
  function InstallIdOrNew(existing: Option<string>, newId: string): string {
    if existing.Some? && Trim(existing.value) != "" then Trim(existing.value) else newId
  }

  // The document is loaded, changed and rendered; refused with legacy credentials.
  function LoadStep(file: File, ph: Phase, newId: string, text: nat, now: nat): Phase {
    if Unreadable(file) then Releasing(Failed)
    else if file.Some? && file.value.legacy then Releasing(Failed)
    else
      match ph
      case Checked(read) => Staged(file, Content(text, true, Some(newId), false), GotId(newId), read, now)
      case Locked(Writer(suppress)) =>
        if file.None? then Missing(if suppress then None else Some(newId), now)
        else
          var blank := TrimmedId(file).None?;
          var id := if suppress && blank then None else Some(InstallIdOrNew(file.value.installId, newId));
          PatchStep(file, id, text, now, now)
      case Missing(id, read) =>
        if file.None? then Ready(None, Content(text, true, id, false), Written, read, now, now)
        else PatchStep(file, id, text, read, now)
      case _ => ph
  }

  // `persist_loaded_section_fields`: nothing to do when the document is unchanged.
  function PatchStep(file: File, id: Option<string>, text: nat, read: nat, now: nat): Phase
    requires file.Some?
  {
    var next := Content(text, true, id, false);
    if next == file.value then Releasing(Written) else Staged(file, next, Written, read, now)
  }

  function Next(s: State, e: Event): State {
    match e
    case Begin(p, role) =>
      if !PhaseOf(s, p).Idle? then s
      else if role.Writer? then Move(s, p, Waiting(role))
      else if Unreadable(s.file) then Move(s, p, Done(Failed))
      else if TrimmedId(s.file).Some? then Move(s, p, Done(GotId(TrimmedId(s.file).value)))
      else Move(s, p, Waiting(role))
    case Acquire(p) =>
      if PhaseOf(s, p).Waiting? && s.lock.None? then Move(s, p, Locked(PhaseOf(s, p).role)).(lock := Some(p)) else s
    case GiveUp(p) => if PhaseOf(s, p).Waiting? then Move(s, p, Done(Failed)) else s
    case Reread(p) =>
      if PhaseOf(s, p) != Locked(Initializer) then s
      else if Unreadable(s.file) then Move(s, p, Releasing(Failed))
      else if TrimmedId(s.file).Some? then Move(s, p, Releasing(GotId(TrimmedId(s.file).value)))
      else Move(s, p, Checked(|s.writes|))
    case Load(p, newId, text) =>
      var ph := PhaseOf(s, p);
      if IsFreshId(newId) && (ph.Checked? || ph.Missing? || (ph.Locked? && ph.role.Writer?))
      then Move(s, p, LoadStep(s.file, ph, newId, text, |s.writes|)) else s
    case Compare(p) =>
      var ph := PhaseOf(s, p);
      if !ph.Staged? then s
      else if s.file == ph.original then
        Move(s, p, Ready(ph.original, ph.next, ph.outcome, ph.read, ph.loaded, |s.writes|))
      else Move(s, p, Releasing(Failed))
    case Install(p) =>
      var ph := PhaseOf(s, p);
      if !ph.Ready? then s
      else if ph.original.None? && s.file.Some? then Move(s, p, Releasing(Failed))  // hard_link refuses
      else Move(s, p, Releasing(ph.outcome)).(file := Some(ph.next))
    case IoError(p) => if Inside(PhaseOf(s, p)) then Move(s, p, Releasing(Failed)) else s
    case Release(p) =>
      if PhaseOf(s, p).Releasing? then Move(s, p, Done(PhaseOf(s, p).outcome)).(lock := None) else s
    case Crash(p) => if PhaseOf(s, p).Done? then s else Move(s, p, Crashed)
    case Outside(content) => s.(file := content, writes := s.writes + [content])
  }

  function Run(s: State, es: seq<Event>): State
    decreases |es|
  {
    if es == [] then s else Run(Next(s, es[0]), es[1..])
  }

  function Initial(file: File): State {
    State(file, None, map[], [])
  }

  // A new content keeps the identity of the old one, if it had any.
  predicate KeepsId(before: File, after: File) {
    TrimmedId(before).Some? ==> TrimmedId(after) == TrimmedId(before)
  }

  // ----- mutual exclusion, in every run

  ghost predicate Exclusive(s: State) {
    && (forall p: Pid :: Inside(PhaseOf(s, p)) ==> s.lock == Some(p))
    && (s.lock.Some? ==> Inside(PhaseOf(s, s.lock.value)) || PhaseOf(s, s.lock.value).Crashed?)
  }

  lemma NextExclusive(s: State, e: Event)
    requires Exclusive(s)
    ensures Exclusive(Next(s, e))
  {
    var t := Next(s, e);
    forall p: Pid ensures Inside(PhaseOf(t, p)) ==> t.lock == Some(p) {
      assert Inside(PhaseOf(s, p)) ==> s.lock == Some(p);
    }
  }

  lemma {:induction false} RunExclusive(s: State, es: seq<Event>)
    requires Exclusive(s)
    ensures Exclusive(Run(s, es))
    decreases |es|
  {
    if es != [] {
      NextExclusive(s, es[0]);
      RunExclusive(Next(s, es[0]), es[1..]);
    }
  }

  /** At most one process is inside the locked section, whatever crashes happen and
      whatever outside writers do. */
  lemma AtMostOneInside(file: File, es: seq<Event>, p: Pid, q: Pid)
    ensures var s := Run(Initial(file), es); Inside(PhaseOf(s, p)) && Inside(PhaseOf(s, q)) ==> p == q
  {
    RunExclusive(Initial(file), es);
  }

  /** A process that crashes inside leaves the lock taken for good: nobody gets in
      again, and from then on only outside writers change the file. */
  lemma {:induction false} CrashBlocksForever(s: State, es: seq<Event>, p: Pid)
    requires Exclusive(s) && s.lock == Some(p) && PhaseOf(s, p).Crashed?
    ensures var t := Run(s, es);
            && t.lock == Some(p) && PhaseOf(t, p).Crashed? && (forall q: Pid :: !Inside(PhaseOf(t, q)))
            && s.writes <= t.writes
            && t.file == if |t.writes| == |s.writes| then s.file else t.writes[|t.writes| - 1]
    decreases |es|
  {
    if es != [] {
      NextExclusive(s, es[0]);
      var t := Next(s, es[0]);
      assert t.lock == Some(p) && PhaseOf(t, p).Crashed?;
      CrashBlocksForever(t, es[1..], p);
    }
  }

  // ----- where the file of a call in progress comes from, in every run

  // The file since the outside writes numbered from `mark` on, `before` without any.
  predicate Since(s: State, mark: nat, before: File) {
    && mark <= |s.writes|
    && s.file == if mark == |s.writes| then before else s.writes[|s.writes| - 1]
  }

  // The content at a later mark, from the outside writes in between.
  predicate Between(writes: seq<File>, from: nat, to: nat, before: File, after: File) {
    from <= to <= |writes| && after == if from == to then before else writes[to - 1]
  }

  // `base` is what the call found when it looked for an identity: its new content
  // keeps the identity of that.
  ghost predicate Traced(s: State, ph: Phase) {
    match ph
    case Checked(read) => exists base :: Since(s, read, base) && TrimmedId(base).None?
    case Missing(_, read) => Since(s, read, None)
    case Staged(original, next, _, read, loaded) =>
      && Since(s, loaded, original)
      && exists base :: Between(s.writes, read, loaded, base, original) && KeepsId(base, Some(next))
    case Ready(original, next, _, read, loaded, compared) =>
      && Since(s, compared, original) && Between(s.writes, loaded, compared, original, original)
      && exists base :: Between(s.writes, read, loaded, base, original) && KeepsId(base, Some(next))
    case _ => true
  }

  ghost predicate AllTraced(s: State) {
    Exclusive(s) && forall p: Pid :: Traced(s, PhaseOf(s, p))
  }

  lemma LoadTraced(s: State, ph: Phase, newId: string, text: nat)
    requires IsFreshId(newId) && Traced(s, ph)
    requires ph.Checked? || ph.Missing? || (ph.Locked? && ph.role.Writer?)
    ensures Traced(s, LoadStep(s.file, ph, newId, text, |s.writes|))
  {
    var now := LoadStep(s.file, ph, newId, text, |s.writes|);
    match ph
    case Checked(read) =>
      var base :| Since(s, read, base) && TrimmedId(base).None?;
      if now.Staged? {
        assert Between(s.writes, read, |s.writes|, base, s.file) && KeepsId(base, Some(now.next));
      }
    case Missing(_, read) =>
      if now.Staged? || now.Ready? {
        assert Between(s.writes, read, |s.writes|, None, s.file) && KeepsId(None, Some(now.next));
      }
    case Locked(_) =>
      if now.Staged? {
        if s.file.value.installId.Some? {
          TrimIdempotent(s.file.value.installId.value);
        }
        assert Between(s.writes, |s.writes|, |s.writes|, s.file, s.file) && KeepsId(s.file, Some(now.next));
      }
    case _ =>
  }

  // An outside write moves every mark one further into the past.
  lemma OutsideTraced(s: State, content: File, ph: Phase)
    requires Traced(s, ph)
    ensures Traced(Next(s, Outside(content)), ph)
  {
    var t := Next(s, Outside(content));
    match ph
    case Checked(read) =>
      var base :| Since(s, read, base) && TrimmedId(base).None?;
      assert Since(t, read, base);
    case Staged(original, next, _, read, loaded) =>
      var base :| Between(s.writes, read, loaded, base, original) && KeepsId(base, Some(next));
      assert Between(t.writes, read, loaded, base, original);
    case Ready(original, next, _, read, loaded, compared) =>
      var base :| Between(s.writes, read, loaded, base, original) && KeepsId(base, Some(next));
      assert Between(t.writes, read, loaded, base, original);
    case _ =>
  }

  // The comparison ties what was loaded to what is on file now.
  lemma CompareTraced(s: State, p: Pid)
    requires PhaseOf(s, p).Staged? && Traced(s, PhaseOf(s, p))
    ensures Traced(s, PhaseOf(Next(s, Compare(p)), p))
  {
    var ph := PhaseOf(s, p);
    var base :| Between(s.writes, ph.read, ph.loaded, base, ph.original) && KeepsId(base, Some(ph.next));
  }

  lemma NextTraced(s: State, e: Event)
    requires AllTraced(s)
    ensures AllTraced(Next(s, e))
  {
    NextExclusive(s, e);
    var t := Next(s, e);
    forall q: Pid ensures Traced(t, PhaseOf(t, q)) {
      assert Traced(s, PhaseOf(s, q));
      if e.Outside? {
        OutsideTraced(s, e.content, PhaseOf(s, q));
      } else if q == e.p {
        OwnTraced(s, e);
      } else if t.file == s.file {
        SameFileTraced(s, t, PhaseOf(s, q));
      } else {
        assert e.Install? && s.lock == Some(e.p) && !Inside(PhaseOf(s, q));
      }
    }
  }

  lemma SameFileTraced(s: State, t: State, ph: Phase)
    requires Traced(s, ph) && t.file == s.file && t.writes == s.writes
    ensures Traced(t, ph)
  {
    if ph.Checked? {
      var base :| Since(s, ph.read, base) && TrimmedId(base).None?;
      assert Since(t, ph.read, base);
    }
  }

  lemma OwnTraced(s: State, e: Event)
    requires !e.Outside? && Traced(s, PhaseOf(s, e.p))
    ensures Traced(Next(s, e), PhaseOf(Next(s, e), e.p))
  {
    var ph, t := PhaseOf(s, e.p), Next(s, e);
    if PhaseOf(t, e.p) != ph {
      if e.Load? {
        LoadTraced(s, ph, e.newId, e.text);
      } else if e.Compare? {
        CompareTraced(s, e.p);
      } else if e.Reread? && PhaseOf(t, e.p).Checked? {
        assert Since(s, |s.writes|, s.file);
      }
      if t.file == s.file {
        SameFileTraced(s, t, PhaseOf(t, e.p));
      }
    } else if t.file == s.file {
      SameFileTraced(s, t, ph);
    }
  }

  lemma {:induction false} RunTraced(s: State, es: seq<Event>)
    requires AllTraced(s)
    ensures AllTraced(Run(s, es))
    decreases |es|
  {
    if es != [] {
      NextTraced(s, es[0]);
      RunTraced(Next(s, es[0]), es[1..]);
    }
  }

  function Last(writes: seq<File>): File
    requires writes != []
  {
    writes[|writes| - 1]
  }

  /** Which edits are lost: in every run with any outside writers, an install that
      replaces a file replaces something other than what was loaded if and only if an
      outside write came after the comparison and the last one left other content. */
  lemma LostEditIff(file: File, es: seq<Event>, p: Pid)
    requires var s := Run(Initial(file), es); PhaseOf(s, p).Ready? && PhaseOf(s, p).original.Some?
    ensures var s := Run(Initial(file), es);
            var ph := PhaseOf(s, p);
            && Next(s, Install(p)).file == Some(ph.next)
            && (s.file != ph.original <==> ph.compared < |s.writes| && Last(s.writes) != ph.original)
  {
    RunTraced(Initial(file), es);
    var s := Run(Initial(file), es);
    assert Traced(s, PhaseOf(s, p));
  }

  /** Which identities are replaced: a successful install changes the identity on file
      if and only if an outside write came since the call looked for one under the
      lock, and the last of them left an identity other than the installed. A write
      between load and comparison can only be such a last one if it rewrote exactly
      what was loaded. */
  lemma ReplacedIdentityIff(file: File, es: seq<Event>, p: Pid)
    requires var s := Run(Initial(file), es);
             PhaseOf(s, p).Ready? && (PhaseOf(s, p).original.Some? || s.file.None?)
    ensures var s := Run(Initial(file), es);
            var ph, u := PhaseOf(s, p), Next(s, Install(p));
            && u.file == Some(ph.next) && PhaseOf(u, p) == Releasing(ph.outcome)
            && (!KeepsId(s.file, u.file) <==> ph.read < |s.writes| && !KeepsId(Last(s.writes), Some(ph.next)))
            && (ph.loaded < |s.writes| <= ph.compared ==> Last(s.writes) == ph.original)
  {
    RunTraced(Initial(file), es);
    var s := Run(Initial(file), es);
    assert Traced(s, PhaseOf(s, p));
  }

  /** Which calls notice: a call passes its comparison if and only if no outside write
      came since its load or the last one left exactly what was loaded. Otherwise it
      leaves the file as it is and, in every continuation, never reports success and
      never writes. */
  lemma ChangeBeforeCompareFails(file: File, es: seq<Event>, p: Pid, more: seq<Event>)
    requires PhaseOf(Run(Initial(file), es), p).Staged?
    ensures var s := Run(Initial(file), es);
            var ph, t := PhaseOf(s, p), Next(s, Compare(p));
            && t.file == s.file
            && (PhaseOf(t, p).Ready? <==> ph.loaded == |s.writes| || (s.writes != [] && Last(s.writes) == ph.original))
            && (!PhaseOf(t, p).Ready? ==>
                  var u := Run(t, more);
                  && HasFailed(PhaseOf(u, p))
                  && Next(u, Install(p)) == u)
  {
    RunTraced(Initial(file), es);
    var s := Run(Initial(file), es);
    assert Traced(s, PhaseOf(s, p));
    var t := Next(s, Compare(p));
    if !PhaseOf(t, p).Ready? {
      FailureIsFinal(t, more, p);
    }
  }

  // A call that failed stays failed.
  predicate HasFailed(ph: Phase) {
    ph.Crashed? || ((ph.Releasing? || ph.Done?) && ph.outcome.Failed?)
  }

  lemma FailureStays(s: State, e: Event, p: Pid)
    requires HasFailed(PhaseOf(s, p))
    ensures HasFailed(PhaseOf(Next(s, e), p))
  {
  }

  lemma {:induction false} FailureIsFinal(s: State, es: seq<Event>, p: Pid)
    requires HasFailed(PhaseOf(s, p))
    ensures HasFailed(PhaseOf(Run(s, es), p))
    decreases |es|
  {
    if es != [] {
      FailureStays(s, es[0], p);
      FailureIsFinal(Next(s, es[0]), es[1..], p);
    }
  }

  // ----- which outside writes are harmless

  // The content a writer would install under the identity it decided on.
  predicate IdSafe(content: File, id: Option<string>) {
    TrimmedId(content).Some? ==> content.value.legacy || TrimmedId(content) == id
  }

  // What the process inside the lock may still do to the identity in this content.
  predicate PhaseTolerates(ph: Phase, content: File) {
    match ph
    case Checked(_) => IdSafe(content, None)
    case Missing(id, _) => IdSafe(content, id)
    case Ready(original, next, _, _, _, _) =>
      KeepsId(content, Some(next)) || (original.None? && content.Some?)
    case _ => true
  }

  // An outside write that keeps the identity on file, at a moment when the process
  // inside the lock, if any, will not replace it.
  predicate Tolerated(s: State, content: File) {
    KeepsId(s.file, content) && (s.lock.Some? ==> PhaseTolerates(PhaseOf(s, s.lock.value), content))
  }

  // Every outside write is tolerated when it happens.
  predicate Harmless(s: State, es: seq<Event>)
    decreases |es|
  {
    es == [] || ((es[0].Outside? ==> Tolerated(s, es[0].content)) && Harmless(Next(s, es[0]), es[1..]))
  }

  predicate Honest(outcome: Outcome, file: File) {
    outcome.GotId? ==> TrimmedId(file) == Some(outcome.id)
  }

  predicate PhaseOk(file: File, ph: Phase) {
    && PhaseTolerates(ph, file)
    && match ph
       case Missing(id, _) => id.Some? ==> IsFreshId(id.value)
       case Staged(original, next, outcome, _, _) => KeepsId(original, Some(next)) && Honest(outcome, Some(next))
       case Ready(_, next, outcome, _, _, _) => Honest(outcome, Some(next))
       case Releasing(outcome) => Honest(outcome, file)
       case Done(outcome) => Honest(outcome, file)
       case _ => true
  }

  ghost predicate Settled(s: State) {
    Exclusive(s) && forall p: Pid :: PhaseOk(s.file, PhaseOf(s, p))
  }

  lemma LoadStepOk(file: File, ph: Phase, newId: string, text: nat, now: nat)
    requires IsFreshId(newId) && PhaseOk(file, ph)
    requires ph.Checked? || ph.Missing? || (ph.Locked? && ph.role.Writer?)
    ensures PhaseOk(file, LoadStep(file, ph, newId, text, now))
  {
    if file.Some? && file.value.installId.Some? {
      TrimIdempotent(file.value.installId.value);
    }
  }

  // A file that only gains or keeps an identity leaves finished processes honest.
  lemma OthersStayOk(before: File, after: File, ph: Phase)
    requires PhaseOk(before, ph) && KeepsId(before, after)
    requires !Inside(ph) || PhaseTolerates(ph, after)
    ensures PhaseOk(after, ph)
  {
  }

  // The phase of the process that steps.
  lemma OwnPhaseOk(s: State, e: Event)
    requires !e.Outside? && PhaseOk(s.file, PhaseOf(s, e.p))
    ensures PhaseOk(Next(s, e).file, PhaseOf(Next(s, e), e.p))
  {
    if e.Load? && PhaseOf(Next(s, e), e.p) != PhaseOf(s, e.p) {
      LoadStepOk(s.file, PhaseOf(s, e.p), e.newId, e.text, |s.writes|);
    }
  }

  // What a step does to the file, which only an install of the process inside changes.
  lemma StepKeepsId(s: State, e: Event)
    requires Exclusive(s) && !e.Outside? && PhaseOk(s.file, PhaseOf(s, e.p))
    ensures KeepsId(s.file, Next(s, e).file)
    ensures Next(s, e).file != s.file ==> s.lock == Some(e.p)
  {
  }

  lemma NextSettled(s: State, e: Event)
    requires Settled(s) && (e.Outside? ==> Tolerated(s, e.content))
    ensures Settled(Next(s, e)) && KeepsId(s.file, Next(s, e).file)
  {
    var t := Next(s, e);
    NextExclusive(s, e);
    if !e.Outside? {
      assert PhaseOk(s.file, PhaseOf(s, e.p));
      OwnPhaseOk(s, e);
      StepKeepsId(s, e);
    }
    forall q: Pid ensures PhaseOk(t.file, PhaseOf(t, q)) {
      assert PhaseOk(s.file, PhaseOf(s, q));
      if e.Outside? || q != e.p {
        assert PhaseOf(t, q) == PhaseOf(s, q);
        if t.file != s.file {
          OthersStayOk(s.file, t.file, PhaseOf(s, q));
        }
      }
    }
  }

  lemma {:induction false} RunSettled(s: State, es: seq<Event>)
    requires Settled(s) && Harmless(s, es)
    ensures Settled(Run(s, es)) && KeepsId(s.file, Run(s, es).file)
    decreases |es|
  {
    if es != [] {
      NextSettled(s, es[0]);
      RunSettled(Next(s, es[0]), es[1..]);
    }
  }

  lemma {:induction false} RunAppend(s: State, a: seq<Event>, b: seq<Event>)
    ensures Run(s, a + b) == Run(Run(s, a), b)
    decreases |a|
  {
    if a == [] {
      assert a + b == b;
    } else {
      assert (a + b)[1..] == a[1..] + b;
      RunAppend(Next(s, a[0]), a[1..], b);
    }
  }

  /** Among initializers, metadata writers and tolerated outside writes, in every
      interleaving and with any crashes: the trimmed identity never changes once present. */
  lemma IdentityIsStable(file: File, es: seq<Event>, more: seq<Event>)
    requires Harmless(Initial(file), es) && Harmless(Run(Initial(file), es), more)
    ensures KeepsId(Run(Initial(file), es).file, Run(Initial(file), es + more).file)
  {
    RunSettled(Initial(file), es);
    RunAppend(Initial(file), es, more);
    RunSettled(Run(Initial(file), es), more);
  }

  /** Every call that returns an identity, at whatever time, returns the same one,
      and it is the one on file. */
  lemma ReturnedIdsAgree(file: File, es: seq<Event>, p: Pid, q: Pid)
    requires Harmless(Initial(file), es)
    requires var s := Run(Initial(file), es);
             PhaseOf(s, p).Done? && PhaseOf(s, p).outcome.GotId? && PhaseOf(s, q).Done? && PhaseOf(s, q).outcome.GotId?
    ensures var s := Run(Initial(file), es);
            PhaseOf(s, p).outcome == PhaseOf(s, q).outcome && TrimmedId(s.file) == Some(PhaseOf(s, p).outcome.id)
  {
    RunSettled(Initial(file), es);
    var s := Run(Initial(file), es);
    assert PhaseOk(s.file, PhaseOf(s, p)) && PhaseOk(s.file, PhaseOf(s, q));
  }

  // ----- tolerance is exact

  // A fresh identity other than the given one.
  lemma AnotherId(id: string) returns (other: string)
    requires IsFreshId(id)
    ensures IsFreshId(other) && other != id
  {
    other := id + "x";
    assert !IsWhitespace(id[0]);
  }

  lemma {:induction false} QuietIsHarmless(s: State, es: seq<Event>)
    requires forall i :: 0 <= i < |es| ==> !es[i].Outside?
    ensures Harmless(s, es)
    decreases |es|
  {
    if es != [] {
      QuietIsHarmless(Next(s, es[0]), es[1..]);
    }
  }

  // A staged call whose file did not change compares and installs.
  lemma StagedInstalls(s: State, p: Pid)
    requires PhaseOf(s, p).Staged? && s.file.Some? && s.file == PhaseOf(s, p).original
    ensures Run(s, [Compare(p), Install(p)]).file == Some(PhaseOf(s, p).next)
  {
    var t := Next(s, Compare(p));
    assert PhaseOf(t, p).Ready?;
    RunOne(s, Compare(p), [Install(p)]);
    RunOne(t, Install(p), []);
    assert [Compare(p)] + [Install(p)] == [Compare(p), Install(p)] && [Install(p)] + [] == [Install(p)];
  }

  // A call that decided on no identity, or on another one, stages it over the present one.
  lemma LoadReplaces(s: State, p: Pid, newId: string)
    requires PhaseOf(s, p).Checked? || (PhaseOf(s, p).Missing? && PhaseOk(None, PhaseOf(s, p)))
    requires TrimmedId(s.file).Some? && !PhaseTolerates(PhaseOf(s, p), s.file)
    requires IsFreshId(newId) && newId != TrimmedId(s.file).value
    ensures var t := Next(s, Load(p, newId, 0));
            && t.file == s.file && PhaseOf(t, p).Staged? && PhaseOf(t, p).original == s.file
            && !KeepsId(s.file, Some(PhaseOf(t, p).next))
  {
  }

  // Steps of the process inside that replace the identity in an untolerated content.
  lemma UntoleratedIsReplaced(s: State, content: File) returns (es: seq<Event>)
    requires Settled(s) && KeepsId(s.file, content) && !Tolerated(s, content)
    ensures Harmless(Next(s, Outside(content)), es)
    ensures !KeepsId(content, Run(Next(s, Outside(content)), es).file)
  {
    var t, p := Next(s, Outside(content)), s.lock.value;
    var ph := PhaseOf(s, p);
    assert PhaseOk(s.file, ph) && PhaseOf(t, p) == ph && TrimmedId(content).Some?;
    if ph.Ready? {
      es := [Install(p)];
      RunOne(t, Install(p), []);
      assert [Install(p)] + [] == es;
    } else {
      TrimIdempotent(content.value.installId.value);
      var newId := AnotherId(TrimmedId(content).value);
      LoadReplaces(t, p, newId);
      StagedInstalls(Next(t, Load(p, newId, 0)), p);
      es := [Load(p, newId, 0), Compare(p), Install(p)];
      RunOne(t, Load(p, newId, 0), [Compare(p), Install(p)]);
      assert [Load(p, newId, 0)] + [Compare(p), Install(p)] == es;
    }
    QuietIsHarmless(t, es);
  }

  /** An outside write that keeps the identity on file is safe in every continuation
      if and only if the process inside the lock tolerates it. */
  lemma SafeIffTolerated(file: File, past: seq<Event>, content: File)
    requires Harmless(Initial(file), past) && KeepsId(Run(Initial(file), past).file, content)
    ensures var s := Run(Initial(file), past);
            Tolerated(s, content)
            <==> forall es :: Harmless(Next(s, Outside(content)), es) ==>
                   KeepsId(content, Run(Next(s, Outside(content)), es).file)
  {
    RunSettled(Initial(file), past);
    var s := Run(Initial(file), past);
    var t := Next(s, Outside(content));
    if Tolerated(s, content) {
      NextSettled(s, Outside(content));
      forall es | Harmless(t, es) ensures KeepsId(content, Run(t, es).file) {
        RunSettled(t, es);
      }
    } else {
      var es := UntoleratedIsReplaced(s, content);
    }
  }

  // ----- create-only installs, and two schedules

  // A call that loaded a missing file, from staging on.
  predicate CreateOnly(ph: Phase) {
    match ph
    case Staged(original, _, _, _, _) => original.None?
    case Ready(original, _, _, _, _, _) => original.None?
    case Releasing(_) => true
    case Done(_) => true
    case Crashed => true
    case _ => false
  }

  lemma {:induction false} StaysCreateOnly(s: State, es: seq<Event>, p: Pid)
    requires CreateOnly(PhaseOf(s, p))
    ensures CreateOnly(PhaseOf(Run(s, es), p))
    decreases |es|
  {
    if es != [] {
      StaysCreateOnly(Next(s, es[0]), es[1..], p);
    }
  }

  /** A call that loaded a missing file never replaces one: whatever happens in
      between, under the lock or not, its install leaves an existing file as it is
      and fails, and otherwise creates exactly what was staged. */
  lemma CreateOnlyNeverReplaces(s: State, es: seq<Event>, p: Pid)
    requires CreateOnly(PhaseOf(s, p))
    ensures var t := Run(s, es);
            var u := Next(t, Install(p));
            && (t.file.Some? ==> u.file == t.file)
            && (PhaseOf(t, p).Ready? ==>
                  if t.file.Some? then PhaseOf(u, p) == Releasing(Failed)
                  else u.file == Some(PhaseOf(t, p).next) && PhaseOf(u, p) == Releasing(PhaseOf(t, p).outcome))
  {
    StaysCreateOnly(s, es, p);
  }

  // An initializer that finds no identity under the lock.
  lemma EntersLock(empty: Content)
    requires empty.valid && !empty.legacy && empty.installId.None?
    ensures var s := Run(Initial(Some(empty)), [Begin(0, Initializer), Acquire(0), Reread(0)]);
            s.file == Some(empty) && PhaseOf(s, 0) == Checked(0) && s.writes == []
  {
    Unroll3(Initial(Some(empty)), Begin(0, Initializer), Acquire(0), Reread(0));
  }

  // It loads a readable file and passes the comparison.
  lemma LoadsAndCompares(s: State, id: string)
    requires PhaseOf(s, 0).Checked? && IsFreshId(id)
    requires s.file.Some? && s.file.value.valid && !s.file.value.legacy
    ensures var t := Run(s, [Load(0, id, 7), Compare(0)]);
            && t.file == s.file && PhaseOf(t, 0).Ready? && PhaseOf(t, 0).original.Some?
            && PhaseOf(t, 0).next == Content(7, true, Some(id), false) && PhaseOf(t, 0).outcome == GotId(id)
  {
    var t := Next(s, Load(0, id, 7));
    assert PhaseOf(t, 0).Staged? && PhaseOf(t, 0).original == t.file;
    RunOne(s, Load(0, id, 7), [Compare(0)]);
    RunOne(t, Compare(0), []);
    assert [Load(0, id, 7)] + [Compare(0)] == [Load(0, id, 7), Compare(0)] && [Compare(0)] + [] == [Compare(0)];
  }

  lemma InstallsAndReleases(s: State)
    requires PhaseOf(s, 0).Ready? && PhaseOf(s, 0).original.Some?
    ensures var t := Run(s, [Install(0), Release(0)]);
            t.file == Some(PhaseOf(s, 0).next) && PhaseOf(t, 0) == Done(PhaseOf(s, 0).outcome)
  {
    RunOne(s, Install(0), [Release(0)]);
    RunOne(Next(s, Install(0)), Release(0), []);
    assert [Install(0)] + [Release(0)] == [Install(0), Release(0)] && [Release(0)] + [] == [Release(0)];
  }

  /** The first window is real: an edit made in it is overwritten by a successful call. */
  lemma WindowLosesEdit(empty: Content, edit: File, id: string)
    requires empty.valid && !empty.legacy && empty.installId.None? && IsFreshId(id)
    ensures var es := [Begin(0, Initializer), Acquire(0), Reread(0)] + [Load(0, id, 7), Compare(0)]
                      + [Outside(edit)] + [Install(0), Release(0)];
            var s := Run(Initial(Some(empty)), es);
            && Run(Initial(Some(empty)), es[..6]).file == edit
            && PhaseOf(s, 0) == Done(GotId(id)) && s.file == Some(Content(7, true, Some(id), false))
  {
    var s0 := Initial(Some(empty));
    var a := [Begin(0, Initializer), Acquire(0), Reread(0)];
    var b := a + [Load(0, id, 7), Compare(0)];
    EntersLock(empty);
    LoadsAndCompares(Run(s0, a), id);
    RunAppend(s0, a, [Load(0, id, 7), Compare(0)]);
    RunAppend(s0, b, [Outside(edit)]);
    RunOne(Run(s0, b), Outside(edit), []);
    assert [Outside(edit)] + [] == [Outside(edit)];
    RunAppend(s0, b + [Outside(edit)], [Install(0), Release(0)]);
    assert (b + [Outside(edit)] + [Install(0), Release(0)])[..6] == b + [Outside(edit)];
    InstallsAndReleases(Run(s0, b + [Outside(edit)]));
  }

  /** The second window is real: an identity an outside writer adds between the two
      locked reads is replaced, and the comparison does not notice: the file was loaded
      after the edit. */
  lemma EditBetweenReadsReplaced(empty: Content, edit: Content, id: string)
    requires empty.valid && !empty.legacy && empty.installId.None? && IsFreshId(id)
    requires edit.valid && !edit.legacy && TrimmedId(Some(edit)).Some?
    ensures var es := [Begin(0, Initializer), Acquire(0), Reread(0)] + [Outside(Some(edit))]
                      + [Load(0, id, 7), Compare(0)] + [Install(0), Release(0)];
            var s := Run(Initial(Some(empty)), es);
            && Run(Initial(Some(empty)), es[..4]).file == Some(edit)
            && PhaseOf(s, 0) == Done(GotId(id)) && TrimmedId(s.file) == Some(id)
  {
    var s0 := Initial(Some(empty));
    var a := [Begin(0, Initializer), Acquire(0), Reread(0)];
    var b := a + [Outside(Some(edit))];
    EntersLock(empty);
    RunAppend(s0, a, [Outside(Some(edit))]);
    RunOne(Run(s0, a), Outside(Some(edit)), []);
    assert [Outside(Some(edit))] + [] == [Outside(Some(edit))];
    RunAppend(s0, b, [Load(0, id, 7), Compare(0)]);
    assert (b + [Load(0, id, 7), Compare(0)] + [Install(0), Release(0)])[..4] == b;
    LoadsAndCompares(Run(s0, b), id);
    RunAppend(s0, b + [Load(0, id, 7), Compare(0)], [Install(0), Release(0)]);
    InstallsAndReleases(Run(s0, b + [Load(0, id, 7), Compare(0)]));
  }

  lemma Unroll3(s: State, a: Event, b: Event, c: Event)
    ensures Run(s, [a, b, c]) == Next(Next(Next(s, a), b), c)
  {
    RunOne(s, a, [b, c]);
    RunOne(Next(s, a), b, [c]);
    RunOne(Next(Next(s, a), b), c, []);
    assert [a] + [b, c] == [a, b, c] && [b] + [c] == [b, c] && [c] + [] == [c];
  }

  lemma RunOne(s: State, a: Event, rest: seq<Event>)
    ensures Run(s, [a] + rest) == Run(Next(s, a), rest)
  {
    assert ([a] + rest)[1..] == rest;
  }
}
