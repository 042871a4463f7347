/** Workspace attribution and its inheritance: a run reports the workspace it was
    started in, and hands the report to child processes through their environment. */
module Workspaces {
  import opened Text
  import opened Json

  // A captured path; `unicode` tells whether its bytes are valid UTF-8.
  datatype Path = Path(text: string, unicode: bool)

  datatype Workspace = Known(path: Path) | Nowhere | Unknown(reason: string)

  datatype Attribution = Attribution(path: Option<string>, source: Option<string>,
                                     unknownReason: Option<string>, environmentId: Option<string>)

  // ----- Unix path rules

  // Some component between slashes is `..`.
  predicate HasParent(p: string)
    decreases |p|
  {
    p != [] && (StartsParent(p) || HasParent(NextComponent(p)))
  }

  predicate StartsParent(p: string) {
    p == ".." || (|p| >= 3 && p[..3] == "../")
  }

  // What follows the first slash.
  function NextComponent(p: string): (r: string)
    ensures |r| <= |p| && (p != [] ==> |r| < |p|)
  {
    if p == [] then [] else if p[0] == '/' then p[1..] else NextComponent(p[1..])
  }

  // The components between slashes.
  function Components(p: string): (r: seq<string>)
    ensures r != []
    decreases |p|
  {
    if p == [] then [[]]
    else
      var rest := Components(p[1..]);
      if p[0] == '/' then [[]] + rest else [[p[0]] + rest[0]] + rest[1..]
  }

  lemma {:induction false} FirstComponent(p: string)
    ensures var first := Components(p)[0];
            && first <= p && '/' !in first && (|first| == |p| || p[|first|] == '/')
    ensures '/' in p ==> Components(p)[1..] == Components(NextComponent(p))
    ensures '/' !in p ==> |Components(p)| == 1 && NextComponent(p) == []
    decreases |p|
  {
    if p != [] {
      FirstComponent(p[1..]);
      assert p == [p[0]] + p[1..];
      if p[0] == '/' {
        assert Components(p) == [[]] + Components(p[1..]);
      } else {
        assert Components(p)[0] == [p[0]] + Components(p[1..])[0];
        assert Components(p)[1..] == Components(p[1..])[1..];
      }
    }
  }

  lemma ParentFirst(p: string, first: string)
    requires first <= p && '/' !in first && (|first| == |p| || p[|first|] == '/')
    ensures StartsParent(p) <==> first == ".."
  {
    if StartsParent(p) {
      assert p[0] == '.' && p[1] == '.' && (|p| == 2 || p[..3][2] == p[2] == '/');
      if |first| > 2 { assert false; }
      assert first == p[..2] == "..";
    }
    if first == ".." && |p| > 2 {
      assert p[..3] == p[..2] + [p[2]] == "../";
    }
  }

  /** The refused paths are those with a component `..`. */
  lemma {:induction false} ParentIff(p: string)
    ensures HasParent(p) <==> ".." in Components(p)
    decreases |p|
  {
    if p != [] {
      FirstComponent(p);
      var (first, rest) := (Components(p)[0], Components(p)[1..]);
      assert Components(p) == [first] + rest;
      ParentFirst(p, first);
      ParentIff(NextComponent(p));
      if '/' !in p {
        assert rest == [];
      }
    }
  }

  // On an absolute Unix path `.` components vanish, so only `..` is refused.
  predicate Canonical(p: string) {
    p != [] && p[0] == '/' && !HasParent(p)
  }

  // ----- one process

  function WorkspaceAttribution(w: Workspace, environmentId: Option<string>): Attribution {
    match w
    case Known(path) =>
      if !Canonical(path.text) then Attribution(None, None, Some("captured_path_invalid"), environmentId)
      else if path.unicode then Attribution(Some(path.text), Some("canonical_project_root"), None, environmentId)
      else Attribution(None, None, Some("non_unicode_path"), environmentId)
    case Nowhere => Attribution(None, Some("none"), None, environmentId)
    case Unknown(reason) => Attribution(None, None, Some(reason), environmentId)
  }

  function Optional(s: Option<string>): Value {
    if s.Some? then Str(s.value) else Null
  }

  // The value a report writes for its children.
  function InheritedEnv(a: Attribution): Value {
    var workspace :=
      if a.path.Some? then Tagged("known", Some(a.path.value))
      else if a.source == Some("none") then Tagged("none", None)
      else Tagged("unknown", Some(if a.unknownReason.Some? then a.unknownReason.value else "unavailable"));
    Object([Member("workspace", workspace), Member("environment_id", Optional(a.environmentId))])
  }

  function Tagged(status: string, value: Option<string>): Value {
    Object([Member("status", Str(status))] + if value.Some? then [Member("value", Str(value.value))] else [])
  }

  // A derived reader takes an object by name, or an array by position.
  function Field(v: Value, key: string, index: nat): Option<Value>
    requires index < 2
  {
    match v
    case Object(_) => Lookup(v, key)
    case Array(items) => if |items| == 2 then Some(items[index]) else None
    case _ => None
  }

  function DecodeWorkspace(v: Value): Option<Workspace> {
    var (status, value) := (Field(v, "status", 0), Field(v, "value", 1));
    if status == Some(Str("known")) && value.Some? && value.value.Str? then Some(Known(Path(value.value.s, true)))
    else if status == Some(Str("none")) && (value.None? || value.value.Null?) then Some(Nowhere)
    else if status == Some(Str("unknown")) && value.Some? && value.value.Str? then Some(Unknown(value.value.s))
    else None
  }

  function Decode(v: Value): Option<(Workspace, Option<string>)> {
    var (workspace, id) := (Field(v, "workspace", 0), Field(v, "environment_id", 1));
    if workspace.None? || DecodeWorkspace(workspace.value).None? then None
    else
      var w := DecodeWorkspace(workspace.value).value;
      if id.None? || id.value.Null? then Some((w, None))
      else if id.value.Str? then Some((w, Some(id.value.s)))
      else None
  }

  // What a process finds in its environment.
  datatype Inherited = Absent | NotJson | Json(value: Value)

  // A process with its own directory, home and place in a run.
  datatype Process = Process(input: Option<Workspace>, captured: Workspace, environmentId: Option<string>, inRun: bool)

  function ResolveWorkspace(p: Process, inherited: Inherited): (Workspace, Option<string>) {
    match inherited
    case Json(v) =>
      if Decode(v).Some? then Decode(v).value else (Unknown("inherited_context_invalid"), None)
    case NotJson => (Unknown("inherited_context_invalid"), None)
    case Absent =>
      if p.inRun then (Unknown("inherited_context_unavailable"), None)
      else (if p.input.Some? then p.input.value else p.captured, p.environmentId)
  }

  function Snapshot(p: Process, inherited: Inherited): Attribution {
    var (w, id) := ResolveWorkspace(p, inherited);
    WorkspaceAttribution(w, id)
  }

  // ----- chains of processes

  // What the last of the descendants reports.
  function Report(root: Attribution, chain: seq<Process>): Attribution
    decreases |chain|
  {
    if chain == [] then root
    else Report(Snapshot(chain[0], Json(InheritedEnv(root))), chain[1..])
  }

  // The reports a process can make.
  predicate Reported(a: Attribution) {
    match (a.path, a.source, a.unknownReason)
    case (Some(path), Some(source), None) => source == "canonical_project_root" && Canonical(path)
    case (None, Some(source), None) => source == "none"
    case (None, None, Some(_)) => true
    case _ => false
  }

  lemma SnapshotReported(p: Process, inherited: Inherited)
    ensures Reported(Snapshot(p, inherited))
  {
  }

  lemma TaggedFields(status: string, value: Option<string>)
    ensures Field(Tagged(status, value), "status", 0) == Some(Str(status))
    ensures Field(Tagged(status, value), "value", 1) == if value.Some? then Some(Str(value.value)) else None
  {
    var ms := Tagged(status, value).members;
    assert ms[0] == Member("status", Str(status)) && "status" != "value";
    assert ms[1..] == if value.Some? then [Member("value", Str(value.value))] else [];
  }

  lemma EnvFields(workspace: Value, id: Value)
    ensures var v := Object([Member("workspace", workspace), Member("environment_id", id)]);
            Field(v, "workspace", 0) == Some(workspace) && Field(v, "environment_id", 1) == Some(id)
  {
    var ms := [Member("workspace", workspace), Member("environment_id", id)];
    assert "workspace" != "environment_id" && ms[1..] == [Member("environment_id", id)];
    assert Find(ms[1..], "environment_id") == Some(id);
  }

  /** The reader takes objects by these keys; `value` and the environment may be absent. */
  lemma NamedForm(status: string, value: Value, id: Value)
    ensures var w := Decode(Object([Member("workspace", Object([Member("status", Str(status)), Member("value", value)])),
                                    Member("environment_id", id)]));
            && (status == "known" && value.Str? && id.Str? ==> w == Some((Known(Path(value.s, true)), Some(id.s))))
            && (status == "none" && value.Null? && id.Null? ==> w == Some((Nowhere, None)))
            && (status == "unknown" && value.Str? && id.Null? ==> w == Some((Unknown(value.s), None)))
  {
    var workspace := Object([Member("status", Str(status)), Member("value", value)]);
    EnvFields(workspace, id);
    StatusFields(Str(status), value);
  }

  lemma StatusFields(status: Value, value: Value)
    ensures var v := Object([Member("status", status), Member("value", value)]);
            Field(v, "status", 0) == Some(status) && Field(v, "value", 1) == Some(value)
  {
    var ms := [Member("status", status), Member("value", value)];
    assert "status" != "value" && ms[1..] == [Member("value", value)];
    assert Find(ms[1..], "value") == Some(value);
  }

  lemma PairFields(a: Value, b: Value, first: string, second: string)
    ensures Field(Array([a, b]), first, 0) == Some(a) && Field(Array([a, b]), second, 1) == Some(b)
  {
  }

  lemma PositionalWorkspace(status: string, value: Value)
    ensures DecodeWorkspace(Array([Str(status), value]))
         == if status == "known" && value.Str? then Some(Known(Path(value.s, true)))
            else if status == "none" && value.Null? then Some(Nowhere)
            else if status == "unknown" && value.Str? then Some(Unknown(value.s))
            else None
  {
    PairFields(Str(status), value, "status", "value");
  }

  /** The reader also takes the derived array forms, by position. */
  lemma PositionalForm(status: string, value: Value, id: Value)
    ensures var w := Decode(Array([Array([Str(status), value]), id]));
            && (status == "known" && value.Str? && id.Str? ==> w == Some((Known(Path(value.s, true)), Some(id.s))))
            && (status == "none" && value.Null? && id.Null? ==> w == Some((Nowhere, None)))
            && (status == "unknown" && value.Str? && id.Null? ==> w == Some((Unknown(value.s), None)))
  {
    PairFields(Array([Str(status), value]), id, "workspace", "environment_id");
    PositionalWorkspace(status, value);
  }

  // The workspace a report hands on.
  function Handed(a: Attribution): Workspace {
    if a.path.Some? then Known(Path(a.path.value, true))
    else if a.source == Some("none") then Nowhere
    else Unknown(if a.unknownReason.Some? then a.unknownReason.value else "unavailable")
  }

  // Reading back what a report wrote.
  lemma DecodeInherited(a: Attribution)
    ensures Decode(InheritedEnv(a)) == Some((Handed(a), a.environmentId))
  {
    var workspace := InheritedEnv(a).members[0].value;
    EnvFields(workspace, Optional(a.environmentId));
    DecodeHanded(a);
  }

  lemma DecodeHanded(a: Attribution)
    ensures DecodeWorkspace(InheritedEnv(a).members[0].value) == Some(Handed(a))
  {
    if a.path.Some? {
      TaggedFields("known", a.path);
    } else if a.source == Some("none") {
      TaggedFields("none", None);
    } else {
      TaggedFields("unknown", Some(Handed(a).reason));
    }
  }

  /** A child repeats an attribution exactly when it is one some process can report. */
  lemma ChildRepeats(a: Attribution, child: Process)
    ensures Snapshot(child, Json(InheritedEnv(a))) == a <==> Reported(a)
  {
    DecodeInherited(a);
  }

  /** A process that inherits nothing and is outside any run speaks for itself: it reports
      the workspace it was given, or else the one it captured, and its own environment. A
      path is reported only if it is valid text, absolute and free of `..`. */
  lemma RootReports(p: Process, path: string, unicode: bool)
    requires !p.inRun
    requires p.input == Some(Known(Path(path, unicode)))
             || (p.input.None? && p.captured == Known(Path(path, unicode)))
    ensures var a := Snapshot(p, Absent);
            && a.environmentId == p.environmentId
            && (a.path == Some(path) && a.source == Some("canonical_project_root") && a.unknownReason.None?
                <==> unicode && "/" <= path && ".." !in Components(path))
            && (a.path.Some? <==> a.path == Some(path) && a.unknownReason.None?)
  {
    ParentIff(path);
  }

  lemma RootElsewhere(p: Process)
    requires !p.inRun
    ensures var (w, a) := (if p.input.Some? then p.input.value else p.captured, Snapshot(p, Absent));
            && (w == Nowhere ==> a == Attribution(None, Some("none"), None, p.environmentId))
            && (w.Unknown? ==> a == Attribution(None, None, Some(w.reason), p.environmentId))
  {
  }

  /** A chain of any length: the last descendant reports the path, source, reason and
      environment of the root, whatever its own directory, home and place in the run. */
  lemma {:induction false} ChainKeepsWorkspace(root: Process, inherited: Inherited, chain: seq<Process>)
    ensures Report(Snapshot(root, inherited), chain) == Snapshot(root, inherited)
    decreases |chain|
  {
    if chain != [] {
      SnapshotReported(root, inherited);
      ChildRepeats(Snapshot(root, inherited), chain[0]);
      ChainKeepsWorkspace(root, inherited, chain[1..]);
    }
  }

  /** A run whose variable was lost, or is malformed, is reported as unknown with no
      origin by it and by all that descend from it. */
  lemma LostContextStaysUnknown(p: Process, inherited: Inherited, chain: seq<Process>)
    requires match inherited
             case Absent => p.inRun
             case NotJson => true
             case Json(v) => Decode(v).None?
    ensures Report(Snapshot(p, inherited), chain)
         == Attribution(None, None,
                        Some(if inherited.Absent? then "inherited_context_unavailable"
                             else "inherited_context_invalid"), None)
  {
    ChainKeepsWorkspace(p, inherited, chain);
  }
}
