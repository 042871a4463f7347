# A verified model of the Cargo AI definition gate, output checks, identity and usage records

Cargo AI accepts agent definitions written as JSON, runs them directly or builds
them into executables, and keeps a local record of what agents did. This project
models the deterministic logic behind that and proves what its parts promise
together.

**Definitions.** Before anything reads a definition, a strict gate bounds its size
(`DataBudgets.dfy`, `DataPlaces.dfy`, `Budgets.dfy`), checks every output property (`Schemas.dfy`), types
every JSON Logic expression under a work budget (`LogicCheckers.dfy`), scopes the captures of
every action (`CaptureScopes.dfy`), counts the steps that produce the result
(`SelectedResults.dfy`) and reads the schema version (`Versions.dfy`); one work budget pays
for all of it (`DefinitionGate.dfy`). Two parsers, the
interpreter's and the one that generates code, then check and normalize the same tree
again. The theorems say how the three agree: which expressions, actions, versions and
properties the gate accepts that the parsers accept too, what a schema becomes, and
that no normalization changes which model outputs are valid (`Outputs.dfy`,
`Normalizers.dfy`, `SchemaLaws.dfy`, `SchemaAgreement.dfy`, `SchemaMeaning.dfy`,
`Rubrics.dfy`, `DefinitionOutputs.dfy`, `ModelOutput.dfy`); `WorkMeaning.dfy` counts the work they charge. `Canonical.dfy` is the normal form of JSON values.

**Identity.** `Identity.dfy` is a state machine of any number of processes that share a
config file and a lock file, crash anywhere, and meet outside writers that ignore the
lock; `IdentityCalls.dfy` says what one call returns and why calls fail. `Workspaces.dfy` follows the workspace a run reports through chains of child
processes.

**Executables.** `FrameScanner.dfy` and `Declarations.dfy` find a runtime's declaration in an
executable read in arbitrary pieces.

**Usage.** `UsageStores.dfy` is the store of immutable facts and `UsageQueues.dfy` the
bounded retry queue in front of it, with writers interleaved one insert at a time.

`Text.dfy`, `Json.dfy`, `Kinds.dfy` and `Sums.dfy` hold what these share. JSON objects are
sequences of members with distinct keys, so member order is visible (section 4 of
RFC 8259 calls objects unordered). A number is an integer or a real; the view of an
integer as a double rounds to 53 bits, ties to even (`Rounding.dfy`). What a function
computes is also stated apart from its body, on the values themselves: paths that name
places, typing rules, keywords, positions in a byte string, fields of a record. Code that updates
state in place is written as classes, methods and loops, each proved equal to a function
that the lemmas then speak about; pure code is functions. Only the first `data_budget`
error carries a path; other errors are one outcome.

Where the code and its own description differ, the model follows the code:

- The identity call promises not to overwrite a concurrent edit. An edit between the
  locked re-read and the load passes the comparison and has its identity replaced, and
  an edit after the comparison is lost. `Identity.ReplacedIdentityIff`,
  `Identity.LostEditIff` and `Identity.ChangeBeforeCompareFails` say exactly when, over
  every run, and `Identity.SafeIffTolerated` which outside writes are safe;
  `Identity.EditBetweenReadsReplaced` and `Identity.WindowLosesEdit` are two such runs.
- The version checkers of both parsers accept a plus sign in place of a leading zero,
  which the documented format does not: exactly the texts that are versions once a sign in
  front of the year, the month or the day is read as a zero (`Versions.CheckersIff`,
  `Versions.GateWithinCheckers`, `Versions.CheckersAcceptSigns`). This is a difference
  of functions that the program hides: the gate runs before both parsers
  (src/runtime_definition.rs:66 before :82, templates/build_support.rs:452 before :513),
  so no signed version reaches their checkers.
- The result check takes a step kind in any case and with spaces, the parsers exactly:
  they agree exactly on declared producers of the exact kind
  (`SelectedResults.CountsAgree`, `SelectedResults.LooseKindIsCounted`). The program hides
  this difference too: the strict gate refuses the loose kind
  (templates/definition_validation.rs:1490-1526), and a legacy definition may carry no
  annotation at all (templates/definition_validation.rs:1003-1030).

## Model

| member | source | states |
|---|---|---|
| Canonical.CanonicalIffSame | templates/build_support.rs:475-493 | two values have equal canonical forms exactly when they are equal up to member order at every level |
| Canonical.CanonicalizeIdempotent | templates/build_support.rs:475-493 | canonicalizing twice is canonicalizing once |
| Canonical.CanonicalKeepsMeaning | templates/build_support.rs:475-493 | the canonical form is in key order everywhere and differs from the value in member order only |
| Text.LessMeaning | templates/definition_validation.rs:162-167 | keys are ordered by code point: a proper prefix first, else the first difference decides |
| Text.TrimMeaning | templates/definition_validation.rs:177-183 | trimming takes whitespace off both ends, all of it and nothing else |
| DataBudgets.DataBudget | templates/definition_validation.rs:336-371 | the explicit-stack loop ends; with no error, the value is within all limits and the work equals the node count; an error is the first limit exceeded at the first place, in key order, that exceeds one |
| DataBudgets.RunMeaning | templates/definition_validation.rs:336-371 | from any stack, the loop succeeds exactly when everything on it is within the depth and size limits and the remaining nodes and bytes fit the totals |
| DataBudgets.WalkMeaning | templates/definition_validation.rs:336-371 | a value passes exactly when its node count, depth, strings, keys, collections and decoded text are within the limits |
| DataBudgets.WalkFailsFirst | templates/definition_validation.rs:336-371 | the walk fails with an error if and only if, of all places in order, it is the first limit exceeded at the first place that exceeds one: a string, list, object or key there, its depth, or the running count of places or of text |
| DataPlaces.PlacesNamed | templates/definition_validation.rs:139-156 | every place of the list is what its path names, following fields and indexes from the root, and its depth is the length of the path |
| DataPlaces.PlacesComplete | templates/definition_validation.rs:139-156 | every path that names something is the path of a place of the list |
| DataPlaces.PlacesInOrder | templates/definition_validation.rs:336-371 | the list is strictly ordered: parents first, list entries by index, members by key |
| DataBudgets.OutcomeIgnoresMemberOrder | templates/definition_validation.rs:162-167 | success and the first error, path included, do not depend on member order at any level |
| Budgets.Budget.Charge | templates/definition_validation.rs:326-335 | a charge adds to the work, saturating, and succeeds exactly within the limit |
| LogicCheckers.CheckLogic | templates/definition_validation.rs:1280-1364 | the budgeted checker returns the kind exactly when the expression is typed and its cost still fits, and then has charged exactly that cost |
| LogicCheckers.KindOfOperand | templates/definition_validation.rs:1365-1383 | an object operand is checked and charged once more, a literal costs nothing |
| LogicCheckers.CostBound | templates/definition_validation.rs:1280-1383 | the cost is at most 2 to the comparison nesting times the number of expression nodes |
| LogicCheckers.CostIsChecks | templates/definition_validation.rs:1280-1383 | the work charged is the number of times a node is checked, doubled by every comparison around it |
| LogicCheckers.LogicIffTyped | templates/definition_validation.rs:1280-1383 | an operand has a kind if and only if the typing rules give it that kind: one rule for each literal and each group of operators; ordering takes two numeric operands, equality two of one kind or two numeric ones |
| LogicCheckers.BuildComparisonIff | templates/build_support.rs:3393-3451 | the build accepts a comparison if and only if it has exactly two operands, accepted where they are objects, whose inferred kinds are ones that operator takes |
| LogicCheckers.BuildOtherIff | templates/build_support.rs:3308-3391 | any other named operator is accepted over accepted arguments, a literal always; the kind inferred is boolean for `and`, `or`, `!`, that of its content for a literal, else string |
| LogicCheckers.LookupIff | templates/build_support.rs:3553-3582 | the names the build looks up are the plain ones without a dot and those with the prefix `runtime.` |
| LogicCheckers.LiteralInferred | templates/build_support.rs:3453-3478 | the kind the build infers for each literal; whole numbers past 63 bits are integers there |
| LogicCheckers.CheckersAgree | templates/build_support.rs:3308-3551 | the strict checker accepts an expression exactly when the build accepts it and it keeps to the strict operators and typed defaults; the kinds then agree up to integer and number |
| LogicCheckers.MoreFieldsKeepKind | templates/definition_validation.rs:1280-1383 | declaring more fields keeps every accepted expression accepted, with its kind |
| CaptureScopes.ActionScope.RunStep | templates/definition_validation.rs:1476-1847 | a step is accepted exactly when its condition and references resolve in the current table, its captures are new and its work still fits; the table then gains those names as strings and the work is charged, and the table is unchanged otherwise |
| CaptureScopes.CheckAction | templates/definition_validation.rs:943-992 | an action is accepted exactly when its condition is typed, every step is in scope after the strictly earlier ones, and the work of all of them fits the budget, which is then charged exactly that |
| CaptureScopes.CaptureName | templates/definition_validation.rs:788-796 | exactly the strings that are nonempty, flat and not reserved once trimmed name a capture, and the name is the trimmed string |
| CaptureScopes.ScopedIff | templates/definition_validation.rs:1476-1847 | an action is in scope if and only if at every step the condition has a kind and the references resolve in the table of that step, and its captures are named, undeclared, captured by no earlier step and different from one another |
| CaptureScopes.TableMeaning | templates/definition_validation.rs:970-990 | the table of a step holds the declared fields with their kinds and, as strings, the captures of strictly earlier steps |
| CaptureScopes.ReferenceIff | templates/definition_validation.rs:1158-1181 | a reference resolves if and only if its trimmed name is in the table it reads with a kind its use takes |
| CaptureScopes.StepsWork | templates/definition_validation.rs:1476-1847 | the work of steps is one unit each, one for each string part, and that of their conditions |
| CaptureScopes.ReferencesResolve | templates/definition_validation.rs:1476-1847 | in an accepted action every reference resolves to a declaration or to a string captured by a strictly earlier step |
| CaptureScopes.EarlierNamesFresh | templates/definition_validation.rs:943-992 | captured names never shadow a declared field |
| CaptureScopes.CapturesUnique | templates/definition_validation.rs:1476-1847 | no name is captured twice in an action, in one step or across steps |
| CaptureScopes.LaterTablesKeepMeaning | templates/definition_validation.rs:943-992 | what a step may read keeps its kind at every later step |
| CaptureScopes.TablesSupportLookup | templates/build_support.rs:3553-3582 | every table of an accepted action holds only names the build can look up |
| CaptureScopes.GateRefinesBuild | templates/build_support.rs:838-880 | the gate accepts an action exactly when the build does, references in arguments, string parts and tool parameters included, and it has the strict extras: strict expressions, resolving request choices, and no step capturing one name twice |
| CaptureScopes.RefAgrees | templates/build_support.rs:3172-3230 | gate and build resolve a reference alike in every table of names the build can look up |
| Normalizers.NormalizeSchemaProperty | src/runtime_definition.rs:588-708 | the interpreter's normalizer, in its own order of checks, with enum and bounds parsed and re-inserted, computes the one normal form |
| Normalizers.NormalizeAgentProperty | templates/build_support.rs:3643-3765 | the build's normalizer, which checks in another order, re-inserts the description and demands room between the bounds, computes the same normal form under its own checks |
| Normalizers.NormalizedMeaning | src/runtime_definition.rs:588-708 | what a caller gets: the normal form accepts the outputs of its source, for both validators, and exists for every property the descriptor accepts |
| SchemaMeaning.NormalizesIff | src/runtime_definition.rs:588-708 | each parser normalizes a property, with its kind, if and only if the type says so and the keywords have the form that parser asks for, down to the schemas below |
| SchemaMeaning.NormalMeaning | src/runtime_definition.rs:588-708 | every keyword of the result: the type in plain words, number bounds as doubles, normalized schemas below, an object closed over exactly its properties in order, everything else as written |
| Normalizers.ParseEnum | src/runtime_definition.rs:745-784 | the enum loop refuses exactly the enums with a wrong, empty or repeated entry and otherwise keeps the entries in order |
| Normalizers.ParseConstraints | templates/build_support.rs:3862-3953 | bounds are refused exactly when one has the wrong form, two exclude each other or, in the build, they leave no room; otherwise each is written back as the number it compares as |
| Normalizers.SchemaProperties | src/runtime_definition.rs:672-699 | the loop over properties stops at the first refused one and collects schemas and names in order |
| Normalizers.AgentProperties | templates/build_support.rs:3724-3752 | the build's loop likewise |
| SchemaLaws.TypesAgree | templates/definition_validation.rs:414-450 | the gate and the parsers read the same type from every schema, nullable unions in either order included |
| SchemaMeaning.TypeIff | templates/definition_validation.rs:403-450 | a type keyword is read as a kind if and only if it is that word in any case and spacing, or that scalar word and null in either order where nulls are allowed |
| SchemaMeaning.DescriptorIff | templates/definition_validation.rs:547-744 | the gate accepts a property with a kind if and only if its type says so, it has only the keywords of that kind in that context, and each has its form |
| SchemaMeaning.OutputsIff | templates/definition_validation.rs:1923-2012 | a value is valid for an accepted property if and only if it is a null the type allows or a value of the kind within enum and bounds, with valid entries, or with exactly the declared keys and valid values |
| SchemaLaws.NormalTypeReadBack | src/runtime_definition.rs:2449-2484 | the written type reads back as itself, also for the interpreter's validator that compares names as they stand |
| SchemaAgreement.DescriptorNormalizes | templates/definition_validation.rs:547-649 | every property the descriptor accepts is normalized successfully by both normalizers, with the descriptor's kind and, the two sharing one normal form, the same schema |
| SchemaAgreement.BuildNormalizesIff | templates/build_support.rs:3643-3765 | a property, legacy ones included, is normalized by the build if and only if the interpreter normalizes it and, at every level, enum strings are nonblank and numeric bounds leave room; both then give the same schema |
| SchemaAgreement.NormalizeIdempotent | src/runtime_definition.rs:588-708 | normalizing a normalized schema changes nothing |
| SchemaLaws.NormalizedOutputs | templates/definition_validation.rs:1923-2012 | without the rubric keyword, normalizing keeps exactly the accepted outputs, and on the result the strict and the interpreter's validators accept the same outputs |
| SchemaLaws.NormalizedWellFormed | src/runtime_definition.rs:588-708 | normalizing a schema whose objects have distinct keys gives one whose objects have distinct keys |
| SchemaAgreement.AcceptedPropertyOutputs | src/runtime_definition.rs:412-475 | a property the descriptor accepts keeps its outputs when parsed, rubric endpoints restored; without a rubric both validators agree on it |
| DefinitionOutputs.GateParsesAlike | src/runtime_definition.rs:412-475 | both parsers parse every list of properties the gate accepts, and to one and the same list |
| DefinitionOutputs.DefinitionOutputsKept | src/runtime_definition.rs:412-475 | for every definition the gate accepts, rubrics included, parsing all its properties keeps exactly the outputs of what was authored |
| DefinitionOutputs.DefinitionOutputsAgree | src/runtime_definition.rs:128-202 | the strict validator on the wrapper schema and the interpreter's response validator accept the same outputs, also when nothing is declared, for every definition whose rubrics, if any, have exact bounds |
| DefinitionOutputs.RubricDefinitionsAreStrict | templates/definition_validation.rs:22-31 | a definition whose version supports rubrics is strict, so the program never compares rubric numbers as doubles |
| Rubrics.RubricAgreeIff | templates/definition_validation.rs:1955-1982 | given one rubric schema, the strict validator and the interpreter's agree on every number of JSON if and only if rounding moves no number onto either bound |
| Rubrics.AsF64KeepsOrder | templates/definition_validation.rs:1966-1974 | comparing as doubles never reverses the exact order of two numbers of JSON |
| Rounding.MagnitudeMeaning | templates/definition_validation.rs:1966-1974 | an integer as a double is the nearest multiple of the power of two that leaves 53 bits, ties to even |
| Rubrics.RubricBoundsDiffer | src/runtime_definition.rs:2348-2447 | a bound that is not exact: with maximum 2^53 the two functions differ at 2^53 + 1 |
| Rubrics.WideRubricAccepted | templates/definition_validation.rs:651-691 | the descriptor accepts rubrics from 0 to 2^53 |
| ModelOutput.OutputValue | templates/definition_validation.rs:1923-2012 | the budgeted validator accepts exactly the valid outputs whose cost still fits, and has then charged exactly that cost |
| ModelOutput.MembersMeaning | templates/definition_validation.rs:1992-2010 | checking properties in key order accepts and costs the same as in any order |
| WorkMeaning.OutputWork | templates/definition_validation.rs:1923-2012 | a valid output is charged one unit, plus the enum values up to the match, the bounds there are, the work of its entries, or that of the values of the declared keys |
| ModelOutput.ValidateModelOutput | templates/definition_validation.rs:1919-1922 | an output is accepted exactly when it is within the data limits, valid, and its nodes and checks together fit the budget |
| ModelOutput.ValidateProviderOutput | src/runtime_definition.rs:145-156 | a strict definition accepts exactly the outputs of its authored schema, rubrics included, that are within the limits and the budget; a legacy one what the response validator accepts, which without rubric keywords is the same schema's outputs; no legacy definition has a version that supports rubrics |
| FrameScanner.FoldIsVerdict | src/generated_capabilities.rs:328-341 | seeing frames one at a time gives the verdict on all of them: missing with none, else the first one's error, else a conflict at a second one whatever it holds, else the first one's value |
| FrameScanner.VerdictMeaning | src/generated_capabilities.rs:304-345 | a scan succeeds exactly when the content holds one frame and it decodes |
| FrameScanner.VerdictByPlaces | src/generated_capabilities.rs:318-344 | the verdict is missing with no framed place, else decided by the first place and whether another follows |
| FrameScanner.StepExtends | src/generated_capabilities.rs:318-344 | scanning the kept window and the next piece continues the scan of the whole: no frame start is skipped and none is seen twice |
| FrameScanner.StopDecides | src/generated_capabilities.rs:318-344 | a stop after a prefix is the verdict on every longer content |
| FrameScanner.ScanReader | src/generated_capabilities.rs:304-345 | whatever the pieces and interruptions, the result is the verdict on the whole content, unless the reader fails or the content is over the limit, and then it is an error |
| FrameScanner.ScanArtifact | src/generated_capabilities.rs:250-302 | the digest scanner likewise, interruptions being errors there |
| Declarations.DecodeIffEncoded | src/generated_capabilities.rs:122-175 | the reader's eight comparisons accept exactly the declarations whose feature bits are those of the revision they carry, and read back their kind and revision |
| Declarations.PatchedPayload | src/generated_capabilities.rs:134-156 | overwriting the payload of the current declaration gives the declaration of an earlier revision |
| Declarations.RecordVerdictIff | src/generated_capabilities.rs:304-345 | for all content, every result and every error by the places where both framing constants stand 66 bytes apart: none is missing, an unknown identity or declaration at the first is an error, a second place after a good first a conflict |
| Declarations.DigestVerdictIff | src/generated_capabilities.rs:250-302 | likewise for definition digests, 96 bytes apart |
| Declarations.CapabilitiesFromReader | src/generated_capabilities.rs:304-345 | within the limit and with no failing read, the answer is the one the places of records in the content give; capabilities are returned for no other content |
| Declarations.DefinitionForArtifact | src/generated_capabilities.rs:250-302 | likewise for the digest, its 64 lowercase hex bytes |
| Identity.AtMostOneInside | src/usage_attribution.rs:636-672 | at most one process is inside the locked section, whatever crashes and outside writes happen |
| Identity.CrashBlocksForever | src/usage_attribution.rs:636-672 | a crash inside leaves the lock taken for good, and from then on the file is what the last outside write left |
| Identity.IdentityIsStable | src/usage_attribution.rs:542-622 | in every interleaving whose outside writes are tolerated, those made under the lock included, the trimmed identity never changes once present |
| Identity.SafeIffTolerated | src/usage_attribution.rs:542-622 | an outside write that keeps the identity on file is safe in every continuation if and only if the process inside the lock, at its present step, would not replace the identity it leaves |
| Identity.ReturnedIdsAgree | src/usage_attribution.rs:542-622 | all calls that return an identity return the same one, and it is the one on file |
| Identity.RunSettled | src/cargo_ai_metadata.rs:81-193 | in every run with metadata writers among the processes, whatever is staged keeps a present identity, and every returned identity is the one on file |
| Identity.ChangeBeforeCompareFails | src/usage_attribution.rs:556-612 | in every run, a call passes its comparison if and only if no outside write came since its load or the last one left exactly what was loaded; otherwise the file stays, and in every continuation the call neither succeeds nor writes |
| Identity.CreateOnlyNeverReplaces | src/usage_attribution.rs:594-618 | a call that loaded a missing file never replaces one, whatever happens before its install and with or without the lock: it fails and leaves the file, or creates exactly what it staged |
| Identity.LostEditIff | src/usage_attribution.rs:594-618 | in every run with any outside writers, a replacing install overwrites something other than what was loaded if and only if an outside write came after the comparison and the last one left other content |
| Identity.ReplacedIdentityIff | src/usage_attribution.rs:546-618 | in every run with any outside writers, a successful install changes the identity on file if and only if an outside write came since the call looked for one under the lock and the last of them left an identity other than the installed |
| Identity.WindowLosesEdit | src/usage_attribution.rs:594-618 | a run in which such an edit is lost |
| Identity.EditBetweenReadsReplaced | src/usage_attribution.rs:542-575 | a run in which an edit after the locked re-read is accepted by the comparison and its identity replaced |
| IdentityCalls.InitializerAlone | src/usage_attribution.rs:542-622 | undisturbed, with the lock free: a missing file, and a readable one with no identity and no legacy credentials, get the new identity, which is returned; a present one is returned and the file kept; otherwise the call fails and the file is kept; the lock is free afterwards |
| IdentityCalls.WriterAlone | src/cargo_ai_metadata.rs:120-193 | a metadata writer likewise: it keeps a present identity, adds a missing one unless suppressed, and fails on an unreadable file or legacy credentials, which it leaves |
| IdentityCalls.FailuresHaveCauses | src/usage_attribution.rs:542-672 | in every run, a call fails only after giving up, an I/O error, an unreadable file, legacy credentials when loading, or an outside write that changed or created the file after the call loaded it |
| IdentityCalls.CallsCanFail | src/usage_attribution.rs:504-520 | inside the lock a crash leaves the lock taken, an I/O error frees it; neither touches the file |
| IdentityCalls.WaitingCanGiveUp | src/usage_attribution.rs:649-672 | a waiting call may give up, which touches neither file nor lock, and does not enter while the lock is taken |
| UsageStores.Connection.InsertEvent | src/usage_store.rs:249-281 | in autocommit or inside an outer transaction: with no failure an event is inserted if and only if its three fields are present and its identity is new, and the facts then gain exactly it; with failures the outcome is decided by the facts and the failing step, and the open transactions are as before |
| UsageStores.InsertIff | src/usage_store.rs:249-322 | with any failures: an event is stored if and only if no step up to the commit fails, and reported if and only if the reply arrives; a missing field or a conflicting record is refused as such |
| UsageStores.RefusalKeepsFacts | src/usage_store.rs:249-281 | a refused call leaves the facts as they were, except one whose commit took effect and was reported as failed |
| UsageStores.Connection.InsertInner | src/usage_store.rs:282-322 | a stored equal record is reported, a different one refused, a new one written; the facts differ after it exactly when the write happened, also if a later step fails |
| UsageStores.FactsImmutable | src/usage_store.rs:249-322 | over every sequence of calls a stored identity keeps its record, and a new record is one some call submitted |
| UsageStores.ReinsertKeepsFacts | src/usage_store.rs:282-322 | once stored, reported so or not, re-inserting an equal record at any later time changes nothing and reports it; another record under that identity never gets in |
| UsageQueues.Sink.PersistHistory | src/usage_log.rs:563-595 | one call queues or drops the event, stores the queue up to the first refusal, keeps the rest in order, and requests the marker on a drop or a failure; with no failure it empties the queue if and only if every event has its fields and conflicts with no record and no other event, and the store gains exactly these |
| UsageQueues.CleanFlushIff | src/usage_log.rs:563-595 | without failures a flush stores the whole queue if and only if every event has its fields and none conflicts with a stored record or another event of the queue |
| UsageQueues.CleanCallDrains | src/usage_log.rs:563-595 | in every reachable state, whatever failed before, the next call that meets no failure stores all that waits, leaves the queue empty and does not request the marker |
| UsageQueues.EachEventOnce | src/usage_log.rs:563-595 | in every run, with any failures and writers interleaved at each insert, a submitted event is stored, waiting or dropped, and only one of these, except exactly the next event of a writer whose commit was reported as failed |
| UsageQueues.ExactlyOnceWithReplies | src/usage_log.rs:563-595 | when no commit is falsely reported as failed there is no such exception |
| UsageQueues.LostReplyHeals | src/usage_log.rs:574-586 | the next insert that meets no failure reports that event as already stored, changes no fact and takes it out of the queue |
| UsageQueues.QueuesBoundedAndOrdered | src/usage_log.rs:563-595 | queues never exceed 100, each writer's events are stored and kept in submission order, and pending or dropped events mean the marker was requested |
| UsageQueues.CallIsItsSteps | src/usage_log.rs:563-595 | one call run without interruption, as the steps of the system, has the effect of the sink's method |
| DefinitionGate.CheckDescriptor | templates/definition_validation.rs:547-649 | the budgeted walk over a property, nested schemas in key order, returns its kind exactly when the descriptor accepts it and its cost still fits, and has then charged exactly that cost |
| WorkMeaning.DescriptorWork | templates/definition_validation.rs:547-744 | a property costs one unit, one for each bound, enum value and rubric level it has, and what the schemas below it cost |
| DefinitionGate.CheckActions | templates/definition_validation.rs:943-992 | the loop over the actions accepts exactly when every action is well formed, typed and in scope, the steps of all are within the limit, and the work of all fits; it then has charged exactly that |
| DefinitionGate.ActionIff | templates/definition_validation.rs:943-992 | an action is accepted if and only if it has exactly the keys name, logic and run: a text that is not blank, a typed condition, and a list of 1 to 256 steps that are in scope |
| DefinitionGate.CheckDefinition | templates/definition_validation.rs:818-994 | one budget pays for data, properties and actions: these checks pass exactly when each part is accepted and one total, a function of the definition alone, is within the limit |
| DefinitionGate.FieldTableMeaning | templates/definition_validation.rs:868-885 | the table the actions are checked with holds exactly the property names, each with the kind of its descriptor, in whatever order they were written |
| SelectedResults.ValidateSelectedResult | templates/definition_validation.rs:996-1083 | the check accepts exactly when every annotation is allowed, the declaration is well formed, and the declared producers are one with it and none without |
| SelectedResults.SelectedResultIff | templates/definition_validation.rs:996-1083 | accepted exactly when annotations stand only on tool steps of a supported definition and exactly one step says it produces the result, with a well-formed declaration, or none does, with none |
| SelectedResults.CountsAgree | templates/definition_validation.rs:1003-1030 | the check and the parsers count the same producers if and only if every declared one has the exact kind |
| SelectedResults.ProducersMatchResult | src/runtime_definition.rs:1117 | in an accepted definition of any revision exactly one parsed step is flagged when a result is declared, and none otherwise |
| SelectedResults.LooseKindIsCounted | templates/build_support.rs:1472-1475 | a kind in another case is counted by the check and flagged by no parser; the strict gate refuses it |
| Versions.PrintThenParse | templates/definition_validation.rs:238-272 | printing a valid date and a positive 32-bit revision, and parsing, gives the same numbers back |
| Versions.ParseThenPrint | templates/definition_validation.rs:238-272 | parsing gives a valid version, and printing it gives the text back exactly when its revision has no leading zero |
| Versions.CalendarIff | templates/definition_validation.rs:238-272 | exactly the dates of the Gregorian calendar up to the year 9999 with a positive 32-bit revision survive printing and parsing |
| Versions.GateWithinCheckers | templates/build_support.rs:612-673 | the gate accepts exactly the versions the other checkers accept that have no plus sign |
| Versions.CheckersIff | src/runtime_definition.rs:2250-2305 | the checkers accept exactly the texts the gate accepts once a sign in front of the year, the month or the day is read as a zero |
| Versions.CheckersAcceptSigns | src/runtime_definition.rs:2250-2305 | in any year, a sign in place of a leading zero is accepted by the checkers and refused by the gate |
| Versions.RevisionMeaning | templates/definition_validation.rs:273-312 | without the old key, a root is legacy exactly when its version is before 2026-09-09.r1, and strict exactly when its text is one of the six supported ones |
| Versions.LegacyIff | templates/definition_validation.rs:273-312 | a root without the old key is legacy exactly when its version is valid and its date, as one number of eight digits, is below 20260909 |
| Versions.RefusedIff | templates/definition_validation.rs:273-312 | every refusal by what the root holds: no object, the old key, no version, no text, no valid version, or one from the first strict date on that is not among the six |
| Versions.FeaturesSince | templates/definition_validation.rs:16-31 | among the supported versions rubrics are those from 2026-09-19 on and declared results those from 2026-10-03 on |
| Workspaces.ChildRepeats | src/usage_attribution.rs:281-325 | a child repeats an attribution exactly when it is one some process can report |
| Workspaces.RootReports | src/usage_attribution.rs:281-406 | a process that inherits nothing, outside any run, reports the workspace it was given, else the one it captured, and its own environment; a path only if it is valid text, absolute and free of `..` components |
| Workspaces.RootElsewhere | src/usage_attribution.rs:281-406 | with no workspace, or an unknown one, it reports that instead, and its own environment |
| Workspaces.NamedForm | src/usage_attribution.rs:23-46 | the value of the variable is read by these keys |
| Workspaces.PositionalForm | src/usage_attribution.rs:23-46 | the derived reader also takes arrays, by position |
| Workspaces.ChainKeepsWorkspace | src/usage_attribution.rs:281-406 | in a chain of any length the last descendant reports the path, source, reason and environment of the root, whatever its own directory, home or place in the run |
| Workspaces.LostContextStaysUnknown | src/usage_attribution.rs:281-303 | a lost or malformed variable is reported as unknown, with no origin, by that process and all its descendants |

## Left out

- Whole-definition agreement of the three parsers: they differ at the edges (trimming of programs and runtime-variable types, keyword names, spaces in tool names), so theorems are per sub-language.
- CaptureScopes.ActionScope.RunStep: the field lists of the single step kinds are left out; a step is its condition, references, number of string parts and captures.
- Identity.Next: the lock, staging and install are steps of a state machine on values, not methods on shared file objects; every file operation is atomic, waiting for the lock may end at any time, and link checks, backups, permissions and directory syncing are not modelled.
- Of the two comparisons a metadata writer makes, the earlier one is covered by the step that fails for any reason.
- UsageStores.Connection.InsertEvent: retention is off, so capture deletes nothing; encoding and decoding a stored record are assumed to agree.
- UsageQueues.EachEventOnce: the end of a writer's process, which loses its queue, is not a step; a poisoned queue mutex is not modelled.
- The run and tool guards of the usage log, the legacy log file, and the event fields.
- SelectedResults.ValidateSelectedResult: the business schema check is a parameter.
- DefinitionGate.CheckDefinition: the root's other keys, the schema's type, the inputs and the selected result are not part of it; the rule for property names, the declared runtime variables and the reading of a step from its JSON are parameters.
- CaptureScopes.GateRefinesBuild: the work budget, which only the gate has, is left to CaptureScopes.CheckAction.
- SchemaLaws.NormalizedOutputs: schemas with the rubric keyword are left to SchemaAgreement.AcceptedPropertyOutputs, because the parsers restore their endpoints; a legacy definition that carries the keyword is checked by the interpreter's validator alone.
- Workspaces.ResolveWorkspace: path rules are those of Unix; the text of the inherited value is its JSON value, and duplicate keys in it are not modelled.
- Random identifiers are fresh values: two events, or two new identities, never share one by chance.
- JSON text, duplicate-key detection, enum values that are equal as numbers but written differently, TOML text, UTF-8 decoding.
- Error wording and the rendered text of paths: a path is its sequence of steps.
- Command line, HTTP, package and build runners, and rendered Rust code: no deep invariant, or meaning that lies outside this repository.
