# A verified model of the bounded-verb shell

This project models the v1.2 runtime of the agent-to-environment shell (a small language of verbs such as
`filter`, `merge`, `save` and `call`, with `if` and `foreach` blocks) and the state machines around it, and proves
what they promise over every input, every run and every schedule. The command for checking it is
`dafny verify dfyconfig.toml`; no part of it calls the shell itself.

| files | what they model |
|---|---|
| `Values`, `Ast`, `Evaluate` | runtime values and `jsEq`, syntax, scopes, paths, interpolation, predicates |
| `Verbs`, `Merge` | `filter`, `transform`, `head`; the four join strategies against a nested-loop reading |
| `PredicateMeaning`, `ValueMeaning`, `JoinMeaning`, `CommandMeaning`, `LoopMeaning` | what predicates, values, verbs, commands and blocks come to, said of the values and sessions they start from |
| `Runtime`, `Session` | a sequential interpreter that records what a statement changes and reads, and the session object whose methods are proved to do exactly that |
| `WorkerPool`, `Interleaving`, `Locality`, `Chains`, `Schedules`, `Progress`, `Work`, `Termination`, `RaceFreedom` | the bounded worker pool, `foreach --parallel` as a small-step system over every interleaving, its schedule independence, how many steps every schedule takes, and which programs are race free by their form |
| `Scoping`, `ParseChecks` | iteration frames against bind-and-restore, the checks after parsing |
| `Text`, `Sse`, `EventStream`, `Redactor`, `RedactorMeaning` | string searching, the incremental event-stream parser, the WHATWG standard beside it, the secret redactor |
| `Persisters`, `Idempotency`, `Stdio`, `StdioRuns` | the two coalescing writers, at-most-once execution, the stdio JSON-RPC connection |
| `SlidingLimiter`, `FixedLimiter`, `Debounce` | the two rate limiters and the debounced dispatcher over a clock |
| `BindingTtl`, `Base64`, `Codec`, `Transcript`, `Overlap` | the session object with its expiring bindings, its persistence, transcript rotation one append at a time and with overlapping appends |

How the parts fit. Pure code (evaluation, `stableKey`, encoding, the checks after parsing) is written as functions. Code
that changes things step by step is written as methods and classes with loops, each proved equal to a function of the
old state; the theorems are about those functions, over all runs. The modules whose names end in `Meaning` say what one
operation comes to without naming the functions that compute it. In the interpreter a statement's effect records its
outcome, the store it leaves (as a change to be laid over the one before), what it looked at, whether its parallel
blocks were free of races, and how many frames it stacked. A half-run task is given a meaning by completing it
sequentially; schedule independence is proved by showing that no step of any worker changes that meaning, and
termination by showing that every step that does anything takes one off the number of steps the completion has.

External calls, the clock inside one program, JSON and number texts, regular expressions and capability checks are
parameters (the fields of `Evaluate.World`, the `json` and `parse` arguments, event fields).

Where the code differs from what is written about it:

- The header of `src/runtime/execute.ts` says blocks and `call` are not implemented; the code implements them, and so does the model.
- `jsEq` is not symmetric for a record with a key that the list or buffer it meets inherits, `length` for both, `byteLength` and `BYTES_PER_ELEMENT` for buffers (`Values.LengthKeyBreaksSymmetry`, `Values.ByteLengthBreaksSymmetry`), because it compares through keys; nor is it transitive (`Values.LengthKeyBreaksTransitivity`). With these inherited names `Values.SymmetryIff` and `Values.TransitivityIff` say exactly when it is.
- An assignment to a meta command does not bind its target (`src/runtime/execute.ts:279`); only `$_` changes.
- A response reports the target of `save` as its binding even when the statement assigned to another name.
- The waiting time computed for a refused stdio call ends one millisecond before a repetition is admitted (`SlidingLimiter.RepeatedCall`), because an entry exactly 60 000 ms old still counts; rounding it up to seconds hides this except at whole seconds.
- With a limit of zero per minute the fixed-window limiter still admits the first request of every window, so its bound is stated for max(1, n).
- A secret that can overlap `[REDACTED]` may survive its own redaction: `Redactor.SingleSecretLeaksIff` says exactly which do.
- A record with a string at `__buffer__` comes back from persistence as bytes (`Codec.AmbiguousRecordDecays`).
- The event-stream parser ends an event only at two LFs or two CRLFs, ignores a line that is the bare word `data`, and still yields an unterminated last event; sections 9.2.5 and 9.2.6 of the WHATWG HTML Standard differ in all three. `EventStream.MixedEndsDiffer` shows a mixed blank line; `EventStream.LfAgreesIff`, `CrlfAgreesIff` and `StreamIsStandard` say when the two agree.
- A reply to a pending request whose `error` cannot be read, such as `"error": null`, throws after the request has left the table and its timer is cleared: the promise is never settled (`Stdio.NullErrorLosesRequest`), and the lines after it in the same chunk wait in the buffer for the next one. Nothing in the repository catches the exception; the model lets the connection go on, as it does under a handler for uncaught exceptions.
- A request of the server with a numeric id equal to that of a pending request is taken for its response.
- Overlapping appends to one transcript can put more than the hard cap into a segment (`Overlap.OverlapBreaksBounds`).
- The stdio size limit is checked on the whole buffer before it is split, so one chunk of many short lines beyond 2 MiB loses them all (`Stdio.LargeChunkLosesItsLines`).
- An oversized transcript entry is refused only after it has rotated a non-empty segment (`Transcript.RefusalRotates`), and two rotations with one time stamp lose a segment (`Transcript.NothingLostIffStampsDistinct`).

## Model

| member | source | states |
|---|---|---|
| Values.JsEqReflexive | src/runtime/evaluate.ts:253-273 | every value equals itself, to any depth |
| Values.SymmetryIff | src/runtime/evaluate.ts:253-273 | equal values of any depth, lists, records and bytes compared through keys included, are equal the other way round iff nowhere at the same place a record with an inherited name as a key meets the list or buffer that inherits it (a pigeonhole on key sets) |
| Values.JsEqSymmetric | src/runtime/evaluate.ts:253-273 | so equality is symmetric when the first value has no such name as a key in it |
| Values.TransitivityIff | src/runtime/evaluate.ts:253-273 | two equalities in a row compose iff nowhere at the same place of the three values a record has a key that the second value inherits and the third does not |
| Values.JsEqTransitive | src/runtime/evaluate.ts:253-273 | so equality is transitive when the first value has no such name as a key in it |
| Values.LengthKeyBreaksSymmetry | src/runtime/evaluate.ts:257-271 | `{length: 1}` equals `[7]` but not the other way round |
| Values.ByteLengthBreaksSymmetry | src/runtime/evaluate.ts:257-271 | `{byteLength: 1}` equals every buffer of one byte but not the other way round |
| Values.LengthKeyBreaksTransitivity | src/runtime/evaluate.ts:257-271 | `{length: 1}` equals `[7]`, that equals `{"0": 7}`, and the first does not equal the last |
| Evaluate.EvalAgrees | src/runtime/evaluate.ts:75-103 | evaluation depends on a scope only through the paths the expression mentions |
| ValueMeaning.InnermostFrameWins | src/runtime/evaluate.ts:55-65 | a name is the item of the innermost frame that binds it, whatever the session holds |
| ValueMeaning.SessionNames | src/runtime/session.ts:113-122 | outside frames `$_` is the last result and another name its binding until the deadline, at which it is gone |
| ValueMeaning.PathStarts | src/runtime/evaluate.ts:106-116 | a path without steps is its root: the implicit item or the name |
| ValueMeaning.FieldStep | src/runtime/evaluate.ts:122-131 | a field step enters a record that has the field and misses on everything else |
| ValueMeaning.IndexStep | src/runtime/evaluate.ts:132-140 | an index step enters a list that is long enough and misses on everything else |
| ValueMeaning.FailedPathStays | src/runtime/evaluate.ts:117-120 | further steps keep the error of a path that fails |
| ValueMeaning.ScalarsAreThemselves | src/runtime/evaluate.ts:75-82 | literals, a duration as its number of milliseconds |
| ValueMeaning.ListLiteral | src/runtime/evaluate.ts:83 | a list literal has the values of its items in order |
| ValueMeaning.ListLiteralFails | src/runtime/evaluate.ts:83 | or the error of the first item that has none |
| ValueMeaning.ObjectLiteral | src/runtime/evaluate.ts:84-88 | an object literal has exactly the keys of its pairs, the last pair of a key deciding the value |
| ValueMeaning.InterpolationAppends | src/runtime/evaluate.ts:149-170 | each kind of value is written into a string in its way; bytes are refused |
| ValueMeaning.InterpolationAppendsText | src/runtime/evaluate.ts:149-159 | literal text is appended as it is |
| ValueMeaning.InterpolationFails | src/runtime/evaluate.ts:149-159 | the first path without a value is the error |
| PredicateMeaning.ScalarsAreEqualIff | src/runtime/evaluate.ts:253-256 | unless both are objects, equal is identical |
| PredicateMeaning.ListsAreEqualIff | src/runtime/evaluate.ts:257-260 | lists are equal iff they are as long and equal item by item |
| PredicateMeaning.RecordsAreEqualIff | src/runtime/evaluate.ts:261-271 | records are equal iff they have the same fields with equal values |
| PredicateMeaning.BuffersAreEqualIff | src/runtime/evaluate.ts:261-271 | buffers are equal iff they hold the same bytes |
| PredicateMeaning.RecordsMeetBuffers | src/runtime/evaluate.ts:261-271 | each of the three inherited names makes a record with the value 1 equal to a one-byte buffer |
| PredicateMeaning.NumbersCompare | src/runtime/evaluate.ts:232-242 | for operands that are numbers each of the six operators gives the arithmetic verdict |
| PredicateMeaning.StringsCompare | src/runtime/evaluate.ts:243-249 | for strings the lexicographic one: a proper prefix or the first differing character decides |
| PredicateMeaning.OthersAreNotOrdered | src/runtime/evaluate.ts:236-250 | values of other or mixed types are in no order |
| PredicateMeaning.EqualityCompares | src/runtime/evaluate.ts:233-234 | `==` and `!=` are `jsEq` and its negation |
| PredicateMeaning.ComparisonFails | src/runtime/evaluate.ts:193-197 | an operand without a value is the error, the left one first |
| PredicateMeaning.AndDecides | src/runtime/evaluate.ts:176 | conjunction with its short circuit, verdicts and errors |
| PredicateMeaning.OrDecides | src/runtime/evaluate.ts:177 | disjunction with its short circuit, verdicts and errors |
| PredicateMeaning.NotDecides | src/runtime/evaluate.ts:178 | negation; De Morgan's law and double negation hold, errors included |
| PredicateMeaning.InDecides | src/runtime/evaluate.ts:198-202 | `in` holds iff some choice equals the value |
| PredicateMeaning.MatchesDecides | src/runtime/evaluate.ts:203-213 | `matches` is false of anything but strings and fails on a bad expression only for those |
| PredicateMeaning.ExistsDecides | src/runtime/evaluate.ts:214-222 | `exists` turns a missing name or field into false and hides no other error |
| SessionObject.LookupFrames | src/runtime/evaluate.ts:55-65 | the loop finds the innermost frame that binds the name |
| SessionObject.ResolvePath | src/runtime/evaluate.ts:106-140 | the loop over steps yields the value at the path, or the error of the first step that fails |
| SessionObject.ResolveInterp | src/runtime/evaluate.ts:149-172 | the loop over segments yields the interpolated text, or the first segment's error |
| Verbs.RunFilter | src/verbs/filter.ts:11-29 | exactly the items the predicate accepts, in order; the first predicate error aborts (which those are, operator by operator: `PredicateMeaning.FilterKeepsExactly` and `FilterByNumber`) |
| PredicateMeaning.FilterKeepsExactly | src/verbs/filter.ts:22-28 | the result is, in order, the items at exactly the positions where the predicate holds |
| PredicateMeaning.FilterFailsFirst | src/verbs/filter.ts:22-28 | the first item for which it fails decides the error |
| PredicateMeaning.FilterWantsList | src/verbs/filter.ts:16-21 | anything but a list is refused |
| PredicateMeaning.FilterByNumber | src/verbs/filter.ts:22-28 | `where .field <op> number` keeps exactly the items whose field lies on that side of the number |
| PredicateMeaning.FilterByText | src/verbs/filter.ts:22-28 | and likewise of a string in lexicographic order |
| Verbs.KeptSplits | src/verbs/filter.ts:22-28 | filtering a concatenation is concatenating the filtered parts, errors of the first part first |
| Verbs.FilterCommutesWithPick | src/verbs/transform.ts:26-43 | `pick F` then filter equals filter then `pick F`, errors included, when all items are records and implicit paths start in F |
| Verbs.NestedFiltersFuse | src/runtime/evaluate.ts:174-224 | filtering by q then p succeeds iff filtering by `q and p` does, with the same result |
| Verbs.PickKeepsPredicate | src/runtime/evaluate.ts:174-224 | such a predicate, short circuits and `exists` included, cannot tell a record from its pick |
| Verbs.PickFields | src/verbs/transform.ts:37-43 | the loop yields the record restricted to the requested fields it has |
| Verbs.OmitFields | src/verbs/transform.ts:44-49 | the loop yields the record without the named fields, whatever the order it visits them in |
| Verbs.WritePairs | src/verbs/transform.ts:59-78 | each pair is evaluated against the original item and written over the record; the first error aborts |
| Verbs.ApplyOp | src/verbs/transform.ts:33-70 | one record through `pick`, `omit`, `set` or `map`, or the error |
| ValueMeaning.PickAndOmitMean | src/verbs/transform.ts:37-49 | `pick` keeps exactly the named fields there are, `omit` exactly the others, with their values |
| ValueMeaning.SetMeans | src/verbs/transform.ts:59-65 | `set` yields the record's fields with those of the pairs over them, their values computed on the record as it was |
| ValueMeaning.MapMeans | src/verbs/transform.ts:66-78 | `map` yields the fields of the template and no other |
| ValueMeaning.SetAndMapFailFirst | src/verbs/transform.ts:59-78 | the first value that cannot be computed is the error |
| ValueMeaning.ListTransforms | src/verbs/transform.ts:26-31 | a list is transformed record by record |
| ValueMeaning.ListTransformFailsFirst | src/verbs/transform.ts:26-36 | the first item that cannot be transformed is the error, a nested list being one |
| ValueMeaning.TransformWantsRecords | src/verbs/transform.ts:80-92 | anything but records and lists is refused |
| ValueMeaning.HeadMeans | src/meta/head.ts:10-17 | the first n elements of a list, string or buffer, anything else unchanged |
| Join.RunMerge | src/verbs/merge.ts:18-74 | the map-based loops compute the nested-loop join in which a key's match is the last row with that stable key, error cases included (what its rows hold, field by field: `JoinMeaning`) |
| Join.IndexRows | src/verbs/merge.ts:27-28 | the index maps each key to the last row that has it |
| Join.OverlayLeft | src/verbs/merge.ts:31-63 | left rows with their matches laid over them, for `left`, `inner` and the first half of `outer`, the right value winning (`JoinMeaning.LeftMeans`, `InnerMeans`) |
| Join.OverlayRight | src/verbs/merge.ts:46-51 | right rows laid over their left matches, every right row kept, in order |
| Join.AppendUnseen | src/verbs/merge.ts:64-70 | the second loop of `outer` appends exactly the right rows whose key no left row has |
| JoinMeaning.ScalarsMatchIff | src/verbs/merge.ts:89-95 | scalar keys match iff they are the same value of the same type, if different numbers print differently |
| JoinMeaning.ObjectsMatchIff | src/verbs/merge.ts:89-95 | lists, records and buffers match by their JSON text, and never with a scalar |
| JoinMeaning.LeftMeans | src/verbs/merge.ts:40-45 | every left row in its place: exactly the fields of it and of the last right row with its key, the right value wherever that has the field; unchanged without a match |
| JoinMeaning.InnerMeans | src/verbs/merge.ts:31-39 | in order, exactly the left rows with a match, merged so |
| JoinMeaning.RightMeans | src/verbs/merge.ts:46-53 | every right row in its place over the last left row with its key, the right value winning; unchanged without a match |
| JoinMeaning.OuterMeans | src/verbs/merge.ts:54-73 | what `left` answers, then in order exactly the right rows whose key no left row has, unchanged |
| JoinMeaning.MissingKeyFails | src/verbs/merge.ts:26-28 | one row without a value at the by-path fails the merge |
| JoinMeaning.NotRecordsFails | src/verbs/merge.ts:76-86 | so does an operand that is not a list of records |
| Join.MergeKeepsKeys | src/verbs/merge.ts:18-95 | the by-path of every output row resolves to the key of the rows it came from, so each strategy has exactly its expected key sequence |
| Join.JoinedKeySets | src/verbs/merge.ts:18-74 | inner has the common keys, outer has all of them |
| SessionObject.Session.RunSave | src/verbs/save.ts:18-35 | refused for `_` and, without overwrite, for a live name; otherwise the binding with its deadline is set and nothing else changes |
| SessionObject.Session.SaveTo | src/runtime/execute.ts:319-343 | a whole `save`: errors in order, `$_`, the target and, if different, the assigned name |
| SessionObject.Session.FinishAndBindTo | src/runtime/execute.ts:404-430 | the value becomes `$_` and the assignment target, nothing else changes |
| SessionObject.Session.ExecuteCommand | src/runtime/execute.ts:272-402 | every verb and meta command leaves exactly the store and response of its effect; a failure changes nothing |
| CommandMeaning.FilterAnswers | src/runtime/execute.ts:305-310 | a filter answers its result, which becomes `$_` and the assigned name, without a deadline; a failure changes nothing |
| CommandMeaning.TransformAnswers | src/runtime/execute.ts:312-317 | the same for `transform` |
| CommandMeaning.MergeAnswers | src/runtime/execute.ts:344-350 | the same for `merge` |
| CommandMeaning.TargetFails | src/runtime/execute.ts:305-350 | a target without a value fails the command before anything changes, of two the left one first |
| CommandMeaning.MetaAnswers | src/runtime/execute.ts:354-402 | meta commands answer and set `$_`; no name is bound, not even the assigned one |
| CommandMeaning.LookupsAnswer | src/runtime/execute.ts:391-400 | so do `history` and `help` |
| CommandMeaning.MetaFails | src/runtime/execute.ts:354-402 | and change nothing when they fail |
| CommandMeaning.EnvLists | src/meta/env.ts:13-20 | `env` lists, sorted, exactly the names without a deadline or with one still to come |
| CommandMeaning.WaitAnswers | src/verbs/wait.ts:11-22 | `wait` changes nothing, not even `$_`; more than an hour is refused |
| CommandMeaning.CallAnswers | src/verbs/call.ts:238-286 | `call` sends its arguments in the order written, once admitted, and binds the reply |
| CommandMeaning.CallRefused | src/verbs/call.ts:238-286 | the first refusal, or the first argument without a value, ends it before anything is sent |
| CommandMeaning.SaveBinds | src/verbs/save.ts:18-35 | `save` binds the value until its time-to-live from now, sets `$_` and, if different, the assigned name, and nothing else |
| CommandMeaning.SaveRefuses | src/runtime/execute.ts:319-343 | and refuses a name that is no text, is reserved, or is in use and not expired |
| CommandMeaning.SaveFails | src/runtime/execute.ts:319-325 | the error of the value comes before that of the name |
| CommandMeaning.SavedThenRead | src/verbs/save.ts:18-35 | what was saved is what its name stands for until its deadline, and from then on a miss |
| CommandMeaning.ResponseNamesVerb | src/runtime/execute.ts:213-217 | a response names the verb that iteration records report |
| SessionObject.Session.ExecuteStmt | src/runtime/execute.ts:94-111 | running a statement on the session object is the sequential semantics `Exec` |
| SessionObject.Session.ExecuteIf | src/runtime/execute.ts:113-153 | the branch taken, its first error, or the branch tag in `$_` |
| LoopMeaning.BranchAnswers | src/runtime/execute.ts:113-133 | the statements of the branch the condition selects run in order, and the tag `branch:then` or `branch:else` is answer and `$_` |
| LoopMeaning.BranchFails | src/runtime/execute.ts:113-133 | the branch's first error ends the block, and nothing after it runs |
| LoopMeaning.ConditionFails | src/runtime/execute.ts:118 | a condition that fails changes nothing |
| SessionObject.Session.ExecuteLoop | src/runtime/execute.ts:155-205 | the iterations one after the other, abort or record on error, and the index-ordered records in `$_` (which mode does which: `LoopMeaning.AbortEndsAtFirstError`, `ContinueRecordsEach`) |
| LoopMeaning.AbortEndsAtFirstError | src/runtime/execute.ts:169-204 | under `abort` the first iteration whose body ends with an error ends the block with it: the session is as that iteration left it, so no later one ran |
| LoopMeaning.ContinueRecordsEach | src/runtime/execute.ts:169-222 | under `continue` every item's body runs, and the answer and `$_` are one record per item in order, with `error_code` exactly where the body failed |
| LoopMeaning.CodesAreSpelled | src/runtime/execute.ts:192-202 | the error codes that records carry |
| LoopMeaning.AbortRecordsEach | src/runtime/execute.ts:169-222 | under `abort` without an error likewise, no record having an error |
| LoopMeaning.NoListNoLoop | src/runtime/execute.ts:160-163 | a list that cannot be evaluated, or is none, fails the block with nothing changed |
| LoopMeaning.BodyEndsAtFirstError | src/runtime/execute.ts:174-196 | a body stops at its first error, reporting the verb and binding of the statement before |
| LoopMeaning.BodyRunsAll | src/runtime/execute.ts:174-196 | without an error every statement runs, in the session the ones before left |
| LoopMeaning.IterationsStack | src/runtime/evaluate.ts:41-48 | every iteration that runs counts one frame more than the block it is in |
| LoopMeaning.ScheduledContinue | src/runtime/execute.ts:165-222 | the records and bindings of a race-free block under `continue`, for every schedule of its workers |
| LoopMeaning.ScheduledAbort | src/runtime/execute.ts:165-222 | and its first error under `abort` |
| LoopMeaning.EveryScheduleEndsFor | src/runtime/execute.ts:165-255 | races or not, under every schedule: a block under `continue` whose list evaluates never fails and has a record for each item in order, and one under `abort` answers only with records without an error |
| LoopMeaning.PoolIsBounded | src/runtime/execute.ts:165-208 | a block has min(`--parallel`, items) workers, and is sequential when that is below two |
| WorkerPool.BoundedPool.PullNext | src/runtime/execute.ts:232-255 | the top of a worker's loop: stop on an error or at the end, else take the next index |
| WorkerPool.BoundedPool.OnSettled | src/runtime/execute.ts:232-255 | a finished task fills its slot, a failed one is recorded only if it is the first |
| WorkerPool.PoolSafety | src/runtime/execute.ts:232-255 | in every run: started indices are 0, 1, 2, … without a gap or repeat, none settles twice, at most `concurrency` run at once, without errors every index finished and every slot is filled, and the error reported is the first recorded |
| WorkerPool.NothingStartsAfterError | src/runtime/execute.ts:232-255 | after the first recorded error nothing starts and that error stays |
| WorkerPool.NeverStuck | src/runtime/execute.ts:232-255 | while a worker has not returned, some step is possible |
| WorkerPool.RunsAreBounded | src/runtime/execute.ts:232-255 | a run has at most two steps per index and one more per worker |
| Schedules.ScheduleIndependence | src/runtime/execute.ts:155-255 | a statement whose parallel blocks are free of races ends, under every interleaving of all its pools, with the response, bindings and `$_` of its sequential run |
| Schedules.StepContinues | src/runtime/execute.ts:155-255 | one step of any worker in any pool leaves unchanged what the half-run task will do |
| Progress.ConcurrencyIsIrrelevant | src/runtime/execute.ts:165-205 | a block free of races with its workers ends alike with every other number of workers and every schedule of each |
| RaceFreedom.PlainEndsAlike | src/runtime/execute.ts:144-148 | a program whose blocks go on after errors, write nothing but `$_` and never read it, ends alike under every schedule, its blocks nested in any way |
| RaceFreedom.PlainCanBeCompleted | src/runtime/execute.ts:232-255 | and from wherever a schedule stands |
| RaceFreedom.PlainNeedsNoFrames | src/runtime/evaluate.ts:41-65 | and iteration frames are to it what bind-and-restore would be |
| RaceFreedom.OwnNamesAreRaceFree | src/runtime/execute.ts:144-148 | saving every item under a name of its own is race free for any number of workers |
| RaceFreedom.OwnNamesHoldTheItems | src/runtime/execute.ts:144-148 | so under every schedule each such name holds its item in the end and no other binding has changed |
| Progress.SomeoneCanMove | src/runtime/execute.ts:232-255 | no schedule of such a program gets stuck before the end |
| Termination.StepTakesOne | src/runtime/execute.ts:94-255 | a step of any worker in any pool either changes nothing or leaves exactly one step less, counted on the sequential completion |
| Termination.SchedulesAreEquallyLong | src/runtime/execute.ts:94-255 | every schedule of a race-free statement takes at most its number of effective steps, and has ended it iff it has taken them all |
| Termination.CanBeCompleted | src/runtime/execute.ts:94-255 | whatever has been scheduled so far, some continuation ends it |
| Locality.ImmediateAlike | src/runtime/execute.ts:272-402 | a command does the same in two scopes in which its paths resolve alike |
| Scoping.FramesSimulateBindings | src/runtime/evaluate.ts:41-65 | for every program whose loop bodies leave their item names alone, nested and same-name loops included, iteration frames behave as binding the item, running the body and restoring what was there |
| ParseChecks.DepthIsNesting | src/parser/parse.ts:92-111 | the walk accepts exactly the programs with at most three nested blocks, the top level counting as one |
| ParseChecks.AcceptedProgramsStackThreeFrames | src/parser/parse.ts:92-111 | no statement of an accepted program runs under more than three iteration frames |
| ParseChecks.AcceptedProgramsKeepReserved | src/parser/parse.ts:81-90 | an accepted program never stores a binding under the reserved name |
| ParseChecks.AcceptsExactly | src/parser/parse.ts:81-111 | the walks accept exactly the programs with at most three nested blocks and no assignment to `$_` at any depth |
| Sse.ExtractDataField | src/mcp/sse.ts:100-114 | the loop yields the joined `data:` lines of an event, or none |
| Sse.TakeEvents | src/mcp/sse.ts:38-82 | the inner loop takes exactly the complete events off the buffer and leaves the rest |
| Sse.ParseStream | src/mcp/sse.ts:38-82 | what is yielded for a sequence of chunks, the unterminated last event included (`Sse.UnterminatedIsYielded`) |
| Sse.EventsSplit | src/mcp/sse.ts:84-98 | splitting a longer text is splitting its beginning, then its rest with what follows |
| Sse.FedIsSplit | src/mcp/sse.ts:44-66 | after any chunks, what was yielded and what is buffered are those of splitting the whole text |
| Sse.ChunkingIsIrrelevant | src/mcp/sse.ts:38-114 | any chunking of a text yields the messages of parsing the whole text at once |
| Sse.FramesRoundTrip | src/mcp/sse.ts:38-114 | payloads without line breaks framed as `data: p` events come back complete and in order under every chunking, as in sections 9.2.5 and 9.2.6 of the WHATWG HTML Standard |
| Sse.UnterminatedIsYielded | src/mcp/sse.ts:67-78 | frames followed by a last event without its blank line, whatever white space stands around it: its payload is yielded too, in any chunks |
| Sse.LastMayBeUnterminated | src/mcp/sse.ts:38-82 | a stream of payloads comes back complete whether its last event ends with a blank line, a LF, a CR, a CRLF or nothing |
| Sse.BlankTailYieldsNothing | src/mcp/sse.ts:67-69 | white space at the end yields nothing |
| EventStream.LfAgreesIff | src/mcp/sse.ts:84-114 | for texts whose lines all end with LF, the payloads of the parser's complete events are those that sections 9.2.5 and 9.2.6 of the WHATWG HTML Standard dispatch iff no line in them is a bare `data` |
| EventStream.CrlfAgreesIff | src/mcp/sse.ts:84-114 | likewise for texts whose lines all end with CRLF |
| EventStream.StreamIsStandard | src/mcp/sse.ts:38-114 | for such texts, in any chunks, the messages yielded are those of the standard and that of an unterminated last event, if it has one |
| EventStream.MixedEndsDiffer | src/mcp/sse.ts:84-93 | a LF and a CRLF make a blank line for the standard and none for the parser |
| Redactor.BuildSecrets | src/credentials/redactor.ts:20-45 | the distinct values of the named variables that are long enough, longest first |
| Redactor.SplitReplace | src/credentials/redactor.ts:63-77 | the index loop replaces the non-overlapping occurrences from the left |
| Redactor.Redact | src/credentials/redactor.ts:47-60 | one replacing pass per secret, in list order |
| Redactor.NoSecretSurvives | src/credentials/redactor.ts:17-77 | for any text and any list of secrets none of which can overlap the replacement, no secret occurs anywhere in the output: no later pass re-creates an earlier one |
| Redactor.OrdinarySecretsNeverSurvive | src/credentials/redactor.ts:17-77 | it is enough that the collected secrets have no bracket and are not the word REDACTED; their minimum length of 8 is what makes this true |
| Redactor.TouchesIff | src/credentials/redactor.ts:17-77 | a secret overlaps a replacement in some surroundings iff it agrees with it at some placement |
| Redactor.SingleSecretLeaksIff | src/credentials/redactor.ts:47-77 | for every secret: some text still contains it after its own redaction iff some placement over the replacement agrees with it and, when it begins before the replacement, the scan finds no earlier occurrence |
| Redactor.BackTouchLeaks | src/credentials/redactor.ts:63-77 | a text that leaks a secret of the second kind |
| Redactor.OpeningBracketLeaks | src/credentials/redactor.ts:63-77 | every secret whose only opening bracket is its last character leaks |
| Redactor.TouchingMayBeSafe | src/credentials/redactor.ts:63-77 | eight opening brackets can overlap the replacement and never leak |
| Redactor.FrontTouchLeaks | src/credentials/redactor.ts:63-77 | for every secret that starts with an end of the replacement, or lies inside it, some text leaks it |
| Redactor.LaterSecretLeaks | src/credentials/redactor.ts:53-57 | eight opening brackets, which never leak alone, leak before any other secret without a bracket |
| Redactor.ClosingBracketLeaks | src/credentials/redactor.ts:63-77 | a concrete leak: the secret `]hunter2x` |
| Redactor.WholeSecretBecomesReplacement | src/credentials/redactor.ts:38-61 | a text that is exactly one secret becomes exactly the replacement, whatever the other secrets are |
| RedactorMeaning.FirstIsReplaced | src/credentials/redactor.ts:63-77 | the first occurrence becomes `[REDACTED]`, what is before it stays, and the rest is treated alike |
| RedactorMeaning.OnlySecretsAreTouched | src/credentials/redactor.ts:20-60 | a text without a secret is unchanged; secrets are the named values of eight characters or more |
| Persisters.StatePersister.MarkDirty | src/session/state.ts:164-188 | marking starts a write of the newest state or leaves one owed, as the specification says; nothing when persistence is off |
| Persisters.StatePersister.OnWriteSettled | src/session/state.ts:170-188 | a settled write is followed by the owed one with a fresh snapshot, or by rest |
| Persisters.StatePersister.MustWait | src/session/state.ts:349-351 | `flush` has something to wait for iff a write is running, and otherwise the last attempt holds every mark |
| Persisters.BoundedPersister.SchedulePersist | src/exec/pipeline-bounded.ts:128-164 | the second writer refines the same specification when marking |
| Persisters.BoundedPersister.OnWriteSettled | src/exec/pipeline-bounded.ts:128-164 | and when a write settles |
| Persisters.RunsRefine | src/session/state.ts:164-188 | every run of either writer, in which any number of writes could be started beside each other, is a run of the one-writer specification |
| Persisters.OneWriteAtATime | src/exec/pipeline-bounded.ts:128-164 | in every run of either writer at most one write is running, and one iff the flush promise or the pending record exists |
| Persisters.UnregisteredIsUpToDate | src/session/state.ts:170-188 | while neither exists nothing is running and the last attempt held every mark |
| Persisters.IdleIsUpToDate | src/session/state.ts:164-188 | whenever the writer is idle the last attempt held every mark, and the file does if that attempt went through |
| Persisters.FlushCoversEarlierMarks | src/session/state.ts:349-351 | a resolved `flush` covers every mark made before it was called |
| Persisters.MarksCoalesce | src/exec/pipeline-bounded.ts:128-164 | any number of marks during a write cost exactly one further write, of the newest state |
| Persisters.RestsAfterTwo | src/exec/pipeline-bounded.ts:128-164 | without further marks two settlings bring the writer to rest |
| Persisters.MarkMeans | src/session/state.ts:164-188 | a mark at rest starts a write that holds it, during a write it is owed and the write goes on |
| Persisters.SettlingMeans | src/session/state.ts:170-188 | a write that succeeds leaves its snapshot in the file, one that fails what was there; the owed write of all marks follows |
| Idempotency.IdempotencyTables.Arrive | src/http/routes/exec.ts:47-63 | the get, in-flight check and registration of one request as one step: hit, join or start |
| Idempotency.IdempotencyTables.End | src/http/routes/exec.ts:60-65 | releasing the in-flight entry and caching the response if there is one |
| Idempotency.IdempotencyTables.Put | src/session/state.ts:380-386 | a full cache gives up its oldest entry unless the key is already there |
| Idempotency.AtMostOnce | src/http/routes/exec.ts:47-63 | in every interleaving of non-streaming requests a key is executed again only if its last execution threw, its response expired or 128 later responses were cached |
| Idempotency.HitsAreLast | src/session/state.ts:371-400 | a hit is the unexpired response of the key's last execution; a join is with that execution |
| Idempotency.RepliesMean | src/http/routes/exec.ts:47-63 | in every run a key never executed or whose last execution threw is executed, one under way is joined, one answered in the last 300 000 ms with fewer than 128 responses cached since is served that answer, and an older one is executed |
| Idempotency.CacheIsBounded | src/session/state.ts:380-386 | the cache never holds more than 128 entries |
| Stdio.StdioClient.OnStdout | src/mcp/stdio-client.ts:157-187 | a chunk overflows the buffer or has its complete lines handled in order, the rest kept; a throw leaves the lines after it in the buffer |
| Stdio.StdioClient.HandleIncomingLine | src/mcp/stdio-client.ts:245-290 | only a reply whose id is pending takes a request off the table, and just that one; it is settled unless reading its error throws |
| Stdio.StdioClient.Rpc | src/mcp/stdio-client.ts:299-375 | an id is issued unless the child is gone or the limiter refuses; a failed write settles it at once (counted over runs: `StdioRuns.IdsCountRequests`) |
| StdioRuns.IdsCountRequests | src/mcp/stdio-client.ts:302-311 | in every run the ids taken are exactly as many as the requests with stdin writable, the limiter admitting and the child neither failed nor gone |
| StdioRuns.RefusedChangesNothing | src/mcp/stdio-client.ts:302-311 | any other request changes nothing |
| StdioRuns.SentIsPending | src/mcp/stdio-client.ts:311-374 | such a request takes the next id and is pending, or settled as unreachable when the write fails |
| StdioRuns.TimerSettles | src/mcp/stdio-client.ts:324-332 | its timer settles a pending request as timed out, and no other |
| StdioRuns.ReplyAnswers | src/mcp/stdio-client.ts:245-290 | a reply line of at most 1 MiB settles the pending request with its id and no other; other lines change no request |
| StdioRuns.BlankLineIsIgnored | src/mcp/stdio-client.ts:176 | a line of white space changes nothing |
| StdioRuns.LongLineFailsAll | src/mcp/stdio-client.ts:177-184 | a longer line fails every pending request and is not read |
| StdioRuns.UnfinishedLineWaits | src/mcp/stdio-client.ts:157-171 | output without a line end waits in the buffer up to 2 MiB, beyond which it is dropped and every pending request fails |
| StdioRuns.EndOfChild | src/mcp/stdio-client.ts:200-243 | a crash fails every pending request in order of issue, an orderly exit none |
| Stdio.StdioClient.RejectAll | src/mcp/stdio-client.ts:166-168 | every pending request is rejected, in order of issue |
| Stdio.StdioClient.OnExit | src/mcp/stdio-client.ts:223-243 | an orderly exit rejects nothing, any other rejects all |
| Stdio.AccountedOnce | src/mcp/stdio-client.ts:200-375 | in every run an id is pending, settled or lost, and that once, iff it has been issued |
| Stdio.SettlesOnceIff | src/mcp/stdio-client.ts:200-375 | in a run every id is pending or settled once when issued and never otherwise iff no line handled in it was an unreadable error reply to a request then pending |
| Stdio.NullErrorLosesRequest | src/mcp/stdio-client.ts:340-346 | one request and a reply to it that cannot be read: the request is lost |
| Stdio.LostForever | src/mcp/stdio-client.ts:287-288 | a lost request is never pending or settled again |
| Stdio.OutcomesAreFinal | src/mcp/stdio-client.ts:200-375 | outcomes never change, and after the child is gone no id is issued |
| Stdio.CrashSettlesAll | src/mcp/stdio-client.ts:200-243 | after a crash nothing is or becomes pending |
| Stdio.AnsweredByOwnLine | src/mcp/stdio-client.ts:275-290 | a request is answered only by a handled line with a numeric id equal to its own |
| Stdio.ChunksAreText | src/mcp/stdio-client.ts:157-187 | while the buffer stays within 2 MiB and no line but the last throws, a sequence of chunks leaves what the whole text would |
| Stdio.ChunkingIsIrrelevant | src/mcp/stdio-client.ts:157-187 | then two chunkings of a text leave the same buffer and table |
| Stdio.ChunkingIsIrrelevantIff | src/mcp/stdio-client.ts:157-187 | a text that fits has the same effect however it is cut iff no line of it but the last throws |
| Stdio.DelayedNotLost | src/mcp/stdio-client.ts:172-186 | the lines that a throw leaves in the buffer and those done make up all of them, with the effect of all of them |
| Stdio.HandledLines | src/mcp/stdio-client.ts:173-186 | then the lines handled are the non-blank lines of the text up to 1 MiB |
| Stdio.ShortLinesNeverOverflow | src/mcp/stdio-client.ts:157-171 | lines and chunks of at most 1 MiB never overflow the buffer |
| Stdio.LargeChunkLosesItsLines | src/mcp/stdio-client.ts:159-171 | a chunk that overflows it has no line handled and rejects every pending request for good |
| SlidingLimiter.RateLimiter.Acquire | src/mcp/rate-limit.ts:46-63 | stale entries are dropped, then the call is recorded, or refused with the time to wait |
| SlidingLimiter.DecidesByFullHistory | src/mcp/rate-limit.ts:43-64 | the evicting queue decides as counting the full history does: refused iff rpm admitted calls lie in the last 60 000 ms |
| SlidingLimiter.WindowBound | src/mcp/rate-limit.ts:43-64 | no closed interval of 60 000 ms contains more than rpm admitted calls |
| SlidingLimiter.ZeroAdmitsAll | src/mcp/rate-limit.ts:36-42 | a limit of zero admits every call |
| SlidingLimiter.SixtySeconds | src/mcp/rate-limit.ts:43-64 | the decision and the bound for 60 000 ms |
| SlidingLimiter.RepeatedCall | src/mcp/rate-limit.ts:46-63 | after a refusal the next call is admitted iff more than 60 000 ms have passed since the oldest admitted call in the window |
| FixedLimiter.Limiter.OnRequest | src/http/server.ts:260-281 | a missing or old window starts afresh and admits, a running one counts first |
| FixedLimiter.Limiter.OnTimer | src/http/server.ts:253-258 | the sweep deletes exactly the windows begun 70 s ago or earlier |
| FixedLimiter.TimerNeverDecides | src/http/server.ts:253-281 | running the sweep at any moments changes no decision |
| FixedLimiter.IntervalBound | src/http/server.ts:248-282 | at most 2·max(1, n) − 1 requests of a key are admitted in any half-open minute |
| FixedLimiter.BoundIsReached | src/http/server.ts:248-282 | for every limit, zero included, and every key and time some run reaches that bound |
| FixedLimiter.RequestMeans | src/http/server.ts:263-278 | a request without a window of the last 60 000 ms is admitted and starts one, another is counted and admitted iff within the limit |
| FixedLimiter.SweepMeans | src/http/server.ts:253-258 | the sweep leaves exactly the windows younger than 70 000 ms as they are |
| FixedLimiter.KeysAreApart | src/http/server.ts:248-282 | in every run a request is decided as if no other key had been seen |
| FixedLimiter.MinuteBound | src/http/server.ts:248-282 | the bound for 60 000 ms |
| Debounce.CatalogDispatcher.ScheduleDebounced | src/mcp/catalog-dispatcher.ts:82-93 | the kind's old timer is cleared and a new one runs in 500 ms |
| Debounce.CatalogDispatcher.Dispatch | src/mcp/catalog-dispatcher.ts:96-136 | what is claimed, what is debounced, and which resource updates are passed on at once |
| Debounce.CatalogDispatcher.Stop | src/mcp/catalog-dispatcher.ts:143-148 | every timer the dispatcher knows is cleared |
| Debounce.NotificationsMean | src/mcp/catalog-dispatcher.ts:96-136 | until shutdown each list notification is heard as its kind, an update of a subscribed resource is passed on at once, and only these four are claimed |
| Debounce.NothingClaimedAfterShutdown | src/mcp/catalog-dispatcher.ts:97 | after shutdown none is |
| Debounce.EmitsAfterHalfSecond | src/mcp/catalog-dispatcher.ts:82-93 | a heard notification is not emitted in the 500 ms after it, and is by its timer from then on |
| Debounce.OneTimerPerKind | src/mcp/catalog-dispatcher.ts:82-93 | at most one timer of a kind is alive |
| Debounce.UnansweredHasTimer | src/mcp/catalog-dispatcher.ts:66-149 | until shutdown a kind has a live timer iff its latest notification has no emission after it, and that timer emits |
| Debounce.EmissionsAreSpaced | src/mcp/catalog-dispatcher.ts:66-149 | every emission answers a notification, and no notification or emission of its kind lies in the 500 ms before it |
| Debounce.SilentAfterShutdown | src/mcp/catalog-dispatcher.ts:66-149 | after shutdown no timer lives and nothing is emitted |
| BindingTtl.BoundedSession.Lookup | src/runtime/session.ts:113-122 | an expired binding is not found, and deleted |
| BindingTtl.BoundedSession.SweepExpired | src/runtime/session.ts:142-149 | exactly the expired bindings go |
| BindingTtl.BoundedSession.RecordTurn | src/runtime/session.ts:151-159 | the counter advances by one and the entry is appended with it |
| BindingTtl.LookupTracksIff | src/runtime/session.ts:113-149 | whatever the clock does, a lookup misses what was bound last and has not expired iff an earlier lookup or sweep ran at or after its deadline |
| BindingTtl.RemovalIsInvisible | src/runtime/session.ts:113-149 | while the clock never goes back every lookup answers with what was bound last unless that has expired |
| BindingTtl.SweepLeavesTheLive | src/runtime/session.ts:142-149 | after a sweep the table holds exactly the live latest bindings |
| BindingTtl.ClockMustNotGoBack | src/runtime/session.ts:113-149 | with a clock that goes back a sweep can be seen |
| Base64.RoundTrip64 | src/runtime/persist.ts:73 | decoding an encoding gives the bytes back (section 4 of RFC 4648) |
| Base64.ThreeBytes | src/runtime/persist.ts:73 | three bytes are one number of 24 bits in four digits of base 64 |
| Base64.LastBytes | src/runtime/persist.ts:73 | two bytes at the end are three digits and one padding character, one byte two and two |
| Base64.AlphabetIs | src/runtime/persist.ts:73 | the alphabet of section 4 of RFC 4648 |
| Base64.LenientDecoding | src/runtime/persist.ts:86 | the decoder reads the URL-safe letters as well, and skips what is in neither alphabet |
| Codec.RoundTripIff | src/runtime/persist.ts:71-93 | decoding an encoded value gives it back iff no record in it has a string at `__buffer__` |
| Codec.AmbiguousRecordDecays | src/runtime/persist.ts:85-87 | such a record comes back as bytes |
| Codec.EncodeInjective | src/runtime/persist.ts:71-79 | different unambiguous values have different encodings |
| Codec.EncodingIs | src/runtime/persist.ts:71-79 | scalars as they are, bytes as a record of one field with their Base 64 text, lists and records element by element |
| Codec.BlobHolds | src/runtime/persist.ts:95-160 | the file holds schema 1 and every part of the session under its own name |
| Codec.Serialize | src/runtime/persist.ts:113-126 | the loop writes every binding, `$_`, the transcript without statements and the counter |
| Codec.Deserialize | src/runtime/persist.ts:128-149 | refused iff the schema differs; otherwise a new session with the decoded contents |
| Codec.SessionRoundTripIff | src/runtime/persist.ts:113-172 | a session is restored, but for its parsed statements, iff all its values are unambiguous |
| Codec.ReencodesIff | src/runtime/persist.ts:71-93 | encoding, decoding and encoding gives the first encoding iff every record with a string at `__buffer__` has only that key and holds the text that its bytes encode to |
| Codec.SerializeAgainIff | src/runtime/persist.ts:113-172 | serialising the restored session gives the same blob iff that holds of all its values |
| Codec.SerializeAgain | src/runtime/persist.ts:113-172 | in particular when all its values are unambiguous |
| Codec.PaddingAppears | src/runtime/persist.ts:85-87 | a record that comes back with another blob |
| Transcript.TranscriptLog.AppendTranscript | src/session/state.ts:307-331 | an append that no other overlaps: rotation before a line that would pass the soft cap, refusal above the cap, else appended and counted |
| Transcript.TranscriptLog.ReadFullTranscript | src/session/state.ts:332-342 | the rotated segments by increasing stamp, then the current one |
| Transcript.ReadsWhatWasAccepted | src/session/state.ts:190-226 | for appends one at a time: if every rotation has a later stamp than the one before, reading yields all accepted lines in order |
| Transcript.NothingLostIffStampsDistinct | src/session/state.ts:190-196 | for appends one at a time: no accepted line is lost iff no two rotations carry the same stamp |
| Transcript.AcceptedAreWithinCap | src/session/state.ts:307-331 | the accepted lines are exactly those within the cap, and the counter is their number |
| Transcript.SegmentsAreBounded | src/session/state.ts:307-331 | for appends one at a time: every segment stays within the cap, and within the soft cap as soon as it has two lines |
| Transcript.AppendMeans | src/session/state.ts:315-331 | for appends one at a time: a line joins the current segment iff that is empty or both fit the soft cap, otherwise the segment is closed under the stamp and the line starts the next |
| Overlap.OverlapLosesNothing | src/session/state.ts:190-226 | however appends overlap at their two awaits: if each rename that takes effect has a later stamp than the one before, reading yields every line once, in the order in which they were written |
| Overlap.OverlapBreaksBounds | src/session/state.ts:318-328 | for all caps two overlapping appends can put twice the hard cap into one segment |
| Overlap.AloneIsAppended | src/session/state.ts:307-331 | an append that no other overlaps is the single step of `Transcript` |
| Overlap.SerialIsAtomic | src/session/state.ts:307-331 | so what is proved of runs of `Transcript` holds of all systems in which no two appends overlap |
| Overlap.SerialKeepsBounds | src/session/state.ts:307-331 | in particular the bounds of the segments |
| Transcript.RefusalRotates | src/session/state.ts:318-326 | an oversized line is refused after rotating a non-empty segment: all lines are still read in order, and the next accepted line starts a segment of its own |

## Left out

- Redactor.NoSecretSurvives: for several secrets the condition that none can overlap the replacement is sufficient and not shown necessary; the exact condition is given for a single secret, and `Redactor.LaterSecretLeaks` shows that it is not enough that each is safe alone.
- Idempotency.AtMostOnce: speaks of non-streaming requests; a streaming request never looks at the tables, so one with the same key executes again.
- SessionObject.Session.ExecuteLoop: runs the iterations in turn; the pool of `src/runtime/execute.ts:206-208` is a small-step system on values in `Interleaving`, tied to this one by schedule independence.
- FixedLimiter.IntervalBound: stated for max(1, n) per minute because a limit of zero still admits the first request of a window.
- Schedules.ScheduleIndependence: speaks of race-free statements and of schedules that reach the end; that each can be brought there is `Termination.CanBeCompleted`.
- Stdio.ChunkingIsIrrelevant: compares uninterrupted sequences of chunks that begin with no complete line in the buffer; other events between them act on the table only.
- Stdio.ChunksAreText: asks that no line but the last throws, because a throw delays what follows it (`Stdio.ChunkingIsIrrelevantIff`, `Stdio.DelayedNotLost`).
- Stdio.HandledLines: asks the same.
- Transcript.SegmentsAreBounded: speaks of appends taken one at a time, as do the other theorems of `Transcript`; what overlapping appends keep and break is in `Overlap`.
- Verbs.ApplyOp: leaves out `rename`, whose result depends on property order, and records here are finite maps.
- One session is seen through two classes: `SessionObject.Session` runs programs under a standing clock, `BindingTtl.BoundedSession` expires bindings and is persisted.
- The clock inside one program stands still (`World.now`); expiry over a moving clock is in `BindingTtl`. So a binding that expires in the middle of a program is not modelled.
- External calls, admission checks, `describe`, `history` and `help` are functions of their arguments; a reply that depends on anything else is not modelled.
- Of the properties that lists and buffers inherit only the numbers `length`, `byteLength` and `BYTES_PER_ELEMENT`: a buffer's offset depends on the allocator, and its `parent` and `buffer` are objects.
- Property order, other prototype keys, integer-like keys, NaN and negative zero of JavaScript objects and numbers; numbers are reals.
- Text is a sequence of characters: UTF-16 code units, UTF-8 decoding of stream chunks, and the bytes a decoder holds back at the end of a stream are not modelled. Ordering of text is by character.
- The text of error messages, `JSON.parse`, `JSON.stringify`, number formatting and regular expressions are parameters.
- A Base 64 text edited by hand after its padding: the decoder here skips every character outside the alphabets.
- The transcript and response previews that `executeProgram` builds around each statement, and durations.
- The grammar itself, the size of literals, and line and column positions.
- The files behind the persisters and the transcript: a write succeeds or fails as a whole, and a restart in the middle is not modelled.
- The streaming handler of the exec route.
- Request parameters of the stdio connection that cannot be turned into JSON.
- Delivery of progress notifications to in-flight listeners of the stdio connection, its handshake, and `close`.
- Which listeners are registered with the dispatcher when it emits.
- Routing, authentication, metrics, logging, policy parsing, process spawning, `fetch`, the MCP HTTP client and the catalogue mirror.
