/** What blocks do, said of their statements one by one: which error ends a `foreach`, what it leaves behind, and
    what its records say (src/runtime/execute.ts). */
module LoopMeaning {
  import opened Values
  import opened Ast
  import opened Evaluate
  import opened Runtime
  import opened Chains
  import opened Schedules
  import opened Interleaving
  import SessionObject
  import P = WorkerPool

  // ----- the iterations as the source runs them -----

  /** The session before iteration k when every earlier iteration has run. */
  ghost function Before(st: Stmt, items: seq<Value>, k: nat, frames: seq<Frame>, s: Store, w: World): Store
    requires st.Foreach? && k <= |items|
    decreases k, 0
  {
    if k == 0 then s else Apply(Before(st, items, k - 1, frames, s, w), Iteration(st, items, k - 1, frames, s, w).delta)
  }

  /** Iteration k, in the session the earlier ones left, under a frame with its item. */
  ghost function Iteration(st: Stmt, items: seq<Value>, k: nat, frames: seq<Frame>, s: Store, w: World): Effect<BodyOut>
    requires st.Foreach? && k < |items|
    decreases k, 1
  {
    ExecBody(st.body, "?", None, frames + [Frame(st.itemVar, items[k])], Before(st, items, k, frames, s, w), w)
  }

  ghost function FirstIterations(st: Stmt, items: seq<Value>, k: nat, frames: seq<Frame>, s: Store, w: World): (effs: seq<Effect<BodyOut>>)
    requires st.Foreach? && k <= |items|
    ensures |effs| == k && forall j :: 0 <= j < k ==> effs[j] == Iteration(st, items, j, frames, s, w)
  {
    if k == 0 then [] else FirstIterations(st, items, k - 1, frames, s, w) + [Iteration(st, items, k - 1, frames, s, w)]
  }

  lemma {:induction false} FirstLeave(st: Stmt, items: seq<Value>, k: nat, frames: seq<Frame>, s: Store, w: World)
    requires st.Foreach? && k <= |items|
    ensures Apply(s, SumDelta(FirstIterations(st, items, k, frames, s, w))) == Before(st, items, k, frames, s, w)
  {
    if k == 0 {
      ApplyNothing(s);
    } else {
      var done, e := FirstIterations(st, items, k - 1, frames, s, w), Iteration(st, items, k - 1, frames, s, w);
      FirstLeave(st, items, k - 1, frames, s, w);
      SessionObject.SumDeltaAppend(done, e);
      ApplyAssociative(s, SumDelta(done), e.delta);
    }
  }

  lemma OneFurther(st: Stmt, items: seq<Value>, k: nat, frames: seq<Frame>, s: Store, w: World)
    requires st.Foreach? && k < |items|
    ensures Before(st, items, k + 1, frames, s, w) == Apply(Before(st, items, k, frames, s, w), Iteration(st, items, k, frames, s, w).delta)
    ensures FirstIterations(st, items, k + 1, frames, s, w) ==
            FirstIterations(st, items, k, frames, s, w) + [Iteration(st, items, k, frames, s, w)]
  {
  }

  lemma Regroup<T>(a: seq<T>, x: T, b: seq<T>)
    ensures a + ([x] + b) == a + [x] + b
  {
  }

  /** What the loop does from iteration k on, which does not fail. */
  lemma GoesOn(st: Stmt, items: seq<Value>, k: nat, frames: seq<Frame>, s: Store, w: World)
    requires st.Foreach? && k < |items| && !Fails(st.onError, Iteration(st, items, k, frames, s, w).out)
    ensures var loop := SessionObject.LoopOf(st, items);
            ExecIterations(st, loop, k, frames, Before(st, items, k, frames, s, w), w) ==
            [Iteration(st, items, k, frames, s, w)] + ExecIterations(st, loop, k + 1, frames, Before(st, items, k + 1, frames, s, w), w)
  {
    IterationsUnfold(st, SessionObject.LoopOf(st, items), k, frames, Before(st, items, k, frames, s, w), w);
    OneFurther(st, items, k, frames, s, w);
  }

  /** While none fails, the loop reaches iteration k in that session. */
  lemma {:induction false} Reaches(st: Stmt, items: seq<Value>, k: nat, frames: seq<Frame>, s: Store, w: World)
    requires st.Foreach? && k <= |items|
    requires forall j :: 0 <= j < k ==> !Fails(st.onError, Iteration(st, items, j, frames, s, w).out)
    ensures ExecIterations(st, SessionObject.LoopOf(st, items), 0, frames, s, w) ==
            FirstIterations(st, items, k, frames, s, w)
            + ExecIterations(st, SessionObject.LoopOf(st, items), k, frames, Before(st, items, k, frames, s, w), w)
  {
    if k > 0 {
      var i := k - 1;
      Reaches(st, items, i, frames, s, w);
      GoesOn(st, items, i, frames, s, w);
      OneFurther(st, items, i, frames, s, w);
      Regroup(FirstIterations(st, items, i, frames, s, w), Iteration(st, items, i, frames, s, w),
              ExecIterations(st, SessionObject.LoopOf(st, items), k, frames, Before(st, items, k, frames, s, w), w));
    }
  }

  // ----- abort and continue -----

  ghost predicate ListIs(st: Stmt, items: seq<Value>, frames: seq<Frame>, s: Store, w: World)
    requires st.Foreach?
  {
    Eval(st.list, Scoped(frames, s, w)) == Ok(List(items))
  }

  ghost predicate NoErrorBefore(st: Stmt, items: seq<Value>, k: nat, frames: seq<Frame>, s: Store, w: World)
    requires st.Foreach? && k <= |items|
  {
    forall j :: 0 <= j < k ==> Iteration(st, items, j, frames, s, w).out.err.None?
  }

  /** Under `abort` the first iteration that ends with an error ends the block with it, and nothing runs after it:
      what is left is what that iteration left, `$_` included. */
  lemma AbortEndsAtFirstError(st: Stmt, items: seq<Value>, k: nat, code: ErrorCode, frames: seq<Frame>, s: Store, w: World)
    requires st.Foreach? && ListIs(st, items, frames, s, w) && st.onError == Abort
    requires k < |items| && NoErrorBefore(st, items, k, frames, s, w)
    requires Iteration(st, items, k, frames, s, w).out.err == Some(code)
    ensures Exec(st, frames, s, w).out == Failed(code)
    ensures Apply(s, Exec(st, frames, s, w).delta) == Before(st, items, k + 1, frames, s, w)
  {
    Reaches(st, items, k, frames, s, w);
    IterationsUnfold(st, SessionObject.LoopOf(st, items), k, frames, Before(st, items, k, frames, s, w), w);
    FirstLeave(st, items, k + 1, frames, s, w);
    SessionObject.ForeachCases(st, frames, s, w);
    assert ExecIterations(st, SessionObject.LoopOf(st, items), 0, frames, s, w) == FirstIterations(st, items, k + 1, frames, s, w);
  }

  /** One record for each iteration: its index, the verb and binding of its last success, and its error if it has one. */
  ghost predicate RecordOf(record: Value, i: nat, out: BodyOut) {
    && record.Rec?
    && record.fields.Keys == {"iteration", "last_verb", "last_binding"} + (if out.err.Some? then {"error_code"} else {})
    && record.fields["iteration"] == Num(i as real)
    && record.fields["last_verb"] == Str(out.verb)
    && record.fields["last_binding"] == (if out.binding.Some? then Str(out.binding.value) else Null)
    && (out.err.Some? ==> record.fields["error_code"] == Str(CodeText(out.err.value)))
  }

  /** Codes are spelled as they are named. */
  lemma CodesAreSpelled()
    ensures CodeText(PARSE_ERROR) == "PARSE_ERROR" && CodeText(CAPABILITY_DENIED) == "CAPABILITY_DENIED"
    ensures CodeText(INTERPOLATION_REJECTED) == "INTERPOLATION_REJECTED" && CodeText(SCOPE_MISS) == "SCOPE_MISS"
    ensures CodeText(TIMEOUT) == "TIMEOUT" && CodeText(SIZE_LIMIT) == "SIZE_LIMIT" && CodeText(UPSTREAM_ERROR) == "UPSTREAM_ERROR"
    ensures CodeText(CONFLICT) == "CONFLICT" && CodeText(INTERNAL) == "INTERNAL"
  {
  }

  lemma RecordsSay(i: nat, out: BodyOut)
    ensures RecordOf(IterationRecord(i, out), i, out)
  {
  }

  /** The block answers with a list of one record for each item, in the order of the items. */
  ghost predicate AnswersRecords(st: Stmt, items: seq<Value>, records: seq<Value>, frames: seq<Frame>, s: Store, w: World)
    requires st.Foreach?
  {
    && |records| == |items|
    && (forall i :: 0 <= i < |items| ==> RecordOf(records[i], i, Iteration(st, items, i, frames, s, w).out))
    && Exec(st, frames, s, w).out == Responded("foreach", Some(List(records)), None)
    && Apply(s, Exec(st, frames, s, w).delta).names == Before(st, items, |items|, frames, s, w).names
    && Apply(s, Exec(st, frames, s, w).delta).last == Some(Binding(List(records), w.now, None))
  }

  lemma RecordsAreFirst(st: Stmt, items: seq<Value>, frames: seq<Frame>, s: Store, w: World)
    requires st.Foreach?
    ensures var records := Records(FirstIterations(st, items, |items|, frames, s, w));
            forall i :: 0 <= i < |items| ==> RecordOf(records[i], i, Iteration(st, items, i, frames, s, w).out)
  {
    forall i | 0 <= i < |items|
      ensures RecordOf(Records(FirstIterations(st, items, |items|, frames, s, w))[i], i, Iteration(st, items, i, frames, s, w).out)
    {
      RecordsSay(i, Iteration(st, items, i, frames, s, w).out);
    }
  }

  /** The end of a loop whose iterations were `effs`, none of them a failure. */
  lemma LoopAnswers(loop: Loop, effs: seq<Effect<BodyOut>>, frames: seq<Frame>, s: Store, w: World)
    requires effs != [] ==> !Fails(loop.onError, effs[|effs| - 1].out)
    ensures var e := LoopEffect(loop, effs, frames, w);
            && e.out == Responded("foreach", Some(List(Records(effs))), None)
            && Apply(s, e.delta) == Apply(Apply(s, SumDelta(effs)), UpdateLast(List(Records(effs)), w))
  {
    ApplyAssociative(s, SumDelta(effs), UpdateLast(List(Records(effs)), w));
  }

  /** A new last result over a store. */
  lemma LastOver(s: Store, v: Value, w: World)
    ensures Apply(s, UpdateLast(v, w)) == Store(s.names, Some(Binding(v, w.now, None)))
  {
    assert s.names + map[] == s.names;
  }

  lemma NoneFails(st: Stmt, items: seq<Value>, frames: seq<Frame>, s: Store, w: World) returns (records: seq<Value>)
    requires st.Foreach? && ListIs(st, items, frames, s, w)
    requires forall j :: 0 <= j < |items| ==> !Fails(st.onError, Iteration(st, items, j, frames, s, w).out)
    ensures AnswersRecords(st, items, records, frames, s, w)
  {
    records := Records(FirstIterations(st, items, |items|, frames, s, w));
    RecordsAreFirst(st, items, frames, s, w);
    NoneFailsAnswer(st, items, frames, s, w);
    LastOver(Before(st, items, |items|, frames, s, w), List(records), w);
  }

  lemma NoneFailsAnswer(st: Stmt, items: seq<Value>, frames: seq<Frame>, s: Store, w: World)
    requires st.Foreach? && ListIs(st, items, frames, s, w)
    requires forall j :: 0 <= j < |items| ==> !Fails(st.onError, Iteration(st, items, j, frames, s, w).out)
    ensures var value := List(Records(FirstIterations(st, items, |items|, frames, s, w)));
            && Exec(st, frames, s, w).out == Responded("foreach", Some(value), None)
            && Apply(s, Exec(st, frames, s, w).delta) == Apply(Before(st, items, |items|, frames, s, w), UpdateLast(value, w))
  {
    var effs := FirstIterations(st, items, |items|, frames, s, w);
    Reaches(st, items, |items|, frames, s, w);
    assert ExecIterations(st, SessionObject.LoopOf(st, items), 0, frames, s, w) == effs;
    LoopAnswers(SessionObject.LoopOf(st, items), effs, frames, s, w);
    FirstLeave(st, items, |items|, frames, s, w);
    SessionObject.ForeachCases(st, frames, s, w);
  }

  /** Under `continue` every item gets its record, those whose body failed with the code of the error. */
  lemma ContinueRecordsEach(st: Stmt, items: seq<Value>, frames: seq<Frame>, s: Store, w: World) returns (records: seq<Value>)
    requires st.Foreach? && ListIs(st, items, frames, s, w) && st.onError == Continue
    ensures AnswersRecords(st, items, records, frames, s, w)
    ensures forall i :: 0 <= i < |items| ==>
              ("error_code" in records[i].fields <==> Iteration(st, items, i, frames, s, w).out.err.Some?)
  {
    records := NoneFails(st, items, frames, s, w);
  }

  /** Under `abort` it answers so when no body fails, and then no record has an error. */
  lemma AbortRecordsEach(st: Stmt, items: seq<Value>, frames: seq<Frame>, s: Store, w: World) returns (records: seq<Value>)
    requires st.Foreach? && ListIs(st, items, frames, s, w) && st.onError == Abort
    requires NoErrorBefore(st, items, |items|, frames, s, w)
    ensures AnswersRecords(st, items, records, frames, s, w)
    ensures forall i :: 0 <= i < |items| ==> "error_code" !in records[i].fields
  {
    records := NoneFails(st, items, frames, s, w);
  }

  /** A list that cannot be evaluated, or is none, fails the block before anything changes. */
  lemma NoListNoLoop(st: Stmt, frames: seq<Frame>, s: Store, w: World)
    requires st.Foreach?
    ensures var r := Eval(st.list, Scoped(frames, s, w));
            (r.Err? || !r.value.List?) ==>
              && Exec(st, frames, s, w).out == Failed(if r.Err? then r.code else PARSE_ERROR)
              && Apply(s, Exec(st, frames, s, w).delta) == s
  {
    SessionObject.ForeachCases(st, frames, s, w);
  }

  /** A block has a pool of the smaller of `--parallel` and its number of items, and no pool when that is below two. */
  lemma PoolIsBounded(st: Stmt, items: seq<Value>, s: Store, w: World)
    requires st.Foreach? && ListIs(st, items, [], s, w)
    ensures var t := BeginStmt(st, [], s, w).next;
            && t.Looping?
            && (t.ctl.Fan? <==> st.parallel.Some? && st.parallel.value >= 2 && |items| >= 2)
            && (t.ctl.Fan? ==>
                  && |t.ctl.pool.workers| <= st.parallel.value && |t.ctl.pool.workers| <= |items|
                  && (|t.ctl.pool.workers| == st.parallel.value || |t.ctl.pool.workers| == |items|))
  {
  }

  // ----- how many frames are stacked -----

  lemma {:induction false} PeakIsHigh(effs: seq<Effect<BodyOut>>, least: nat, j: nat)
    requires j < |effs|
    ensures SumPeak(effs, least) >= effs[j].peak
  {
    if j > 0 { PeakIsHigh(effs[1..], least, j - 1); }
  }

  lemma {:induction false} PeakIsAtLeast(stmts: seq<Stmt>, verb: string, binding: Option<string>, frames: seq<Frame>, s: Store, w: World)
    ensures ExecBody(stmts, verb, binding, frames, s, w).peak >= |frames|
  {
    if stmts != [] {
      var e := Exec(stmts[0], frames, s, w);
      match e.out
      case Failed(_) =>
      case Responded(_, _, b) => PeakIsAtLeast(stmts[1..], VerbName(stmts[0]), b, frames, Apply(s, e.delta), w);
    }
  }

  /** Every iteration that runs stacks a frame, and what it stacks above that counts. */
  lemma IterationsStack(st: Stmt, items: seq<Value>, k: nat, frames: seq<Frame>, s: Store, w: World)
    requires st.Foreach? && ListIs(st, items, frames, s, w) && k < |items| && NoErrorBefore(st, items, k, frames, s, w)
    ensures Exec(st, frames, s, w).peak >= Iteration(st, items, k, frames, s, w).peak > |frames|
  {
    var effs := ExecIterations(st, SessionObject.LoopOf(st, items), 0, frames, s, w);
    Reaches(st, items, k, frames, s, w);
    IterationsUnfold(st, SessionObject.LoopOf(st, items), k, frames, Before(st, items, k, frames, s, w), w);
    assert effs[k] == Iteration(st, items, k, frames, s, w);
    PeakIsHigh(effs, |frames|, k);
    PeakIsAtLeast(st.body, "?", None, frames + [Frame(st.itemVar, items[k])], Before(st, items, k, frames, s, w), w);
  }

  // ----- under every schedule -----

  /** A race-free block under `continue`, however its workers are scheduled. */
  lemma ScheduledContinue(st: Stmt, items: seq<Value>, s: Store, w: World, schedule: seq<seq<nat>>) returns (records: seq<Value>)
    requires st.Foreach? && ListIs(st, items, [], s, w) && st.onError == Continue
    requires Exec(st, [], s, w).raceFree && RunSchedule(st, s, w, schedule).task.Ended?
    ensures RunSchedule(st, s, w, schedule).task.out == Responded("foreach", Some(List(records)), None)
    ensures |records| == |items|
    ensures forall i :: 0 <= i < |items| ==> RecordOf(records[i], i, Iteration(st, items, i, [], s, w).out)
    ensures RunSchedule(st, s, w, schedule).store.names == Before(st, items, |items|, [], s, w).names
    ensures RunSchedule(st, s, w, schedule).store.last == Some(Binding(List(records), w.now, None))
  {
    ScheduleIndependence(st, s, w, schedule);
    records := ContinueRecordsEach(st, items, [], s, w);
  }

  /** And under `abort` with an error. */
  lemma ScheduledAbort(st: Stmt, items: seq<Value>, k: nat, code: ErrorCode, s: Store, w: World, schedule: seq<seq<nat>>)
    requires st.Foreach? && ListIs(st, items, [], s, w) && st.onError == Abort
    requires k < |items| && NoErrorBefore(st, items, k, [], s, w) && Iteration(st, items, k, [], s, w).out.err == Some(code)
    requires Exec(st, [], s, w).raceFree && RunSchedule(st, s, w, schedule).task.Ended?
    ensures RunSchedule(st, s, w, schedule).task.out == Failed(code)
    ensures RunSchedule(st, s, w, schedule).store == Before(st, items, k + 1, [], s, w)
  {
    ScheduleIndependence(st, s, w, schedule);
    AbortEndsAtFirstError(st, items, k, code, [], s, w);
  }

  /** A record of iteration i; under `abort` none with an error. */
  ghost predicate RecordFits(record: Value, i: nat, onError: OnError) {
    && record.Rec?
    && {"iteration", "last_verb", "last_binding"} <= record.fields.Keys <= {"iteration", "last_verb", "last_binding", "error_code"}
    && record.fields["iteration"] == Num(i as real)
    && (onError.Abort? ==> "error_code" !in record.fields)
  }

  /** How a loop over n items may end: with a fitting record for each, or, only under `abort`, with an error. */
  ghost predicate EndsFor(onError: OnError, n: nat, out: Outcome) {
    match out
    case Failed(_) => onError.Abort?
    case Responded(verb, value, binding) =>
      && verb == "foreach" && binding.None? && value.Some? && value.value.List? && |value.value.items| == n
      && forall i :: 0 <= i < n ==> RecordFits(value.value.items[i], i, onError)
  }

  /** What every reachable state of the loop keeps, races or not. */
  ghost predicate OnTrack(t: Task, onError: OnError, n: nat) {
    match t
    case Looping(loop, bodies, At(k)) =>
      && loop.onError == onError && |bodies| == n && k <= n
      && forall i :: 0 <= i < k ==> bodies[i].Over? && (onError.Abort? ==> bodies[i].out.err.None?)
    case Looping(loop, bodies, Fan(pool)) =>
      && loop.onError == onError && |bodies| == n && pool.total == n && P.Inv(pool)
      && (pool.firstError.Some? ==> onError.Abort?)
      && forall i :: 0 <= i < n && pool.results[i].Some? ==> RecordFits(pool.results[i].value, i, onError)
    case Ended(out) => EndsFor(onError, n, out)
    case _ => false
  }

  lemma RecordsFit(i: nat, out: BodyOut, onError: OnError)
    requires onError.Abort? ==> out.err.None?
    ensures RecordFits(IterationRecord(i, out), i, onError)
  {
  }

  lemma PlainStepStays(t: Task, n: nat, frames: seq<Frame>, s: Store, w: World, choice: seq<nat>)
    requires Shaped(t) && t.Looping? && t.ctl.At? && OnTrack(t, t.loop.onError, n)
    ensures OnTrack(StepTask(t, frames, s, w, choice).next, t.loop.onError, n)
  {
    if t.ctl.k >= |t.bodies| {
      forall i | 0 <= i < n
        ensures RecordFits(RecordAt(t.bodies, i), i, t.loop.onError)
      {
        RecordsFit(i, t.bodies[i].out, t.loop.onError);
      }
    }
  }

  lemma FanSettlesFit(loop: Loop, pool: P.Pool<Value, ErrorCode>, wk: nat, out: BodyOut, n: nat)
    requires P.Inv(pool) && pool.total == n && wk < |pool.workers| && pool.workers[wk].Busy?
    requires pool.firstError.Some? ==> loop.onError.Abort?
    requires forall i :: 0 <= i < n && pool.results[i].Some? ==> RecordFits(pool.results[i].value, i, loop.onError)
    ensures var q := P.Settle(pool, wk, HowSettled(loop, pool.workers[wk].index, out));
            && P.Inv(q) && q.total == n && (q.firstError.Some? ==> loop.onError.Abort?)
            && forall i :: 0 <= i < n && q.results[i].Some? ==> RecordFits(q.results[i].value, i, loop.onError)
  {
    P.SettleKeepsInv(pool, wk, HowSettled(loop, pool.workers[wk].index, out));
    if !Fails(loop.onError, out) { RecordsFit(pool.workers[wk].index, out, loop.onError); }
  }

  lemma FanStepStays(t: Task, n: nat, frames: seq<Frame>, s: Store, w: World, choice: seq<nat>)
    requires Shaped(t) && t.Looping? && t.ctl.Fan? && OnTrack(t, t.loop.onError, n)
    ensures OnTrack(StepTask(t, frames, s, w, choice).next, t.loop.onError, n)
  {
    var pool := t.ctl.pool;
    if P.AllGone(pool) {
      if pool.firstError.None? { P.NormalCompletion(pool); }
    } else if choice != [] && choice[0] < |pool.workers| {
      if pool.workers[choice[0]].Top? {
        P.PullKeepsInv(pool, choice[0]);
      } else if pool.workers[choice[0]].Busy? && t.bodies[pool.workers[choice[0]].index].Over? {
        FanSettlesFit(t.loop, pool, choice[0], t.bodies[pool.workers[choice[0]].index].out, n);
      }
    }
  }

  lemma BeginsOnTrack(st: Stmt, items: seq<Value>, s: Store, w: World)
    requires st.Foreach? && ListIs(st, items, [], s, w)
    ensures OnTrack(BeginStmt(st, [], s, w).next, st.onError, |items|)
  {
  }

  lemma {:induction false} StaysOnTrack(st: Stmt, items: seq<Value>, s: Store, w: World, schedule: seq<seq<nat>>)
    requires st.Foreach? && ListIs(st, items, [], s, w) && schedule != []
    ensures OnTrack(RunSchedule(st, s, w, schedule).task, st.onError, |items|)
  {
    var front, last := schedule[..|schedule| - 1], schedule[|schedule| - 1];
    var c := RunSchedule(st, s, w, front);
    if front == [] {
      BeginsOnTrack(st, items, s, w);
    } else {
      StaysOnTrack(st, items, s, w, front);
      if c.task.Looping? {
        if c.task.ctl.At? { PlainStepStays(c.task, |items|, [], s, w, last); } else { FanStepStays(c.task, |items|, [], s, w, last); }
      }
    }
  }

  /** Races or not, and whatever the schedule: under `continue` a block whose list evaluates never fails and has one
      record for each item; under `abort` it answers only with records that have no error. */
  lemma EveryScheduleEndsFor(st: Stmt, items: seq<Value>, s: Store, w: World, schedule: seq<seq<nat>>)
    requires st.Foreach? && ListIs(st, items, [], s, w) && RunSchedule(st, s, w, schedule).task.Ended?
    ensures EndsFor(st.onError, |items|, RunSchedule(st, s, w, schedule).task.out)
  {
    StaysOnTrack(st, items, s, w, schedule);
  }

  // ----- statement lists -----

  /** The session before statement k when every earlier one succeeded. */
  ghost function Standing(stmts: seq<Stmt>, k: nat, frames: seq<Frame>, s: Store, w: World): Store
    requires k <= |stmts|
    decreases k, 0
  {
    if k == 0 then s else Apply(Standing(stmts, k - 1, frames, s, w), Doing(stmts, k - 1, frames, s, w).delta)
  }

  ghost function Doing(stmts: seq<Stmt>, k: nat, frames: seq<Frame>, s: Store, w: World): Effect<Outcome>
    requires k < |stmts|
    decreases k, 1
  {
    Exec(stmts[k], frames, Standing(stmts, k, frames, s, w), w)
  }

  ghost predicate AllRespond(stmts: seq<Stmt>, k: nat, frames: seq<Frame>, s: Store, w: World)
    requires k <= |stmts|
  {
    forall j :: 0 <= j < k ==> Doing(stmts, j, frames, s, w).out.Responded?
  }

  /** What a list reports after k successes, the last of which it names. */
  ghost function Reported(stmts: seq<Stmt>, k: nat, err: Option<ErrorCode>, frames: seq<Frame>, s: Store, w: World): BodyOut
    requires k <= |stmts| && AllRespond(stmts, k, frames, s, w)
  {
    if k == 0 then BodyOut("?", None, err)
    else BodyOut(VerbName(stmts[k - 1]), Doing(stmts, k - 1, frames, s, w).out.binding, err)
  }

  lemma StandingNext(stmts: seq<Stmt>, k: nat, frames: seq<Frame>, s: Store, w: World)
    requires k < |stmts|
    ensures Standing(stmts, k + 1, frames, s, w) == Apply(Standing(stmts, k, frames, s, w), Doing(stmts, k, frames, s, w).delta)
  {
  }

  lemma ReportedNext(stmts: seq<Stmt>, k: nat, frames: seq<Frame>, s: Store, w: World)
    requires k < |stmts| && AllRespond(stmts, k + 1, frames, s, w)
    ensures SessionObject.After(Reported(stmts, k, None, frames, s, w), stmts[k], Doing(stmts, k, frames, s, w).out) ==
            Reported(stmts, k + 1, None, frames, s, w)
  {
  }

  /** One more statement of a list that has come so far. */
  lemma OneStatementMore(stmts: seq<Stmt>, k: nat, at: BodyOut, before: Store, frames: seq<Frame>, s: Store, w: World) returns (delta: Store)
    requires k < |stmts| && at.err.None? && Apply(s, before) == Standing(stmts, k, frames, s, w)
    requires SessionObject.BodyReached(stmts, k, at, frames, s, before, w)
    ensures Apply(s, delta) == Standing(stmts, k + 1, frames, s, w)
    ensures SessionObject.BodyReached(stmts, k + 1, SessionObject.After(at, stmts[k], Doing(stmts, k, frames, s, w).out), frames, s, delta, w)
  {
    SessionObject.BodyAdvances(stmts, k, at, frames, s, before, w);
    StandingNext(stmts, k, frames, s, w);
    delta := Apply(before, Doing(stmts, k, frames, s, w).delta);
  }

  /** The list has come past its first k statements, changing s by delta. */
  ghost predicate Stands(stmts: seq<Stmt>, k: nat, delta: Store, frames: seq<Frame>, s: Store, w: World) {
    && k <= |stmts| && AllRespond(stmts, k, frames, s, w)
    && Apply(s, delta) == Standing(stmts, k, frames, s, w)
    && SessionObject.BodyReached(stmts, k, Reported(stmts, k, None, frames, s, w), frames, s, delta, w)
  }

  lemma StandsNext(stmts: seq<Stmt>, i: nat, k: nat, before: Store, frames: seq<Frame>, s: Store, w: World) returns (delta: Store)
    requires k == i + 1 <= |stmts| && AllRespond(stmts, k, frames, s, w) && Stands(stmts, i, before, frames, s, w)
    ensures Stands(stmts, k, delta, frames, s, w)
  {
    delta := OneStatementMore(stmts, i, Reported(stmts, i, None, frames, s, w), before, frames, s, w);
    ReportedNext(stmts, i, frames, s, w);
  }

  lemma StandsFirst(stmts: seq<Stmt>, frames: seq<Frame>, s: Store, w: World)
    ensures Stands(stmts, 0, NOTHING, frames, s, w)
  {
    SessionObject.BodyStarts(stmts, frames, s, w);
  }

  lemma {:induction false} ReachesStatement(stmts: seq<Stmt>, k: nat, frames: seq<Frame>, s: Store, w: World) returns (delta: Store)
    requires k <= |stmts| && AllRespond(stmts, k, frames, s, w)
    ensures Stands(stmts, k, delta, frames, s, w)
  {
    if k == 0 {
      StandsFirst(stmts, frames, s, w);
      delta := NOTHING;
    } else {
      var i := k - 1;
      var before := ReachesStatement(stmts, i, frames, s, w);
      delta := StandsNext(stmts, i, k, before, frames, s, w);
    }
  }

  /** A list ends at its first error: nothing after that statement runs. */
  lemma BodyEndsAtFirstError(stmts: seq<Stmt>, k: nat, code: ErrorCode, frames: seq<Frame>, s: Store, w: World)
    requires k < |stmts| && AllRespond(stmts, k, frames, s, w) && Doing(stmts, k, frames, s, w).out == Failed(code)
    ensures ExecBody(stmts, "?", None, frames, s, w).out == Reported(stmts, k, Some(code), frames, s, w)
    ensures Apply(s, ExecBody(stmts, "?", None, frames, s, w).delta) == Standing(stmts, k + 1, frames, s, w)
  {
    var before := ReachesStatement(stmts, k, frames, s, w);
    var at := Reported(stmts, k, None, frames, s, w);
    var delta := OneStatementMore(stmts, k, at, before, frames, s, w);
    SessionObject.BodyEnds(stmts, k + 1, SessionObject.After(at, stmts[k], Failed(code)), frames, s, delta, w);
  }

  /** Without an error all of it runs, in order. */
  lemma BodyRunsAll(stmts: seq<Stmt>, frames: seq<Frame>, s: Store, w: World)
    requires AllRespond(stmts, |stmts|, frames, s, w)
    ensures ExecBody(stmts, "?", None, frames, s, w).out == Reported(stmts, |stmts|, None, frames, s, w)
    ensures Apply(s, ExecBody(stmts, "?", None, frames, s, w).delta) == Standing(stmts, |stmts|, frames, s, w)
  {
    var delta := ReachesStatement(stmts, |stmts|, frames, s, w);
    SessionObject.BodyEnds(stmts, |stmts|, Reported(stmts, |stmts|, None, frames, s, w), frames, s, delta, w);
  }

  // ----- if -----

  /** A branch without an error: its statements run in order, and `$_` and the answer are its tag. */
  lemma BranchAnswers(st: Stmt, yes: bool, branch: seq<Stmt>, frames: seq<Frame>, s: Store, w: World)
    requires st.If? && EvalPred(st.cond, Scoped(frames, s, w)) == Ok(yes) && branch == (if yes then st.thenBody else st.elseBody)
    requires AllRespond(branch, |branch|, frames, s, w)
    ensures var tag := Str(if yes then "branch:then" else "branch:else");
            && Exec(st, frames, s, w).out == Responded("if", Some(tag), None)
            && Apply(s, Exec(st, frames, s, w).delta).names == Standing(branch, |branch|, frames, s, w).names
            && Apply(s, Exec(st, frames, s, w).delta).last == Some(Binding(tag, w.now, None))
  {
    SessionObject.IfUnfolds(st, frames, s, w);
    BodyRunsAll(branch, frames, s, w);
    LastOver(Standing(branch, |branch|, frames, s, w), BranchTag(yes), w);
  }

  /** The first error of the branch taken ends the block. */
  lemma BranchFails(st: Stmt, yes: bool, branch: seq<Stmt>, k: nat, code: ErrorCode, frames: seq<Frame>, s: Store, w: World)
    requires st.If? && EvalPred(st.cond, Scoped(frames, s, w)) == Ok(yes) && branch == (if yes then st.thenBody else st.elseBody)
    requires k < |branch| && AllRespond(branch, k, frames, s, w) && Doing(branch, k, frames, s, w).out == Failed(code)
    ensures Exec(st, frames, s, w).out == Failed(code) && Apply(s, Exec(st, frames, s, w).delta) == Standing(branch, k + 1, frames, s, w)
  {
    SessionObject.IfUnfolds(st, frames, s, w);
    BodyEndsAtFirstError(branch, k, code, frames, s, w);
  }

  /** A condition that cannot be decided fails the block before anything changes. */
  lemma ConditionFails(st: Stmt, code: ErrorCode, frames: seq<Frame>, s: Store, w: World)
    requires st.If? && EvalPred(st.cond, Scoped(frames, s, w)) == Err(code)
    ensures Exec(st, frames, s, w).out == Failed(code) && Apply(s, Exec(st, frames, s, w).delta) == s
  {
    SessionObject.IfUnfolds(st, frames, s, w);
  }
}
