/** Programs that are race free by their form: which `foreach --parallel` blocks the schedule theorems speak of
    (src/runtime/execute.ts). */
module RaceFreedom {
  import opened Values
  import opened Ast
  import opened Evaluate
  import opened Runtime
  import opened Schedules
  import opened LoopMeaning
  import CommandMeaning
  import SessionObject
  import Scoping
  import Work
  import Termination

  ghost predicate NoLast(ps: set<Path>) {
    forall p :: p in ps ==> p.root != "_"
  }

  /** A statement that writes nothing but `$_`, reads neither `$_` nor the list of names, and whose blocks go on after errors. */
  ghost predicate Plain(st: Stmt) {
    match st
    case Assign(_, _) => false
    case Run(cmd) => !cmd.Save? && !cmd.Env? && NoLast(CommandPaths(cmd))
    case If(p, a, b) => NoLast(PathsPred(p)) && PlainBody(a) && PlainBody(b)
    case Foreach(itemVar, list, _, onError, body) => itemVar != "_" && onError.Continue? && NoLast(Paths(list)) && PlainBody(body)
  }

  ghost predicate PlainBody(stmts: seq<Stmt>) {
    forall st | st in stmts :: Plain(st)
  }

  /** Nothing is written but `$_`, nothing shared is read that another iteration could write, and no name of a frame is
      read from the session. */
  ghost predicate Harmless<R>(e: Effect<R>, frames: seq<Frame>) {
    && e.delta.names == map[] && !e.looks.last && !e.looks.all && e.raceFree && e.scoped
    && forall name :: FrameLookup(frames, name).Some? ==> name !in e.looks.names
  }

  lemma ThenHarmless<A, B>(e: Effect<A>, f: Effect<B>, frames: seq<Frame>)
    requires Harmless(e, frames) && Harmless(f, frames)
    ensures Harmless(Then(e, f), frames)
  {
  }

  lemma ReadingHarmless(ps: set<Path>, frames: seq<Frame>)
    requires NoLast(ps)
    ensures Harmless(Reading(ps, frames), frames)
  {
  }

  lemma CommandHarmless(cmd: Command, frames: seq<Frame>, s: Store, w: World)
    requires !cmd.Save? && !cmd.Env? && NoLast(CommandPaths(cmd))
    ensures Harmless(CommandEffect(cmd, None, frames, s, w), frames)
  {
  }

  lemma {:induction false} PlainIsHarmless(st: Stmt, frames: seq<Frame>, s: Store, w: World)
    requires Plain(st)
    ensures Harmless(Exec(st, frames, s, w), frames)
    decreases st, 1, 0
  {
    var sc := Scoped(frames, s, w);
    match st
    case Run(cmd) => CommandHarmless(cmd, frames, s, w);
    case If(p, a, b) =>
      ReadingHarmless(PathsPred(p), frames);
      if EvalPred(p, sc).Ok? {
        var yes := EvalPred(p, sc).value;
        var body := if yes then a else b;
        PlainBodyIsHarmless(body, "?", None, frames, s, w);
        var e := ExecBody(body, "?", None, frames, s, w);
        var end := BranchEnd(BranchTag(yes), e.out, frames, w);
        ThenHarmless(e, end, frames);
        ThenHarmless(Reading(PathsPred(p), frames), Then(e, end), frames);
      }
    case Foreach(itemVar, list, parallel, onError, body) =>
      ReadingHarmless(Paths(list), frames);
      if Eval(list, sc).Ok? && Eval(list, sc).value.List? {
        var items := Eval(list, sc).value.items;
        var loop := Loop(itemVar, onError, body, items, Concurrency(parallel, |items|) > 1);
        IterationsAreHarmless(st, loop, 0, frames, s, w);
        LoopIsHarmless(loop, ExecIterations(st, loop, 0, frames, s, w), frames, w);
        ThenHarmless(Reading(Paths(list), frames), LoopEffect(loop, ExecIterations(st, loop, 0, frames, s, w), frames, w), frames);
      }
  }

  lemma {:induction false} PlainBodyIsHarmless(stmts: seq<Stmt>, verb: string, binding: Option<string>, frames: seq<Frame>, s: Store, w: World)
    requires PlainBody(stmts)
    ensures Harmless(ExecBody(stmts, verb, binding, frames, s, w), frames)
    decreases stmts, 0, 0
  {
    if stmts != [] {
      var e := Exec(stmts[0], frames, s, w);
      PlainIsHarmless(stmts[0], frames, s, w);
      if e.out.Responded? {
        var rest := ExecBody(stmts[1..], VerbName(stmts[0]), e.out.binding, frames, Apply(s, e.delta), w);
        PlainBodyIsHarmless(stmts[1..], VerbName(stmts[0]), e.out.binding, frames, Apply(s, e.delta), w);
        ThenHarmless(e, rest, frames);
      }
    }
  }

  /** An iteration, seen from outside its frame. */
  ghost predicate HarmlessIn(e: Effect<BodyOut>, itemVar: string, frames: seq<Frame>) {
    Harmless(e, frames) && itemVar !in e.looks.names
  }

  lemma {:induction false} IterationsAreHarmless(st: Stmt, loop: Loop, k: nat, frames: seq<Frame>, s: Store, w: World)
    requires st.Foreach? && loop.body == st.body && k <= |loop.items| && PlainBody(st.body) && loop.onError.Continue?
    ensures |ExecIterations(st, loop, k, frames, s, w)| == |loop.items| - k
    ensures forall i :: 0 <= i < |loop.items| - k ==> HarmlessIn(ExecIterations(st, loop, k, frames, s, w)[i], loop.itemVar, frames)
    decreases st, 0, |loop.items| - k
  {
    if k < |loop.items| {
      var inner := frames + [Frame(loop.itemVar, loop.items[k])];
      var e := ExecBody(st.body, "?", None, inner, s, w);
      PlainBodyIsHarmless(st.body, "?", None, inner, s, w);
      assert inner[..|inner| - 1] == frames;
      assert HarmlessIn(e, loop.itemVar, frames);
      IterationsAreHarmless(st, loop, k + 1, frames, Apply(s, e.delta), w);
      IterationsUnfold(st, loop, k, frames, s, w);
    }
  }

  lemma {:induction false} SumsHarmless(effs: seq<Effect<BodyOut>>, itemVar: string, frames: seq<Frame>)
    requires forall i :: 0 <= i < |effs| ==> HarmlessIn(effs[i], itemVar, frames)
    ensures SumDelta(effs).names == map[] && !SumReads(effs).last && !SumReads(effs).all
    ensures forall name :: FrameLookup(frames, name).Some? ==> name !in SumReads(effs).names
  {
    if effs != [] { SumsHarmless(effs[1..], itemVar, frames); }
  }

  lemma LoopIsHarmless(loop: Loop, effs: seq<Effect<BodyOut>>, frames: seq<Frame>, w: World)
    requires loop.itemVar != "_" && loop.onError.Continue? && |effs| == |loop.items|
    requires forall i :: 0 <= i < |effs| ==> HarmlessIn(effs[i], loop.itemVar, frames)
    ensures Harmless(LoopEffect(loop, effs, frames, w), frames)
  {
    SumsHarmless(effs, loop.itemVar, frames);
  }

  /** Such a statement, with parallel blocks nested in any way, ends alike under all schedules that end it: with the
      response and the session of its sequential run. */
  lemma PlainEndsAlike(st: Stmt, s: Store, w: World, one: seq<seq<nat>>, other: seq<seq<nat>>)
    requires Plain(st) && RunSchedule(st, s, w, one).task.Ended? && RunSchedule(st, s, w, other).task.Ended?
    ensures RunSchedule(st, s, w, one) == RunSchedule(st, s, w, other)
    ensures RunSchedule(st, s, w, one).task.out == Exec(st, [], s, w).out
    ensures RunSchedule(st, s, w, one).store.names == s.names
  {
    PlainIsHarmless(st, [], s, w);
    ScheduleIndependence(st, s, w, one);
    ScheduleIndependence(st, s, w, other);
  }

  /** And wherever a schedule stands, it can be brought to that end. */
  lemma PlainCanBeCompleted(st: Stmt, s: Store, w: World, schedule: seq<seq<nat>>) returns (more: seq<seq<nat>>)
    requires Plain(st)
    ensures RunSchedule(st, s, w, schedule + more).task.Ended?
  {
    PlainIsHarmless(st, [], s, w);
    Termination.SchedulesAreEquallyLong(st, s, w, schedule);
    more := Termination.CanBeCompleted(st, s, w, schedule, Work.StmtWork(st, [], s, w) - Termination.Effective(st, s, w, schedule));
  }

  /** And iteration frames are to it what binding the item, running the body and restoring would be. */
  lemma PlainNeedsNoFrames(st: Stmt, s: Store, w: World)
    requires Plain(st)
    ensures Scoping.BindRun(st, s, w) == Scoping.Ran(Exec(st, [], s, w).out, Apply(s, Exec(st, [], s, w).delta))
  {
    PlainIsHarmless(st, [], s, w);
    Scoping.FramesSimulateBindings(st, s, w);
  }

  // ----- one name for each iteration -----

  /** `foreach $v in ... do save e as n end`, with e and n about the item alone. */
  ghost predicate SavesItems(st: Stmt, e: Expr, as_: Expr, ttlMs: Option<nat>, overwrite: bool) {
    && st.Foreach? && st.body == [Run(Save(e, as_, ttlMs, overwrite))]
    && st.itemVar != "_" && st.itemVar != ""
    && forall p :: p in Paths(e) + Paths(as_) ==> p.root == st.itemVar
  }

  /** What an expression about the item alone stands for does not depend on the session. */
  lemma ItemDecides(e: Expr, name: string, item: Value, s: Store, t: Store, w: World)
    requires name != "" && forall p :: p in Paths(e) ==> p.root == name
    ensures Eval(e, Scoped([Frame(name, item)], t, w)) == Eval(e, Scoped([Frame(name, item)], s, w))
  {
    EvalAgrees(e, Scoped([Frame(name, item)], t, w), Scoped([Frame(name, item)], s, w));
  }

  function Saved(v: Value, ttlMs: Option<nat>, w: World): Binding {
    Binding(v, w.now, if ttlMs.Some? then Some(w.now + ttlMs.value) else None)
  }

  /** One such iteration: it writes its name and looks at no other. */
  ghost predicate SavesOnly(e: Effect<BodyOut>, name: string, b: Binding) {
    && e.out == BodyOut("save", Some(name), None) && e.delta.names == map[name := b]
    && e.looks.names <= {name} && !e.looks.last && !e.looks.all && e.raceFree
  }

  lemma OneSave(e: Expr, as_: Expr, v: Value, name: string, ttlMs: Option<nat>, overwrite: bool, frame: Frame, t: Store, w: World)
    requires frame.name != "_" && frame.name != "" && forall p :: p in Paths(e) + Paths(as_) ==> p.root == frame.name
    requires Eval(e, Scoped([frame], t, w)) == Ok(v) && Eval(as_, Scoped([frame], t, w)) == Ok(Str(name))
    requires name != "_" && (overwrite || CommandMeaning.Free(t, name, w.now))
    ensures SavesOnly(ExecBody([Run(Save(e, as_, ttlMs, overwrite))], "?", None, [frame], t, w), name, Saved(v, ttlMs, w))
  {
    var cmd := Save(e, as_, ttlMs, overwrite);
    var c := CommandEffect(cmd, None, [frame], t, w);
    assert c.out == Responded("save", Some(v), Some(name)) && c.delta.names == map[name := Saved(v, ttlMs, w)];
    assert FrameLookup([frame], frame.name).Some?;
    assert PathReads(CommandPaths(cmd), [frame]).names == {} && !PathReads(CommandPaths(cmd), [frame]).last;
    assert c.looks.names <= {name} && !c.looks.last && !c.looks.all;
    var stmts := [Run(cmd)];
    assert stmts[1..] == [];
    assert ExecBody(stmts, "?", None, [frame], t, w) ==
           Then(c, Quiet(BodyOut("save", Some(name), None), [frame]));
  }

  ghost predicate DistinctNames(names: seq<string>) {
    forall i, j :: 0 <= i < j < |names| ==> names[i] != names[j]
  }

  /** The i-th item is v_i, to be saved under the i-th name, which is free. */
  ghost predicate Named(st: Stmt, e: Expr, as_: Expr, overwrite: bool, items: seq<Value>, vs: seq<Value>, names: seq<string>, s: Store, w: World)
    requires st.Foreach?
  {
    && |vs| == |items| && |names| == |items| && DistinctNames(names)
    && forall i :: 0 <= i < |items| ==>
         && names[i] != "_" && (overwrite || CommandMeaning.Free(s, names[i], w.now))
         && Eval(e, Scoped([Frame(st.itemVar, items[i])], s, w)) == Ok(vs[i])
         && Eval(as_, Scoped([Frame(st.itemVar, items[i])], s, w)) == Ok(Str(names[i]))
  }

  /** The names of t are those of s and the first k saved ones. */
  ghost predicate HoldsFirst(t: Store, s: Store, k: nat, vs: seq<Value>, names: seq<string>, ttlMs: Option<nat>, w: World)
    requires k <= |names| == |vs|
  {
    && (forall j :: 0 <= j < k ==> names[j] in t.names && t.names[names[j]] == Saved(vs[j], ttlMs, w))
    && forall n :: n !in names[..k] ==> SameAt(t, s, n)
  }

  lemma HoldsOneMore(t: Store, s: Store, k: nat, vs: seq<Value>, names: seq<string>, ttlMs: Option<nat>, w: World, d: Store)
    requires k < |names| == |vs| && DistinctNames(names) && HoldsFirst(t, s, k, vs, names, ttlMs, w)
    requires d.names == map[names[k] := Saved(vs[k], ttlMs, w)]
    ensures HoldsFirst(Apply(t, d), s, k + 1, vs, names, ttlMs, w)
  {
    assert names[..k + 1] == names[..k] + [names[k]];
  }

  lemma {:induction false} NamesBefore(st: Stmt, e: Expr, as_: Expr, ttlMs: Option<nat>, overwrite: bool, items: seq<Value>, vs: seq<Value>,
                                       names: seq<string>, k: nat, s: Store, w: World)
    requires SavesItems(st, e, as_, ttlMs, overwrite) && Named(st, e, as_, overwrite, items, vs, names, s, w) && k <= |items|
    ensures HoldsFirst(Before(st, items, k, [], s, w), s, k, vs, names, ttlMs, w)
  {
    if k == 0 {
      NothingSaved(st, items, vs, names, ttlMs, s, w);
    } else {
      var i := k - 1;
      NamesBefore(st, e, as_, ttlMs, overwrite, items, vs, names, i, s, w);
      NextSaves(st, e, as_, ttlMs, overwrite, items, vs, names, i, k, s, w);
    }
  }

  lemma EachSaves(st: Stmt, e: Expr, as_: Expr, ttlMs: Option<nat>, overwrite: bool, items: seq<Value>, vs: seq<Value>,
                  names: seq<string>, s: Store, w: World)
    requires SavesItems(st, e, as_, ttlMs, overwrite) && Named(st, e, as_, overwrite, items, vs, names, s, w)
    ensures forall i :: 0 <= i < |items| ==> SavesOnly(Iteration(st, items, i, [], s, w), names[i], Saved(vs[i], ttlMs, w))
  {
    forall i | 0 <= i < |items|
      ensures SavesOnly(Iteration(st, items, i, [], s, w), names[i], Saved(vs[i], ttlMs, w))
    {
      NamesBefore(st, e, as_, ttlMs, overwrite, items, vs, names, i, s, w);
      NextSaves(st, e, as_, ttlMs, overwrite, items, vs, names, i, i + 1, s, w);
    }
  }

  lemma NothingSaved(st: Stmt, items: seq<Value>, vs: seq<Value>, names: seq<string>, ttlMs: Option<nat>, s: Store, w: World)
    requires st.Foreach? && |names| == |vs|
    ensures HoldsFirst(Before(st, items, 0, [], s, w), s, 0, vs, names, ttlMs, w)
  {
  }

  lemma NextSaves(st: Stmt, e: Expr, as_: Expr, ttlMs: Option<nat>, overwrite: bool, items: seq<Value>, vs: seq<Value>,
                  names: seq<string>, k: nat, next: nat, s: Store, w: World)
    requires SavesItems(st, e, as_, ttlMs, overwrite) && Named(st, e, as_, overwrite, items, vs, names, s, w) && next == k + 1 <= |items|
    requires HoldsFirst(Before(st, items, k, [], s, w), s, k, vs, names, ttlMs, w)
    ensures SavesOnly(Iteration(st, items, k, [], s, w), names[k], Saved(vs[k], ttlMs, w))
    ensures HoldsFirst(Before(st, items, next, [], s, w), s, next, vs, names, ttlMs, w)
  {
    IterationSaves(st, e, as_, ttlMs, overwrite, items, vs, names, k, s, w);
    HoldsOneMore(Before(st, items, k, [], s, w), s, k, vs, names, ttlMs, w, Iteration(st, items, k, [], s, w).delta);
    OneFurther(st, items, k, [], s, w);
  }

  lemma IterationSaves(st: Stmt, e: Expr, as_: Expr, ttlMs: Option<nat>, overwrite: bool, items: seq<Value>, vs: seq<Value>,
                       names: seq<string>, k: nat, s: Store, w: World)
    requires SavesItems(st, e, as_, ttlMs, overwrite) && Named(st, e, as_, overwrite, items, vs, names, s, w) && k < |items|
    requires HoldsFirst(Before(st, items, k, [], s, w), s, k, vs, names, ttlMs, w)
    ensures SavesOnly(Iteration(st, items, k, [], s, w), names[k], Saved(vs[k], ttlMs, w))
  {
    var t, frame := Before(st, items, k, [], s, w), Frame(st.itemVar, items[k]);
    ItemDecides(e, st.itemVar, items[k], s, t, w);
    ItemDecides(as_, st.itemVar, items[k], s, t, w);
    assert names[k] !in names[..k];
    assert SameAt(t, s, names[k]);
    assert [] + [frame] == [frame];
    OneSave(e, as_, vs[k], names[k], ttlMs, overwrite, frame, t, w);
  }

  lemma SavesAreIndependent(effs: seq<Effect<BodyOut>>, names: seq<string>, vs: seq<Value>, ttlMs: Option<nat>, w: World)
    requires |effs| == |names| == |vs| && DistinctNames(names)
    requires forall i :: 0 <= i < |effs| ==> SavesOnly(effs[i], names[i], Saved(vs[i], ttlMs, w))
    ensures Independent(effs)
  {
    forall i, j | 0 <= i < |effs| && 0 <= j < |effs| && i != j
      ensures effs[i].delta.names.Keys !! effs[j].delta.names.Keys + effs[j].looks.names
    {
      assert names[i] != names[j];
    }
  }

  lemma SavingLoopIsRaceFree(loop: Loop, effs: seq<Effect<BodyOut>>, names: seq<string>, vs: seq<Value>, ttlMs: Option<nat>, w: World)
    requires |loop.items| == |effs| == |names| == |vs| && DistinctNames(names)
    requires forall i :: 0 <= i < |effs| ==> SavesOnly(effs[i], names[i], Saved(vs[i], ttlMs, w))
    ensures LoopEffect(loop, effs, [], w).raceFree
  {
    SavesAreIndependent(effs, names, vs, ttlMs, w);
    assert forall i :: 0 <= i < |effs| ==> effs[i].raceFree && !Fails(loop.onError, effs[i].out);
  }

  lemma ExecOfLoop(st: Stmt, items: seq<Value>, s: Store, w: World)
    requires st.Foreach? && ListIs(st, items, [], s, w)
    ensures var loop := SessionObject.LoopOf(st, items);
            Exec(st, [], s, w).raceFree == LoopEffect(loop, ExecIterations(st, loop, 0, [], s, w), [], w).raceFree
  {
    var loop := SessionObject.LoopOf(st, items);
    assert Eval(st.list, Scoped([], s, w)) == Ok(List(items));
    assert Exec(st, [], s, w) == Then(Reading(Paths(st.list), []), LoopEffect(loop, ExecIterations(st, loop, 0, [], s, w), [], w));
  }

  /** The block is race free when the loop over the iterations it reaches is. */
  lemma LoopDecides(st: Stmt, items: seq<Value>, s: Store, w: World)
    requires st.Foreach? && ListIs(st, items, [], s, w) && NoErrorBefore(st, items, |items|, [], s, w)
    requires LoopEffect(SessionObject.LoopOf(st, items), FirstIterations(st, items, |items|, [], s, w), [], w).raceFree
    ensures Exec(st, [], s, w).raceFree
  {
    Reaches(st, items, |items|, [], s, w);
    var loop := SessionObject.LoopOf(st, items);
    assert ExecIterations(st, loop, 0, [], s, w) == FirstIterations(st, items, |items|, [], s, w);
    ExecOfLoop(st, items, s, w);
  }

  lemma SavingNeverFails(st: Stmt, items: seq<Value>, vs: seq<Value>, names: seq<string>, ttlMs: Option<nat>, s: Store, w: World)
    requires st.Foreach? && |vs| == |names| == |items|
    requires forall i :: 0 <= i < |items| ==> SavesOnly(Iteration(st, items, i, [], s, w), names[i], Saved(vs[i], ttlMs, w))
    ensures NoErrorBefore(st, items, |items|, [], s, w)
  {
  }

  /** Saving each item under a name of its own is race free, with any number of workers. */
  lemma OwnNamesAreRaceFree(st: Stmt, e: Expr, as_: Expr, ttlMs: Option<nat>, overwrite: bool, items: seq<Value>, vs: seq<Value>,
                            names: seq<string>, s: Store, w: World)
    requires SavesItems(st, e, as_, ttlMs, overwrite) && ListIs(st, items, [], s, w) && Named(st, e, as_, overwrite, items, vs, names, s, w)
    ensures Exec(st, [], s, w).raceFree
  {
    EachSaves(st, e, as_, ttlMs, overwrite, items, vs, names, s, w);
    SavingNeverFails(st, items, vs, names, ttlMs, s, w);
    SavingLoopIsRaceFree(SessionObject.LoopOf(st, items), FirstIterations(st, items, |items|, [], s, w), names, vs, ttlMs, w);
    LoopDecides(st, items, s, w);
  }

  /** So under every schedule that ends it each name holds its item at the end, and no other name has changed. */
  lemma OwnNamesHoldTheItems(st: Stmt, e: Expr, as_: Expr, ttlMs: Option<nat>, overwrite: bool, items: seq<Value>, vs: seq<Value>,
                             names: seq<string>, s: Store, w: World, schedule: seq<seq<nat>>)
    requires SavesItems(st, e, as_, ttlMs, overwrite) && ListIs(st, items, [], s, w) && Named(st, e, as_, overwrite, items, vs, names, s, w)
    requires RunSchedule(st, s, w, schedule).task.Ended?
    ensures RunSchedule(st, s, w, schedule).task.out.Responded?
    ensures HoldsExactly(RunSchedule(st, s, w, schedule).store.names, s.names, vs, names, ttlMs, w)
  {
    OwnNamesAreRaceFree(st, e, as_, ttlMs, overwrite, items, vs, names, s, w);
    ScheduleIndependence(st, s, w, schedule);
    NamesAfterLoop(st, e, as_, ttlMs, overwrite, items, vs, names, s, w);
    assert RunSchedule(st, s, w, schedule).store.names == Apply(s, Exec(st, [], s, w).delta).names;
  }

  lemma NamesAfterLoop(st: Stmt, e: Expr, as_: Expr, ttlMs: Option<nat>, overwrite: bool, items: seq<Value>, vs: seq<Value>,
                       names: seq<string>, s: Store, w: World)
    requires SavesItems(st, e, as_, ttlMs, overwrite) && ListIs(st, items, [], s, w) && Named(st, e, as_, overwrite, items, vs, names, s, w)
    ensures Exec(st, [], s, w).out.Responded?
    ensures HoldsExactly(Apply(s, Exec(st, [], s, w).delta).names, s.names, vs, names, ttlMs, w)
  {
    EachSaves(st, e, as_, ttlMs, overwrite, items, vs, names, s, w);
    NamesBefore(st, e, as_, ttlMs, overwrite, items, vs, names, |items|, s, w);
    var records := NoneFails(st, items, [], s, w);
    AllHeld(Before(st, items, |items|, [], s, w), s, vs, names, ttlMs, w);
  }

  /** The saved names hold their values, and the others are as they were. */
  ghost predicate HoldsExactly(t: map<string, Binding>, s: map<string, Binding>, vs: seq<Value>, names: seq<string>, ttlMs: Option<nat>, w: World)
    requires |vs| == |names|
  {
    && (forall i :: 0 <= i < |names| ==> names[i] in t && t[names[i]] == Saved(vs[i], ttlMs, w))
    && (forall n :: n !in names ==> (n in t <==> n in s) && (n in t && n in s ==> t[n] == s[n]))
  }

  lemma AllHeld(t: Store, s: Store, vs: seq<Value>, names: seq<string>, ttlMs: Option<nat>, w: World)
    requires |names| == |vs| && HoldsFirst(t, s, |names|, vs, names, ttlMs, w)
    ensures HoldsExactly(t.names, s.names, vs, names, ttlMs, w)
  {
    assert names[..|names|] == names;
    forall n | n !in names
      ensures (n in t.names <==> n in s.names) && (n in t.names && n in s.names ==> t.names[n] == s.names[n])
    {
      assert SameAt(t, s, n);
    }
  }
}
