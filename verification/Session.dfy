/** The session object the dispatcher updates in place (src/runtime/session.ts, src/runtime/execute.ts). */
module SessionObject {
  import opened Values
  import opened Ast
  import opened Evaluate
  import opened Verbs
  import opened Runtime
  import opened Chains
  import Join

  /** `lookupScoped`: frames from the innermost out. */
  method LookupFrames(frames: seq<Frame>, name: string) returns (r: Option<Value>)
    ensures r == FrameLookup(frames, name)
  {
    var i := |frames|;
    assert frames[..i] == frames;
    while i > 0
      invariant 0 <= i <= |frames|
      invariant FrameLookup(frames, name) == FrameLookup(frames[..i], name)
    {
      i := i - 1;
      assert frames[..i + 1][..i] == frames[..i];
      if frames[i].name == name {
        return Some(frames[i].item);
      }
    }
    assert frames[..0] == [];
    return None;
  }

  /** `resolvePath`: the loop over the steps. */
  method ResolvePath(p: Path, sc: Scope) returns (r: Result<Value>)
    ensures r == Resolve(p, sc)
  {
    var root := sc.item;
    if p.root != "" {
      root := LookupFrames(sc.frames, p.root);
      if root.None? {
        root := StoreLookup(sc.store, p.root, sc.w.now);
      }
    }
    if root.None? {
      return Err(SCOPE_MISS);
    }
    var current := root.value;
    for i := 0 to |p.steps|
      invariant Walk(root.value, p.steps) == Walk(current, p.steps[i..])
    {
      var next := StepInto(current, p.steps[i]);
      assert p.steps[i..][1..] == p.steps[i + 1..];
      if next.Err? {
        return Err(next.code);
      }
      current := next.value;
    }
    return Ok(current);
  }

  /** `resolveInterp`: the loop over the segments. */
  method ResolveInterp(segs: seq<Seg>, sc: Scope) returns (r: Result<string>)
    ensures r == EvalSegs(segs, sc)
  {
    var text := "";
    for i := 0 to |segs|
      invariant EvalSegs(segs[..i], sc) == Ok(text)
    {
      assert segs[..i + 1][..i] == segs[..i];
      var piece: Result<string>;
      match segs[i] {
        case Lit(t) => piece := Ok(t);
        case Hole(path) =>
          var v := ResolvePath(path, sc);
          piece := if v.Ok? then InterpText(v.value, sc.w) else Err(v.code);
      }
      if piece.Err? {
        SegsPrefixError(segs, i + 1, sc);
        return Err(piece.code);
      }
      text := text + piece.value;
    }
    assert segs[..|segs|] == segs;
    return Ok(text);
  }

  lemma {:induction false} SegsPrefixError(segs: seq<Seg>, i: nat, sc: Scope)
    requires i <= |segs| && EvalSegs(segs[..i], sc).Err?
    ensures EvalSegs(segs, sc) == EvalSegs(segs[..i], sc)
    decreases |segs| - i
  {
    if i < |segs| {
      assert segs[..i + 1][..i] == segs[..i];
      SegsPrefixError(segs, i + 1, sc);
    } else {
      assert segs[..i] == segs;
    }
  }

  // ----- what the session's methods are proved to do -----

  function SaveRefused(name: string, overwrite: bool, s: Store, now: int): Option<ErrorCode> {
    if name == "_" then Some(SCOPE_MISS)
    else if !overwrite && StoreLookup(s, name, now).Some? then Some(CONFLICT)
    else None
  }

  function SavedBinding(v: Value, ttlMs: Option<nat>, now: int): Binding {
    Binding(v, now, if ttlMs.Some? then Some(now + ttlMs.value) else None)
  }

  function SavedAs(v: Value, n: string, ttlMs: Option<nat>, overwrite: bool, bindTo: Option<string>, s: Store, w: World): Act {
    match SaveRefused(n, overwrite, s, w.now)
    case Some(c) => Act(Failed(c), NOTHING)
    case None =>
      var saved := map[n := SavedBinding(v, ttlMs, w.now)];
      Act(Responded("save", Some(v), Some(n)),
          Store(if bindTo.Some? && bindTo.value != "" && bindTo.value != n then saved[bindTo.value := Fresh(v, w)] else saved,
                Some(Fresh(v, w))))
  }

  function BranchOutcome(yes: bool, b: BodyOut): Outcome {
    match b.err
    case Some(c) => Failed(c)
    case None => Responded("if", Some(BranchTag(yes)), None)
  }

  function LoopOf(st: Stmt, items: seq<Value>): Loop
    requires st.Foreach?
  {
    Loop(st.itemVar, st.onError, st.body, items, Concurrency(st.parallel, |items|) > 1)
  }

  function LoopOutcome(st: Stmt, items: seq<Value>, frames: seq<Frame>, s: Store, w: World): Effect<Outcome>
    requires st.Foreach?
  {
    var loop := LoopOf(st, items);
    LoopEffect(loop, ExecIterations(st, loop, 0, frames, s, w), frames, w)
  }

  function After(at: BodyOut, st: Stmt, r: Outcome): BodyOut {
    match r
    case Failed(c) => BodyOut(at.verb, at.binding, Some(c))
    case Responded(_, _, b) => BodyOut(VerbName(st), b, None)
  }

  /** The list started in s has come past its first i statements, changing s by delta. */
  ghost predicate BodyReached(stmts: seq<Stmt>, i: nat, at: BodyOut, frames: seq<Frame>, s: Store, delta: Store, w: World) {
    && i <= |stmts|
    && var whole := ExecBody(stmts, "?", None, frames, s, w);
       if at.err.Some? then whole.out == at && whole.delta == delta
       else
         var rest := ExecBody(stmts[i..], at.verb, at.binding, frames, Apply(s, delta), w);
         whole.out == rest.out && whole.delta == Apply(delta, rest.delta)
  }

  /** Of the iterations `all`, those in `done` are over; `rest` follow unless the last one threw. */
  ghost predicate LoopState(onError: OnError, done: seq<Effect<BodyOut>>, results: seq<Value>, thrown: Option<ErrorCode>,
                            all: seq<Effect<BodyOut>>, rest: seq<Effect<BodyOut>>) {
    && results == Records(done)
    && all == done + rest
    && (thrown.Some? ==> rest == [] && done != [] && Fails(onError, done[|done| - 1].out) && done[|done| - 1].out.err == thrown)
    && (thrown.None? && done != [] ==> !Fails(onError, done[|done| - 1].out))
  }

  ghost predicate LoopReached(st: Stmt, loop: Loop, i: nat, frames: seq<Frame>, s: Store, done: seq<Effect<BodyOut>>,
                              results: seq<Value>, thrown: Option<ErrorCode>, w: World)
    requires st.Foreach? && loop.body == st.body && i <= |loop.items|
  {
    && |done| == i
    && LoopState(loop.onError, done, results, thrown, ExecIterations(st, loop, 0, frames, s, w),
                 if thrown.Some? then [] else ExecIterations(st, loop, i, frames, Apply(s, SumDelta(done)), w))
  }

  // ----- the session -----

  class Session {
    var bindings: map<string, Binding>
    var last: Option<Binding>

    constructor ()
      ensures View() == NOTHING
    {
      bindings := map[];
      last := None;
    }

    function View(): Store
      reads this
    {
      Store(bindings, last)
    }

    /** The session as a statement left it, given what it was before. */
    twostate predicate Became(delta: Store)
      reads this
    {
      View() == Apply(old(View()), delta)
    }

    method SetLast(v: Value, w: World)
      modifies this`last
      ensures Became(UpdateLast(v, w))
    {
      last := Some(Fresh(v, w));
    }

    method FinishAndBindTo(verb: string, v: Value, target: Option<string>, w: World) returns (out: Outcome)
      modifies this
      ensures var a := FinishAndBind(verb, v, target, w); out == a.out && Became(a.delta)
    {
      last := Some(Fresh(v, w));
      if target.Some? {
        bindings := bindings[target.value := Fresh(v, w)];
      }
      return Responded(verb, Some(v), target);
    }

    method AnswerTo(verb: string, r: Result<Value>, target: Option<string>, w: World) returns (out: Outcome)
      modifies this
      ensures var a := Answer(verb, r, target, w); out == a.out && Became(a.delta)
    {
      match r
      case Err(c) => out := Failed(c);
      case Ok(v) => out := FinishAndBindTo(verb, v, target, w);
    }

    method ShowTo(verb: string, r: Result<Value>, w: World) returns (out: Outcome)
      modifies this
      ensures var a := Shown(verb, r, w); out == a.out && Became(a.delta)
    {
      match r
      case Err(c) => out := Failed(c);
      case Ok(v) =>
        SetLast(v, w);
        out := Responded(verb, Some(v), None);
    }

    /** `runSave`: None when the name is taken or reserved, with the code saying which. */
    method RunSave(v: Value, name: string, ttlMs: Option<nat>, overwrite: bool, w: World) returns (refused: Option<ErrorCode>)
      modifies this`bindings
      ensures refused == SaveRefused(name, overwrite, old(View()), w.now)
      ensures bindings == if refused.Some? then old(bindings) else old(bindings)[name := SavedBinding(v, ttlMs, w.now)]
    {
      if name == "_" {
        return Some(SCOPE_MISS);
      }
      if !overwrite && StoreLookup(View(), name, w.now).Some? {
        return Some(CONFLICT);
      }
      bindings := bindings[name := Binding(v, w.now, if ttlMs.Some? then Some(w.now + ttlMs.value) else None)];
      return None;
    }

    method SaveTo(target: Expr, as_: Expr, ttlMs: Option<nat>, overwrite: bool, bindTo: Option<string>, frames: seq<Frame>, w: World)
      returns (out: Outcome)
      modifies this
      ensures var a := SaveAct(target, as_, ttlMs, overwrite, bindTo, Scoped(frames, old(View()), w)); out == a.out && Became(a.delta)
    {
      var sc := Scoped(frames, View(), w);
      var v := Eval(target, sc);
      if v.Err? {
        return Failed(v.code);
      }
      var name := Eval(as_, sc);
      if name.Err? {
        return Failed(name.code);
      }
      if !name.value.Str? {
        return Failed(PARSE_ERROR);
      }
      var n := name.value.text;
      SaveActIs(v.value, n, ttlMs, bindTo, target, as_, overwrite, sc);
      out := SaveAs(v.value, n, ttlMs, overwrite, bindTo, w);
    }

    /** Save under a name, then `$_` and the assignment target. */
    method SaveAs(v: Value, n: string, ttlMs: Option<nat>, overwrite: bool, bindTo: Option<string>, w: World) returns (out: Outcome)
      modifies this
      ensures out == SavedAs(v, n, ttlMs, overwrite, bindTo, old(View()), w).out
      ensures Became(SavedAs(v, n, ttlMs, overwrite, bindTo, old(View()), w).delta)
    {
      ghost var s := View();
      var refused := RunSave(v, n, ttlMs, overwrite, w);
      if refused.Some? {
        return Failed(refused.value);
      }
      last := Some(Fresh(v, w));
      LaidOver(s.names, n, SavedBinding(v, ttlMs, w.now));
      if bindTo.Some? && bindTo.value != "" && bindTo.value != n {
        LaidOverTwice(s.names, n, SavedBinding(v, ttlMs, w.now), bindTo.value, Fresh(v, w));
        bindings := bindings[bindTo.value := Fresh(v, w)];
      }
      return Responded("save", Some(v), Some(n));
    }

    method ExecuteCommand(cmd: Command, bindTo: Option<string>, frames: seq<Frame>, w: World) returns (out: Outcome)
      modifies this
      ensures var e := CommandEffect(cmd, bindTo, frames, old(View()), w); out == e.out && Became(e.delta)
    {
      var sc := Scoped(frames, View(), w);
      match cmd
      case Save(e, as_, ttlMs, overwrite) => out := SaveTo(e, as_, ttlMs, overwrite, bindTo, frames, w);
      case Filter(e, p) =>
        var target := Eval(e, sc);
        if target.Ok? { target := RunFilter(target.value, p, sc); }
        out := AnswerTo("filter", target, bindTo, w);
      case Transform(e, op) => out := AnswerTo("transform", MapResult(Eval(e, sc), v => Transformed(v, op, sc)), bindTo, w);
      case Merge(l, r, key, strategy) =>
        var left := Eval(l, sc);
        var right := Eval(r, sc);
        var v: Result<Value>;
        if left.Err? { v := left; }
        else if right.Err? { v := right; }
        else { v := Join.RunMerge(left.value, right.value, key, strategy, sc); }
        out := AnswerTo("merge", v, bindTo, w);
      case Call(tag, args) =>
        var vals := EvalArgs(tag, args, [], sc);
        if vals.Err? {
          return Failed(vals.code);
        }
        out := AnswerTo("call", w.reply(tag, vals.value), bindTo, w);
      case Wait(ms) => out := if ms > MAX_WAIT_MS then Failed(CAPABILITY_DENIED) else Responded("wait", None, None);
      case Describe(e) => out := ShowTo("describe", MapResult(Eval(e, sc), v => Ok(w.describe(v))), w);
      case Head(e, n) => out := ShowTo("head", MapResult(Eval(e, sc), v => Ok(HeadOf(v, n))), w);
      case Show(e) => out := ShowTo("show", Eval(e, sc), w);
      case Env => out := ShowTo("env", Ok(EnvValue(sc)), w);
      case History(n) => out := ShowTo("history", Ok(w.history(n)), w);
      case Help(topic) => out := ShowTo("help", Ok(w.help(topic)), w);
    }

    /** `executeStmt` with loops run one iteration after the other, as when `concurrency === 1`. */
    method ExecuteStmt(st: Stmt, frames: seq<Frame>, w: World) returns (out: Outcome)
      modifies this
      ensures out == Exec(st, frames, old(View()), w).out
      ensures View() == Apply(old(View()), Exec(st, frames, old(View()), w).delta)
      decreases st, 2, 0
    {
      match st
      case Assign(target, cmd) => out := ExecuteCommand(cmd, Some(target), frames, w);
      case Run(cmd) => out := ExecuteCommand(cmd, None, frames, w);
      case If(_, _, _) => out := ExecuteIf(st, frames, w);
      case Foreach(_, _, _, _, _) => out := ExecuteForeach(st, frames, w);
    }

    method ExecuteIf(st: Stmt, frames: seq<Frame>, w: World) returns (out: Outcome)
      requires st.If?
      modifies this
      ensures out == Exec(st, frames, old(View()), w).out
      ensures View() == Apply(old(View()), Exec(st, frames, old(View()), w).delta)
      decreases st, 1, 0
    {
      IfUnfolds(st, frames, View(), w);
      var yes := EvalPred(st.cond, Scoped(frames, View(), w));
      if yes.Err? {
        out := Failed(yes.code);
      } else {
        var b := ExecuteBody(if yes.value then st.thenBody else st.elseBody, frames, w);
        if b.err.None? {
          SetLast(BranchTag(yes.value), w);
        }
        out := BranchOutcome(yes.value, b);
      }
    }

    method ExecuteForeach(st: Stmt, frames: seq<Frame>, w: World) returns (out: Outcome)
      requires st.Foreach?
      modifies this
      ensures out == Exec(st, frames, old(View()), w).out
      ensures View() == Apply(old(View()), Exec(st, frames, old(View()), w).delta)
      decreases st, 1, 0
    {
      ForeachCases(st, frames, View(), w);
      var v := Eval(st.list, Scoped(frames, View(), w));
      if v.Err? {
        return Failed(v.code);
      }
      if !v.value.List? {
        return Failed(PARSE_ERROR);
      }
      out := ExecuteLoop(st, LoopOf(st, v.value.items), frames, w);
    }

    method ExecuteBody(stmts: seq<Stmt>, frames: seq<Frame>, w: World) returns (out: BodyOut)
      modifies this
      ensures out == ExecBody(stmts, "?", None, frames, old(View()), w).out
      ensures View() == Apply(old(View()), ExecBody(stmts, "?", None, frames, old(View()), w).delta)
      decreases stmts, 0, 1
    {
      out := BodyOut("?", None, None);
      ghost var s := View();
      ghost var delta := NOTHING;
      BodyStarts(stmts, frames, s, w);
      var i := 0;
      while i < |stmts| && out.err.None?
        invariant View() == Apply(s, delta)
        invariant BodyReached(stmts, i, out, frames, s, delta, w)
      {
        BodyAdvances(stmts, i, out, frames, s, delta, w);
        delta := Apply(delta, Exec(stmts[i], frames, View(), w).delta);
        var r := ExecuteStmt(stmts[i], frames, w);
        out := After(out, stmts[i], r);
        i := i + 1;
      }
      BodyEnds(stmts, i, out, frames, s, delta, w);
    }

    method ExecuteLoop(st: Stmt, loop: Loop, frames: seq<Frame>, w: World) returns (out: Outcome)
      requires st.Foreach? && loop.body == st.body
      modifies this
      ensures out == LoopEffect(loop, ExecIterations(st, loop, 0, frames, old(View()), w), frames, w).out
      ensures View() == Apply(old(View()), LoopEffect(loop, ExecIterations(st, loop, 0, frames, old(View()), w), frames, w).delta)
      decreases st, 0, 1
    {
      var results: seq<Value> := [];
      var thrown: Option<ErrorCode> := None;
      ghost var s := View();
      ghost var done: seq<Effect<BodyOut>> := [];
      var i := 0;
      while i < |loop.items| && thrown.None?
        invariant i <= |loop.items| && |results| == i
        invariant View() == Apply(s, SumDelta(done))
        invariant LoopReached(st, loop, i, frames, s, done, results, thrown, w)
      {
        var frames' := frames + [Frame(loop.itemVar, loop.items[i])];
        ghost var e := ExecBody(st.body, "?", None, frames', View(), w);
        LoopAdvances(st, loop, i, frames, s, done, results, w);
        var r := ExecuteBody(st.body, frames', w);
        done := done + [e];
        results := results + [IterationRecord(i, r)];
        thrown := if Fails(loop.onError, r) then r.err else None;
        i := i + 1;
      }
      LoopEnds(st, loop, i, frames, s, done, results, thrown, w);
      if thrown.Some? {
        out := Failed(thrown.value);
      } else {
        SetLast(List(results), w);
        out := Responded("foreach", Some(List(results)), None);
      }
    }
  }

  lemma SaveActIs(v: Value, n: string, ttlMs: Option<nat>, bindTo: Option<string>, target: Expr, as_: Expr, overwrite: bool, sc: Scope)
    requires Eval(target, sc) == Ok(v) && Eval(as_, sc) == Ok(Str(n))
    ensures SaveAct(target, as_, ttlMs, overwrite, bindTo, sc) == SavedAs(v, n, ttlMs, overwrite, bindTo, sc.store, sc.w)
  {
  }

  lemma LaidOver(m: map<string, Binding>, n: string, a: Binding)
    ensures m + map[n := a] == m[n := a]
  {
  }

  lemma LaidOverTwice(m: map<string, Binding>, n: string, a: Binding, t: string, b: Binding)
    ensures m + map[n := a][t := b] == m[n := a][t := b]
  {
  }

  lemma {:induction false} IfUnfolds(st: Stmt, frames: seq<Frame>, s: Store, w: World)
    requires st.If?
    ensures var e := Exec(st, frames, s, w);
            match EvalPred(st.cond, Scoped(frames, s, w))
            case Err(c) => e.out == Failed(c) && Apply(s, e.delta) == s
            case Ok(yes) =>
              var b := ExecBody(if yes then st.thenBody else st.elseBody, "?", None, frames, s, w);
              && e.out == BranchOutcome(yes, b.out)
              && Apply(s, e.delta) == (if b.out.err.Some? then Apply(s, b.delta)
                                       else Apply(Apply(s, b.delta), UpdateLast(BranchTag(yes), w)))
  {
    ApplyNothing(s);
    match EvalPred(st.cond, Scoped(frames, s, w))
    case Err(_) =>
    case Ok(yes) =>
      var b := ExecBody(if yes then st.thenBody else st.elseBody, "?", None, frames, s, w);
      var end := BranchEnd(BranchTag(yes), b.out, frames, w);
      var e := Exec(st, frames, s, w);
      assert e == Then(Reading(PathsPred(st.cond), frames), Then(b, end));
      ApplyNothing(Apply(b.delta, end.delta));
      ApplyNothing(b.delta);
      ApplyAssociative(s, b.delta, end.delta);
  }

  lemma ForeachCases(st: Stmt, frames: seq<Frame>, s: Store, w: World)
    requires st.Foreach?
    ensures var r, e := Eval(st.list, Scoped(frames, s, w)), Exec(st, frames, s, w);
            if r.Ok? && r.value.List? then
              e.out == LoopOutcome(st, r.value.items, frames, s, w).out
              && Apply(s, e.delta) == Apply(s, LoopOutcome(st, r.value.items, frames, s, w).delta)
            else e.out == Failed(if r.Err? then r.code else PARSE_ERROR) && Apply(s, e.delta) == s
  {
    var r := Eval(st.list, Scoped(frames, s, w));
    ApplyNothing(s);
    ApplyNothing(NOTHING);
    if r.Ok? && r.value.List? { ApplyNothing(LoopOutcome(st, r.value.items, frames, s, w).delta); }
  }

  lemma BodyStarts(stmts: seq<Stmt>, frames: seq<Frame>, s: Store, w: World)
    ensures BodyReached(stmts, 0, BodyOut("?", None, None), frames, s, NOTHING, w) && Apply(s, NOTHING) == s
  {
    ApplyNothing(s);
    ApplyNothing(ExecBody(stmts, "?", None, frames, s, w).delta);
    assert stmts[0..] == stmts;
  }

  lemma {:induction false} BodyAdvances(stmts: seq<Stmt>, i: nat, at: BodyOut, frames: seq<Frame>, s: Store, delta: Store, w: World)
    requires i < |stmts| && at.err.None? && BodyReached(stmts, i, at, frames, s, delta, w)
    ensures var e := Exec(stmts[i], frames, Apply(s, delta), w);
            && BodyReached(stmts, i + 1, After(at, stmts[i], e.out), frames, s, Apply(delta, e.delta), w)
            && Apply(Apply(s, delta), e.delta) == Apply(s, Apply(delta, e.delta))
  {
    assert stmts[i..][0] == stmts[i] && stmts[i..][1..] == stmts[i + 1..];
    var e := Exec(stmts[i], frames, Apply(s, delta), w);
    ApplyAssociative(s, delta, e.delta);
    match e.out
    case Failed(_) => ApplyNothing(e.delta);
    case Responded(_, _, b) =>
      ApplyAssociative(delta, e.delta, ExecBody(stmts[i + 1..], VerbName(stmts[i]), b, frames, Apply(Apply(s, delta), e.delta), w).delta);
  }

  lemma BodyEnds(stmts: seq<Stmt>, i: nat, at: BodyOut, frames: seq<Frame>, s: Store, delta: Store, w: World)
    requires BodyReached(stmts, i, at, frames, s, delta, w) && (i == |stmts| || at.err.Some?)
    ensures ExecBody(stmts, "?", None, frames, s, w).out == at && ExecBody(stmts, "?", None, frames, s, w).delta == delta
  {
    ApplyNothing(delta);
  }

  lemma LoopStateAdvances(onError: OnError, done: seq<Effect<BodyOut>>, results: seq<Value>, all: seq<Effect<BodyOut>>,
                          e: Effect<BodyOut>, rest: seq<Effect<BodyOut>>)
    requires LoopState(onError, done, results, None, all, [e] + rest)
    requires Fails(onError, e.out) ==> rest == []
    ensures LoopState(onError, done + [e], results + [IterationRecord(|done|, e.out)],
                      if Fails(onError, e.out) then e.out.err else None, all, rest)
  {
    RecordsAppend(done, e);
    assert done + ([e] + rest) == done + [e] + rest;
  }

  lemma {:induction false} LoopAdvances(st: Stmt, loop: Loop, i: nat, frames: seq<Frame>, s: Store, done: seq<Effect<BodyOut>>, results: seq<Value>, w: World)
    requires st.Foreach? && loop.body == st.body && i < |loop.items|
    requires LoopReached(st, loop, i, frames, s, done, results, None, w)
    ensures var t := Apply(s, SumDelta(done));
            var e := ExecBody(st.body, "?", None, frames + [Frame(loop.itemVar, loop.items[i])], t, w);
            && Apply(t, e.delta) == Apply(s, SumDelta(done + [e]))
            && LoopReached(st, loop, i + 1, frames, s, done + [e], results + [IterationRecord(i, e.out)],
                           if Fails(loop.onError, e.out) then e.out.err else None, w)
  {
    var t := Apply(s, SumDelta(done));
    var e := ExecBody(st.body, "?", None, frames + [Frame(loop.itemVar, loop.items[i])], t, w);
    IterationsUnfold(st, loop, i, frames, t, w);
    SumDeltaAppend(done, e);
    ApplyAssociative(s, SumDelta(done), e.delta);
    var rest := if Fails(loop.onError, e.out) then [] else ExecIterations(st, loop, i + 1, frames, Apply(t, e.delta), w);
    LoopStateAdvances(loop.onError, done, results, ExecIterations(st, loop, 0, frames, s, w), e, rest);
  }

  lemma RecordsAppend(done: seq<Effect<BodyOut>>, e: Effect<BodyOut>)
    ensures Records(done + [e]) == Records(done) + [IterationRecord(|done|, e.out)]
  {
  }

  lemma LoopEnds(st: Stmt, loop: Loop, i: nat, frames: seq<Frame>, s: Store, done: seq<Effect<BodyOut>>, results: seq<Value>,
                 thrown: Option<ErrorCode>, w: World)
    requires st.Foreach? && loop.body == st.body && i <= |loop.items| && (i == |loop.items| || thrown.Some?)
    requires LoopReached(st, loop, i, frames, s, done, results, thrown, w)
    ensures var e := LoopEffect(loop, ExecIterations(st, loop, 0, frames, s, w), frames, w);
            && e.out == (if thrown.Some? then Failed(thrown.value) else Responded("foreach", Some(List(results)), None))
            && Apply(s, e.delta) == (if thrown.Some? then Apply(s, SumDelta(done))
                                     else Apply(Apply(s, SumDelta(done)), UpdateLast(List(results), w)))
  {
    assert done + [] == done;
    ApplyAssociative(s, SumDelta(done), UpdateLast(List(results), w));
  }

  lemma {:induction false} SumDeltaAppend(effs: seq<Effect<BodyOut>>, e: Effect<BodyOut>)
    ensures SumDelta(effs + [e]) == Apply(SumDelta(effs), e.delta)
  {
    if effs == [] {
      var none: seq<Effect<BodyOut>> := [];
      assert effs + [e] == [e] && [e][1..] == none;
      ApplyNothing(e.delta);
    } else {
      SumDeltaAppend(effs[1..], e);
      ApplyAssociative(effs[0].delta, SumDelta(effs[1..]), e.delta);
      assert (effs + [e])[1..] == effs[1..] + [e];
    }
  }
}
