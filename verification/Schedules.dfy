/** Schedule independence: if the sequential run of a statement is race free, every schedule of its
    parallel loops ends with the same response and the same session. */
module Schedules {
  import opened Values
  import opened Ast
  import opened Evaluate
  import opened Runtime
  import opened Locality
  import opened Interleaving
  import opened Chains
  import P = WorkerPool

  // ----- completing a half-run task sequentially -----

  function Finish(t: Task, frames: seq<Frame>, s: Store, w: World): Effect<Outcome>
    requires Shaped(t)
    decreases t, 1, 0
  {
    match t
    case Start(st) => Exec(st, frames, s, w)
    case Calling(tag, vals, bindTo) =>
      var a := CallReply(tag, vals, bindTo, w);
      Effect(a.out, a.delta, NO_READS, true, true, |frames|)
    case Sleeping => Quiet(WaitOver().out, frames)
    case Branch(tag, body) =>
      var b := FinishBody(body, frames, s, w);
      Then(b, BranchEnd(tag, b.out, frames, w))
    case Looping(loop, bodies, _) => LoopEffect(loop, FinishAll(loop, bodies, 0, frames, s, w), frames, w)
    case Ended(out) => Quiet(out, frames)
  }

  function FinishBody(b: Body, frames: seq<Frame>, s: Store, w: World): Effect<BodyOut>
    requires ShapedBody(b)
    decreases b, 0, 0
  {
    match b
    case Ready(todo, verb, binding) => ExecBody(todo, verb, binding, frames, s, w)
    case Busy(cur, curVerb, todo, verb, binding) =>
      var e := Finish(cur, frames, s, w);
      (match e.out
       case Failed(c) => Then(e, Quiet(BodyOut(verb, binding, Some(c)), frames))
       case Responded(_, _, bound) => Then(e, ExecBody(todo, curVerb, bound, frames, Apply(s, e.delta), w)))
    case Over(out) => Quiet(out, frames)
  }

  /** The bodies of iterations k, k+1, ... finished in order. */
  function FinishAll(loop: Loop, bodies: seq<Body>, k: nat, frames: seq<Frame>, s: Store, w: World): (effs: seq<Effect<BodyOut>>)
    requires k <= |bodies| == |loop.items|
    requires forall i :: 0 <= i < |bodies| ==> ShapedBody(bodies[i])
    decreases bodies, 0, |bodies| - k
  {
    if k == |bodies| then []
    else
      var e := FinishBody(bodies[k], ItemFrames(loop, k, frames), s, w);
      if Fails(loop.onError, e.out) then [e]
      else [e] + FinishAll(loop, bodies, k + 1, frames, Apply(s, e.delta), w)
  }

  // ----- locality of completion -----

  lemma {:induction false} FinishLocal(t: Task, frames: seq<Frame>, s: Store, s': Store, w: World)
    requires Shaped(t) && Agree(s, s', Finish(t, frames, s, w).looks)
    ensures Finish(t, frames, s', w) == Finish(t, frames, s, w)
    decreases t, 1, 0
  {
    match t
    case Start(st) => ExecLocal(st, frames, s, s', w);
    case Branch(_, body) => FinishBodyLocal(body, frames, s, s', w);
    case Looping(loop, bodies, _) => FinishAllLocal(loop, bodies, 0, frames, s, s', w);
    case _ =>
  }

  lemma {:induction false} FinishBodyLocal(b: Body, frames: seq<Frame>, s: Store, s': Store, w: World)
    requires ShapedBody(b) && Agree(s, s', FinishBody(b, frames, s, w).looks)
    ensures FinishBody(b, frames, s', w) == FinishBody(b, frames, s, w)
    decreases b, 0, 0
  {
    match b
    case Ready(todo, verb, binding) => ExecBodyLocal(todo, verb, binding, frames, s, s', w);
    case Busy(cur, curVerb, todo, verb, binding) =>
      var e := Finish(cur, frames, s, w);
      FinishLocal(cur, frames, s, s', w);
      match e.out {
        case Failed(_) =>
        case Responded(_, _, bound) =>
          var rest := ExecBody(todo, curVerb, bound, frames, Apply(s, e.delta), w);
          AgreeApply(s, s', e.delta, rest.looks);
          ExecBodyLocal(todo, curVerb, bound, frames, Apply(s, e.delta), Apply(s', e.delta), w);
      }
    case Over(_) =>
  }

  lemma {:induction false} FinishAllLocal(loop: Loop, bodies: seq<Body>, k: nat, frames: seq<Frame>, s: Store, s': Store, w: World)
    requires k <= |bodies| == |loop.items|
    requires forall i :: 0 <= i < |bodies| ==> ShapedBody(bodies[i])
    requires Agree(s, s', SumReads(FinishAll(loop, bodies, k, frames, s, w)))
    ensures FinishAll(loop, bodies, k, frames, s', w) == FinishAll(loop, bodies, k, frames, s, w)
    decreases bodies, 0, |bodies| - k
  {
    if k < |bodies| {
      var e := FinishBody(bodies[k], ItemFrames(loop, k, frames), s, w);
      var effs := FinishAll(loop, bodies, k, frames, s, w);
      assert effs[0] == e;
      FinishBodyLocal(bodies[k], ItemFrames(loop, k, frames), s, s', w);
      if !Fails(loop.onError, e.out) {
        var rest := FinishAll(loop, bodies, k + 1, frames, Apply(s, e.delta), w);
        assert effs[1..] == rest;
        AgreeApply(s, s', e.delta, SumReads(rest));
        FinishAllLocal(loop, bodies, k + 1, frames, Apply(s, e.delta), Apply(s', e.delta), w);
      }
    }
  }

  /** Completion of the bodies as members of a chain. */
  ghost function Fin(loop: Loop, bodies: seq<Body>, frames: seq<Frame>, w: World): Finisher
    requires |bodies| == |loop.items|
    requires forall i :: 0 <= i < |bodies| ==> ShapedBody(bodies[i])
  {
    (i: nat, s: Store) =>
      if i < |bodies| then FinishBody(bodies[i], ItemFrames(loop, i, frames), s, w)
      else Quiet(BodyOut("?", None, None), frames)
  }

  lemma FinIsLocal(loop: Loop, bodies: seq<Body>, frames: seq<Frame>, w: World)
    requires |bodies| == |loop.items|
    requires forall i :: 0 <= i < |bodies| ==> ShapedBody(bodies[i])
    ensures Local(Fin(loop, bodies, frames, w), |bodies|)
  {
    var fin := Fin(loop, bodies, frames, w);
    forall i: nat, s: Store, t: Store | i < |bodies| && Agree(s, t, fin(i, s).looks)
      ensures fin(i, t) == fin(i, s)
    {
      FinishBodyLocal(bodies[i], ItemFrames(loop, i, frames), s, t, w);
    }
  }

  lemma {:induction false} FinishAllIsChain(loop: Loop, bodies: seq<Body>, k: nat, frames: seq<Frame>, s: Store, w: World)
    requires k <= |bodies| == |loop.items|
    requires forall i :: 0 <= i < |bodies| ==> ShapedBody(bodies[i])
    ensures FinishAll(loop, bodies, k, frames, s, w) == Chain(loop.onError, Fin(loop, bodies, frames, w), k, |bodies|, s)
    decreases |bodies| - k
  {
    if k < |bodies| {
      var e := FinishBody(bodies[k], ItemFrames(loop, k, frames), s, w);
      if !Fails(loop.onError, e.out) { FinishAllIsChain(loop, bodies, k + 1, frames, Apply(s, e.delta), w); }
    }
  }

  // ----- the invariant of reachable tasks -----

  ghost predicate Good(t: Task)
    decreases t
  {
    && Shaped(t)
    && match t
       case Branch(_, body) => GoodBody(body)
       case Looping(loop, bodies, ctl) =>
         && (forall i :: 0 <= i < |bodies| ==> GoodBody(bodies[i]))
         && GoodControl(loop, bodies, ctl)
       case _ => true
  }

  ghost predicate GoodBody(b: Body)
    decreases b
  {
    ShapedBody(b) && (b.Busy? ==> Good(b.cur))
  }

  ghost predicate GoodControl(loop: Loop, bodies: seq<Body>, ctl: Control) {
    match ctl
    case At(k) =>
      && !loop.wide && k <= |bodies|
      && forall i :: 0 <= i < k ==> bodies[i].Over? && !Fails(loop.onError, bodies[i].out)
    case Fan(pool) =>
      && loop.wide && P.Inv(pool) && pool.total == |bodies|
      && (forall i :: 0 <= i < |bodies| && pool.results[i].Some? ==>
            bodies[i].Over? && pool.results[i].value == IterationRecord(i, bodies[i].out))
      && (pool.firstError.Some? ==> exists i :: 0 <= i < |bodies| && bodies[i].Over? && Fails(loop.onError, bodies[i].out))
  }

  // ----- every step continues the same run -----

  lemma {:induction false} FreshBodiesAreExec(st: Stmt, loop: Loop, bodies: seq<Body>, k: nat, frames: seq<Frame>, s: Store, w: World)
    requires st.Foreach? && loop.body == st.body && k <= |loop.items| == |bodies|
    requires forall i :: 0 <= i < |bodies| ==> bodies[i] == FreshBody(loop) && ShapedBody(bodies[i])
    ensures FinishAll(loop, bodies, k, frames, s, w) == ExecIterations(st, loop, k, frames, s, w)
    decreases |bodies| - k
  {
    if k < |bodies| {
      var e := ExecBody(st.body, "?", None, ItemFrames(loop, k, frames), s, w);
      if !Fails(loop.onError, e.out) { FreshBodiesAreExec(st, loop, bodies, k + 1, frames, Apply(s, e.delta), w); }
    }
  }

  lemma BeginContinues(cmd: Command, bindTo: Option<string>, frames: seq<Frame>, s: Store, w: World)
    ensures var b := Begin(cmd, bindTo, Scoped(frames, s, w));
            && Good(b.next)
            && Continues(CommandEffect(cmd, bindTo, frames, s, w), b.delta, Finish(b.next, frames, Apply(s, b.delta), w))
  {
    var b := Begin(cmd, bindTo, Scoped(frames, s, w));
    ApplyNothing(b.delta);
    ApplyNothing(CommandEffect(cmd, bindTo, frames, s, w).delta);
  }

  lemma BeginLoopContinues(st: Stmt, v: Value, frames: seq<Frame>, s: Store, w: World)
    requires st.Foreach? && v.List?
    ensures var t := BeginLoop(st.itemVar, v, st.parallel, st.onError, st.body);
            var loop := Loop(st.itemVar, st.onError, st.body, v.items, Concurrency(st.parallel, |v.items|) > 1);
            && Good(t)
            && Finish(t, frames, s, w) == LoopEffect(loop, ExecIterations(st, loop, 0, frames, s, w), frames, w)
  {
    var t := BeginLoop(st.itemVar, v, st.parallel, st.onError, st.body);
    FreshBodiesAreExec(st, t.loop, t.bodies, 0, frames, s, w);
  }

  /** A step that reads but changes nothing leaves what follows it. */
  lemma ReadingContinues<R>(ps: set<Path>, frames: seq<Frame>, f: Effect<R>)
    requires f.raceFree
    ensures Continues(Then(Reading(ps, frames), f), NOTHING, f)
  {
    ApplyNothing(f.delta);
  }

  lemma {:induction false} StartContinues(st: Stmt, frames: seq<Frame>, s: Store, w: World)
    requires Exec(st, frames, s, w).raceFree
    ensures var b := BeginStmt(st, frames, s, w);
            && Good(b.next)
            && Continues(Exec(st, frames, s, w), b.delta, Finish(b.next, frames, Apply(s, b.delta), w))
  {
    var sc := Scoped(frames, s, w);
    ApplyNothing(s);
    match st
    case Assign(target, cmd) => BeginContinues(cmd, Some(target), frames, s, w);
    case Run(cmd) => BeginContinues(cmd, None, frames, s, w);
    case If(p, thenBody, elseBody) =>
      var t := BeginStmt(st, frames, s, w).next;
      match EvalPred(p, sc) {
        case Ok(yes) => assert Exec(st, frames, s, w) == Then(Reading(PathsPred(p), frames), Finish(t, frames, s, w));
        case Err(_) =>
      }
      ReadingContinues(PathsPred(p), frames, Finish(t, frames, s, w));
    case Foreach(itemVar, list, parallel, onError, body) =>
      var t := BeginStmt(st, frames, s, w).next;
      match Eval(list, sc) {
        case Ok(v) => if v.List? { BeginLoopContinues(st, v, frames, s, w); }
        case Err(_) =>
      }
      ReadingContinues(Paths(list), frames, Finish(t, frames, s, w));
  }

  /** What a body does after its running statement. */
  lemma BusyContinues(cur: Task, curVerb: string, todo: seq<Stmt>, verb: string, binding: Option<string>,
                      next: Task, d: Store, frames: seq<Frame>, s: Store, w: World)
    requires Shaped(cur) && Shaped(next)
    requires FinishBody(Busy(cur, curVerb, todo, verb, binding), frames, s, w).raceFree
    requires Continues(Finish(cur, frames, s, w), d, Finish(next, frames, Apply(s, d), w))
    ensures Continues(FinishBody(Busy(cur, curVerb, todo, verb, binding), frames, s, w), d,
                      FinishBody(Busy(next, curVerb, todo, verb, binding), frames, Apply(s, d), w))
  {
    var e, e' := Finish(cur, frames, s, w), Finish(next, frames, Apply(s, d), w);
    ApplyAssociative(s, d, e'.delta);
    match e.out
    case Failed(c) => ThenContinues(e, d, e', Quiet(BodyOut(verb, binding, Some(c)), frames));
    case Responded(_, _, bound) => ThenContinues(e, d, e', ExecBody(todo, curVerb, bound, frames, Apply(s, e.delta), w));
  }

  lemma BetweenContinues(b: Body, frames: seq<Frame>, s: Store, w: World, choice: seq<nat>)
    requires GoodBody(b) && FinishBody(b, frames, s, w).raceFree
    requires b.Busy? ==> b.cur.Ended?
    ensures var st := StepBody(b, frames, s, w, choice);
            GoodBody(st.next) && Continues(FinishBody(b, frames, s, w), st.delta, FinishBody(st.next, frames, Apply(s, st.delta), w))
  {
    var f := FinishBody(b, frames, s, w);
    ApplyNothing(s);
    ApplyNothing(f.delta);
    match b
    case Ready(todo, verb, binding) =>
    case Busy(cur, curVerb, todo, verb, binding) =>
      if cur.out.Responded? { ApplyNothing(ExecBody(todo, curVerb, cur.out.binding, frames, s, w).delta); }
    case Over(_) =>
  }

  lemma OversAreQuiet(loop: Loop, bodies: seq<Body>, k: nat, frames: seq<Frame>, s: Store, w: World)
    requires |bodies| == |loop.items| && k < |bodies|
    requires forall i :: 0 <= i < |bodies| ==> ShapedBody(bodies[i])
    requires GoodControl(loop, bodies, At(k))
    ensures forall i :: 0 <= i < k ==>
              Fin(loop, bodies, frames, w)(i, s) == Quiet(bodies[i].out, ItemFrames(loop, i, frames)) && !Fails(loop.onError, bodies[i].out)
  {
  }

  /** The bodies before a sequential loop's index are over and change nothing. */
  lemma AtMoves(loop: Loop, bodies: seq<Body>, k: nat, b': Body, d: Store, frames: seq<Frame>, s: Store, w: World)
    requires |bodies| == |loop.items| && k < |bodies| && ShapedBody(b')
    requires forall i :: 0 <= i < |bodies| ==> ShapedBody(bodies[i])
    requires GoodControl(loop, bodies, At(k))
    requires Continues(FinishBody(bodies[k], ItemFrames(loop, k, frames), s, w), d,
                       FinishBody(b', ItemFrames(loop, k, frames), Apply(s, d), w))
    requires LoopEffect(loop, FinishAll(loop, bodies, 0, frames, s, w), frames, w).raceFree
    ensures Continues(LoopEffect(loop, FinishAll(loop, bodies, 0, frames, s, w), frames, w), d,
                      LoopEffect(loop, FinishAll(loop, bodies[k := b'], 0, frames, Apply(s, d), w), frames, w))
  {
    var bodies' := bodies[k := b'];
    AtChainMoves(loop, bodies, k, b', d, frames, s, w);
    SequentialLoopContinues(loop, FinishAll(loop, bodies, 0, frames, s, w), k, d,
                            FinishAll(loop, bodies', 0, frames, Apply(s, d), w), frames, w);
  }

  lemma AtChainMoves(loop: Loop, bodies: seq<Body>, k: nat, b': Body, d: Store, frames: seq<Frame>, s: Store, w: World)
    requires |bodies| == |loop.items| && k < |bodies| && ShapedBody(b')
    requires forall i :: 0 <= i < |bodies| ==> ShapedBody(bodies[i])
    requires GoodControl(loop, bodies, At(k))
    requires Continues(FinishBody(bodies[k], ItemFrames(loop, k, frames), s, w), d,
                       FinishBody(b', ItemFrames(loop, k, frames), Apply(s, d), w))
    ensures OneMoved(FinishAll(loop, bodies, 0, frames, s, w), k, d, FinishAll(loop, bodies[k := b'], 0, frames, Apply(s, d), w))
    ensures forall i :: 0 <= i < k ==> FinishAll(loop, bodies, 0, frames, s, w)[i].delta == NOTHING
  {
    var bodies' := bodies[k := b'];
    var fin, fin' := Fin(loop, bodies, frames, w), Fin(loop, bodies', frames, w);
    FinishAllIsChain(loop, bodies, 0, frames, s, w);
    FinishAllIsChain(loop, bodies', 0, frames, Apply(s, d), w);
    OversAreQuiet(loop, bodies, k, frames, s, w);
    OversAreQuiet(loop, bodies, k, frames, Apply(s, d), w);
    SequentialMove(loop.onError, fin, fin', 0, k, |bodies|, d, s);
  }

  lemma FanMoves(loop: Loop, bodies: seq<Body>, j: nat, b': Body, d: Store, frames: seq<Frame>, s: Store, w: World)
    requires |bodies| == |loop.items| && j < |bodies| && ShapedBody(b') && loop.wide
    requires forall i :: 0 <= i < |bodies| ==> ShapedBody(bodies[i])
    requires Continues(FinishBody(bodies[j], ItemFrames(loop, j, frames), s, w), d,
                       FinishBody(b', ItemFrames(loop, j, frames), Apply(s, d), w))
    requires LoopEffect(loop, FinishAll(loop, bodies, 0, frames, s, w), frames, w).raceFree
    ensures Continues(LoopEffect(loop, FinishAll(loop, bodies, 0, frames, s, w), frames, w), d,
                      LoopEffect(loop, FinishAll(loop, bodies[j := b'], 0, frames, Apply(s, d), w), frames, w))
  {
    var bodies' := bodies[j := b'];
    FinIsLocal(loop, bodies, frames, w);
    FinIsLocal(loop, bodies', frames, w);
    FinishAllIsChain(loop, bodies, 0, frames, s, w);
    FinishAllIsChain(loop, bodies', 0, frames, Apply(s, d), w);
    IndependentMove(loop.onError, Fin(loop, bodies, frames, w), Fin(loop, bodies', frames, w), j, |bodies|, d, s);
    ParallelLoopContinues(loop, FinishAll(loop, bodies, 0, frames, s, w), j, d,
                          FinishAll(loop, bodies', 0, frames, Apply(s, d), w), frames, w);
  }

  // ----- loops: control steps and completion -----

  /** Bodies that are over contribute their outcome and nothing else, up to the first that aborts. */
  lemma {:induction false} OverEffects(loop: Loop, bodies: seq<Body>, k: nat, m: nat, frames: seq<Frame>, s: Store, w: World)
    requires k <= m <= |bodies| == |loop.items|
    requires forall i :: 0 <= i < |bodies| ==> ShapedBody(bodies[i])
    requires forall i :: k <= i < m ==> bodies[i].Over? && !Fails(loop.onError, bodies[i].out)
    ensures var effs := FinishAll(loop, bodies, k, frames, s, w);
            && |effs| >= m - k
            && (forall i :: 0 <= i < m - k ==> effs[i] == Quiet(bodies[k + i].out, ItemFrames(loop, k + i, frames)))
            && (m < |bodies| ==> |effs| > m - k && effs[m - k] == FinishBody(bodies[m], ItemFrames(loop, m, frames), s, w))
            && (m < |bodies| && Fails(loop.onError, FinishBody(bodies[m], ItemFrames(loop, m, frames), s, w).out) ==> |effs| == m - k + 1)
            && (m == |bodies| ==> |effs| == m - k)
    decreases m - k
  {
    if k < m {
      ApplyNothing(s);
      OverEffects(loop, bodies, k + 1, m, frames, s, w);
    }
  }

  lemma {:induction false} SumOfQuiet(effs: seq<Effect<BodyOut>>)
    requires forall i :: 0 <= i < |effs| ==> effs[i].delta == NOTHING
    ensures SumDelta(effs) == NOTHING
  {
    if effs != [] { SumOfQuiet(effs[1..]); }
  }

  lemma DoneEffects(loop: Loop, bodies: seq<Body>, vs: seq<Value>, frames: seq<Frame>, s: Store, w: World)
    requires |bodies| == |loop.items| == |vs|
    requires forall i :: 0 <= i < |bodies| ==> ShapedBody(bodies[i])
    requires forall i :: 0 <= i < |bodies| ==>
               bodies[i].Over? && !Fails(loop.onError, bodies[i].out) && vs[i] == IterationRecord(i, bodies[i].out)
    ensures var effs := FinishAll(loop, bodies, 0, frames, s, w);
            && |effs| == |bodies| && Records(effs) == vs && SumDelta(effs) == NOTHING
            && forall i :: 0 <= i < |effs| ==> effs[i] == Quiet(bodies[i].out, ItemFrames(loop, i, frames))
  {
    var effs := FinishAll(loop, bodies, 0, frames, s, w);
    OverEffects(loop, bodies, 0, |bodies|, frames, s, w);
    SumOfQuiet(effs);
    assert Records(effs) == vs;
  }

  /** All bodies over, none aborting: the loop is left with writing its records to `$_`. */
  lemma {:induction false} LoopDoneContinues(loop: Loop, bodies: seq<Body>, vs: seq<Value>, frames: seq<Frame>, s: Store, w: World)
    requires |bodies| == |loop.items| == |vs|
    requires forall i :: 0 <= i < |bodies| ==> ShapedBody(bodies[i])
    requires forall i :: 0 <= i < |bodies| ==>
               bodies[i].Over? && !Fails(loop.onError, bodies[i].out) && vs[i] == IterationRecord(i, bodies[i].out)
    ensures var st := LoopDone(vs, w);
            Continues(LoopEffect(loop, FinishAll(loop, bodies, 0, frames, s, w), frames, w), st.delta,
                      Finish(st.next, frames, Apply(s, st.delta), w))
  {
    DoneEffects(loop, bodies, vs, frames, s, w);
    ApplyNothing(UpdateLast(List(vs), w));
  }

  /** The running body of a sequential loop aborts it. */
  lemma AtAborts(loop: Loop, bodies: seq<Body>, k: nat, frames: seq<Frame>, s: Store, w: World)
    requires k < |bodies| == |loop.items|
    requires forall i :: 0 <= i < |bodies| ==> ShapedBody(bodies[i])
    requires GoodControl(loop, bodies, At(k)) && bodies[k].Over? && Fails(loop.onError, bodies[k].out)
    ensures Continues(LoopEffect(loop, FinishAll(loop, bodies, 0, frames, s, w), frames, w), NOTHING,
                      Finish(Ended(Failed(bodies[k].out.err.value)), frames, s, w))
  {
    AbortEffects(loop, bodies, k, frames, s, w);
  }

  lemma AbortEffects(loop: Loop, bodies: seq<Body>, k: nat, frames: seq<Frame>, s: Store, w: World)
    requires k < |bodies| == |loop.items|
    requires forall i :: 0 <= i < |bodies| ==> ShapedBody(bodies[i])
    requires GoodControl(loop, bodies, At(k)) && bodies[k].Over? && Fails(loop.onError, bodies[k].out)
    ensures var effs := FinishAll(loop, bodies, 0, frames, s, w);
            && |effs| == k + 1 && effs[k].out == bodies[k].out && SumDelta(effs) == NOTHING
            && forall i :: 0 <= i < k ==> effs[i].out == bodies[i].out
  {
    var effs := FinishAll(loop, bodies, 0, frames, s, w);
    OverEffects(loop, bodies, 0, k, frames, s, w);
    forall i | 0 <= i < |effs|
      ensures effs[i].delta == NOTHING
    {
      if i < k { assert effs[i] == Quiet(bodies[i].out, ItemFrames(loop, i, frames)); }
    }
    SumOfQuiet(effs);
  }

  /** A pool whose members all succeed has no failed body, hence no recorded error. */
  lemma SafePoolHasNoError(loop: Loop, bodies: seq<Body>, pool: P.Pool<Value, ErrorCode>, frames: seq<Frame>, s: Store, w: World)
    requires |bodies| == |loop.items|
    requires forall i :: 0 <= i < |bodies| ==> ShapedBody(bodies[i])
    requires GoodControl(loop, bodies, Fan(pool))
    requires LoopEffect(loop, FinishAll(loop, bodies, 0, frames, s, w), frames, w).raceFree
    ensures pool.firstError.None?
    ensures forall i :: 0 <= i < |bodies| && bodies[i].Over? ==> !Fails(loop.onError, bodies[i].out)
  {
    forall i | 0 <= i < |bodies| && bodies[i].Over?
      ensures !Fails(loop.onError, bodies[i].out)
    {
      OutOfOver(loop, bodies, 0, i, frames, s, w);
    }
  }

  lemma {:induction false} OutOfOver(loop: Loop, bodies: seq<Body>, k: nat, i: nat, frames: seq<Frame>, s: Store, w: World)
    requires k <= i < |bodies| == |loop.items|
    requires forall i :: 0 <= i < |bodies| ==> ShapedBody(bodies[i])
    requires |FinishAll(loop, bodies, k, frames, s, w)| == |bodies| - k && bodies[i].Over?
    ensures FinishAll(loop, bodies, k, frames, s, w)[i - k].out == bodies[i].out
    decreases i - k
  {
    if k < i {
      var e := FinishBody(bodies[k], ItemFrames(loop, k, frames), s, w);
      OutOfOver(loop, bodies, k + 1, i, frames, Apply(s, e.delta), w);
    }
  }

  lemma FanControlContinues(loop: Loop, bodies: seq<Body>, pool: P.Pool<Value, ErrorCode>, wk: nat, frames: seq<Frame>, s: Store, w: World)
    requires |bodies| == |loop.items| && wk < |pool.workers|
    requires forall i :: 0 <= i < |bodies| ==> ShapedBody(bodies[i])
    requires GoodControl(loop, bodies, Fan(pool))
    requires LoopEffect(loop, FinishAll(loop, bodies, 0, frames, s, w), frames, w).raceFree
    ensures pool.workers[wk].Top? ==> GoodControl(loop, bodies, Fan(P.Pull(pool, wk)))
    ensures pool.workers[wk].Busy? ==>
              var i := pool.workers[wk].index;
              i < |bodies| && (bodies[i].Over? ==> GoodControl(loop, bodies, Fan(P.Settle(pool, wk, HowSettled(loop, i, bodies[i].out)))))
  {
    SafePoolHasNoError(loop, bodies, pool, frames, s, w);
    if pool.workers[wk].Top? {
      P.PullKeepsInv(pool, wk);
    } else if pool.workers[wk].Busy? {
      var i := pool.workers[wk].index;
      if bodies[i].Over? { P.SettleKeepsInv(pool, wk, HowSettled(loop, i, bodies[i].out)); }
    }
  }

  lemma PoolDone(loop: Loop, bodies: seq<Body>, pool: P.Pool<Value, ErrorCode>, frames: seq<Frame>, s: Store, w: World)
    requires |bodies| == |loop.items|
    requires forall i :: 0 <= i < |bodies| ==> ShapedBody(bodies[i])
    requires GoodControl(loop, bodies, Fan(pool)) && P.AllGone(pool)
    requires LoopEffect(loop, FinishAll(loop, bodies, 0, frames, s, w), frames, w).raceFree
    ensures pool.firstError.None?
    ensures var st := LoopDone(seq(|pool.results|, i requires 0 <= i < |pool.results| => ResultAt(pool, i)), w);
            Continues(LoopEffect(loop, FinishAll(loop, bodies, 0, frames, s, w), frames, w), st.delta,
                      Finish(st.next, frames, Apply(s, st.delta), w))
  {
    SafePoolHasNoError(loop, bodies, pool, frames, s, w);
    P.NormalCompletion(pool);
    var vs := seq(|pool.results|, i requires 0 <= i < |pool.results| => ResultAt(pool, i));
    LoopDoneContinues(loop, bodies, vs, frames, s, w);
  }

  /** The member about to move completes, from the current store, as its slot in the loop says. */
  lemma MemberIsRaceFree(loop: Loop, bodies: seq<Body>, ctl: Control, j: nat, frames: seq<Frame>, s: Store, w: World)
    requires j < |bodies| == |loop.items| && (ctl.At? ==> ctl.k == j)
    requires forall i :: 0 <= i < |bodies| ==> ShapedBody(bodies[i])
    requires GoodControl(loop, bodies, ctl)
    requires LoopEffect(loop, FinishAll(loop, bodies, 0, frames, s, w), frames, w).raceFree
    ensures FinishBody(bodies[j], ItemFrames(loop, j, frames), s, w).raceFree
  {
    var effs := FinishAll(loop, bodies, 0, frames, s, w);
    match ctl
    case At(k) =>
      OverEffects(loop, bodies, 0, k, frames, s, w);
    case Fan(_) =>
      FinIsLocal(loop, bodies, frames, w);
      FinishAllIsChain(loop, bodies, 0, frames, s, w);
      IndependentMemberRunsAlone(loop.onError, Fin(loop, bodies, frames, w), 0, j, |bodies|, s, s);
      assert effs[j].raceFree;
  }

  // ----- the step theorem -----

  /** A step of any kind, in any pool, leaves what the whole task will do unchanged. */
  lemma {:induction false} StepContinues(t: Task, frames: seq<Frame>, s: Store, w: World, choice: seq<nat>)
    requires Good(t) && Finish(t, frames, s, w).raceFree
    ensures var st := StepTask(t, frames, s, w, choice);
            Good(st.next) && Continues(Finish(t, frames, s, w), st.delta, Finish(st.next, frames, Apply(s, st.delta), w))
    decreases t, 1
  {
    ApplyNothing(s);
    ApplyNothing(Finish(t, frames, s, w).delta);
    match t
    case Start(st) => StartContinues(st, frames, s, w);
    case Calling(_, _, _) => ApplyNothing(StepTask(t, frames, s, w, choice).delta);
    case Sleeping =>
    case Branch(tag, body) => BranchContinues(tag, body, frames, s, w, choice);
    case Looping(loop, bodies, At(k)) => AtContinues(loop, bodies, k, frames, s, w, choice);
    case Looping(loop, bodies, Fan(pool)) => FanContinues(loop, bodies, pool, frames, s, w, choice);
    case Ended(_) =>
  }

  lemma {:induction false} StepBodyContinues(b: Body, frames: seq<Frame>, s: Store, w: World, choice: seq<nat>)
    requires GoodBody(b) && FinishBody(b, frames, s, w).raceFree
    ensures var st := StepBody(b, frames, s, w, choice);
            GoodBody(st.next) && Continues(FinishBody(b, frames, s, w), st.delta, FinishBody(st.next, frames, Apply(s, st.delta), w))
    decreases b, 0
  {
    if b.Busy? && !b.cur.Ended? {
      StepContinues(b.cur, frames, s, w, choice);
      var st := StepTask(b.cur, frames, s, w, choice);
      BusyContinues(b.cur, b.curVerb, b.todo, b.verb, b.binding, st.next, st.delta, frames, s, w);
    } else {
      BetweenContinues(b, frames, s, w, choice);
    }
  }

  lemma {:induction false} BranchContinues(tag: Value, body: Body, frames: seq<Frame>, s: Store, w: World, choice: seq<nat>)
    requires GoodBody(body) && Finish(Branch(tag, body), frames, s, w).raceFree
    ensures var st := StepTask(Branch(tag, body), frames, s, w, choice);
            && Good(st.next)
            && Continues(Finish(Branch(tag, body), frames, s, w), st.delta, Finish(st.next, frames, Apply(s, st.delta), w))
    decreases body, 1
  {
    if body.Over? {
      var e := BranchEnd(tag, body.out, frames, w);
      ApplyNothing(e.delta);
    } else {
      StepBodyContinues(body, frames, s, w, choice);
      var b := StepBody(body, frames, s, w, choice);
      var f := FinishBody(body, frames, s, w);
      ThenContinues(f, b.delta, FinishBody(b.next, frames, Apply(s, b.delta), w), BranchEnd(tag, f.out, frames, w));
    }
  }

  /** A plain loop ends, aborts or goes on to its next index. */
  lemma AtControlContinues(loop: Loop, bodies: seq<Body>, k: nat, frames: seq<Frame>, s: Store, w: World, choice: seq<nat>)
    requires Good(Looping(loop, bodies, At(k))) && Finish(Looping(loop, bodies, At(k)), frames, s, w).raceFree
    requires k < |bodies| ==> bodies[k].Over?
    ensures var st := StepTask(Looping(loop, bodies, At(k)), frames, s, w, choice);
            && Good(st.next)
            && Continues(Finish(Looping(loop, bodies, At(k)), frames, s, w), st.delta, Finish(st.next, frames, Apply(s, st.delta), w))
  {
    ApplyNothing(s);
    ApplyNothing(Finish(Looping(loop, bodies, At(k)), frames, s, w).delta);
    if k >= |bodies| {
      var vs := seq(|bodies|, i requires 0 <= i < |bodies| => RecordAt(bodies, i));
      LoopDoneContinues(loop, bodies, vs, frames, s, w);
    } else if Fails(loop.onError, bodies[k].out) {
      AtAborts(loop, bodies, k, frames, s, w);
    }
  }

  lemma {:induction false} AtContinues(loop: Loop, bodies: seq<Body>, k: nat, frames: seq<Frame>, s: Store, w: World, choice: seq<nat>)
    requires Good(Looping(loop, bodies, At(k))) && Finish(Looping(loop, bodies, At(k)), frames, s, w).raceFree
    ensures var st := StepTask(Looping(loop, bodies, At(k)), frames, s, w, choice);
            && Good(st.next)
            && Continues(Finish(Looping(loop, bodies, At(k)), frames, s, w), st.delta, Finish(st.next, frames, Apply(s, st.delta), w))
    decreases bodies, 1
  {
    if k >= |bodies| || bodies[k].Over? {
      AtControlContinues(loop, bodies, k, frames, s, w, choice);
    } else {
      MemberIsRaceFree(loop, bodies, At(k), k, frames, s, w);
      StepBodyContinues(bodies[k], ItemFrames(loop, k, frames), s, w, choice);
      var b := StepBody(bodies[k], ItemFrames(loop, k, frames), s, w, choice);
      AtMoves(loop, bodies, k, b.next, b.delta, frames, s, w);
    }
  }

  /** Moving a body that no result slot and no error refers to keeps the pool's bookkeeping true. */
  lemma FanBodyKeepsControl(loop: Loop, bodies: seq<Body>, pool: P.Pool<Value, ErrorCode>, i: nat, b': Body)
    requires GoodControl(loop, bodies, Fan(pool)) && i < |bodies| && !bodies[i].Over?
    ensures GoodControl(loop, bodies[i := b'], Fan(pool))
  {
    if pool.firstError.Some? {
      var j :| 0 <= j < |bodies| && bodies[j].Over? && Fails(loop.onError, bodies[j].out);
      assert bodies[i := b'][j] == bodies[j];
    }
  }

  lemma {:induction false} FanBodyContinues(loop: Loop, bodies: seq<Body>, pool: P.Pool<Value, ErrorCode>, i: nat, frames: seq<Frame>, s: Store,
                                            w: World, choice: seq<nat>)
    requires Good(Looping(loop, bodies, Fan(pool))) && Finish(Looping(loop, bodies, Fan(pool)), frames, s, w).raceFree
    requires i < |bodies| && !bodies[i].Over?
    ensures var b := StepBody(bodies[i], ItemFrames(loop, i, frames), s, w, choice);
            var next := Looping(loop, bodies[i := b.next], Fan(pool));
            Good(next) && Continues(Finish(Looping(loop, bodies, Fan(pool)), frames, s, w), b.delta, Finish(next, frames, Apply(s, b.delta), w))
    decreases bodies, 0
  {
    MemberIsRaceFree(loop, bodies, Fan(pool), i, frames, s, w);
    StepBodyContinues(bodies[i], ItemFrames(loop, i, frames), s, w, choice);
    var b := StepBody(bodies[i], ItemFrames(loop, i, frames), s, w, choice);
    FanMoves(loop, bodies, i, b.next, b.delta, frames, s, w);
    FanBodyKeepsControl(loop, bodies, pool, i, b.next);
  }

  /** A worker pulls, settles or leaves: the session and what is left to do stay. */
  lemma FanWorkerContinues(loop: Loop, bodies: seq<Body>, pool: P.Pool<Value, ErrorCode>, wk: nat, frames: seq<Frame>, s: Store, w: World,
                           choice: seq<nat>)
    requires Good(Looping(loop, bodies, Fan(pool))) && Finish(Looping(loop, bodies, Fan(pool)), frames, s, w).raceFree
    requires !P.AllGone(pool) && choice != [] && choice[0] == wk && wk < |pool.workers|
    requires pool.workers[wk].Busy? ==> pool.workers[wk].index < |bodies| && bodies[pool.workers[wk].index].Over?
    ensures var st := StepTask(Looping(loop, bodies, Fan(pool)), frames, s, w, choice);
            && Good(st.next)
            && Continues(Finish(Looping(loop, bodies, Fan(pool)), frames, s, w), st.delta, Finish(st.next, frames, Apply(s, st.delta), w))
  {
    ApplyNothing(s);
    ApplyNothing(Finish(Looping(loop, bodies, Fan(pool)), frames, s, w).delta);
    FanControlContinues(loop, bodies, pool, wk, frames, s, w);
  }

  lemma {:induction false} FanContinues(loop: Loop, bodies: seq<Body>, pool: P.Pool<Value, ErrorCode>, frames: seq<Frame>, s: Store, w: World,
                                        choice: seq<nat>)
    requires Good(Looping(loop, bodies, Fan(pool))) && Finish(Looping(loop, bodies, Fan(pool)), frames, s, w).raceFree
    ensures var st := StepTask(Looping(loop, bodies, Fan(pool)), frames, s, w, choice);
            && Good(st.next)
            && Continues(Finish(Looping(loop, bodies, Fan(pool)), frames, s, w), st.delta, Finish(st.next, frames, Apply(s, st.delta), w))
    decreases bodies, 1
  {
    ApplyNothing(s);
    ApplyNothing(Finish(Looping(loop, bodies, Fan(pool)), frames, s, w).delta);
    if P.AllGone(pool) {
      PoolDone(loop, bodies, pool, frames, s, w);
    } else if choice != [] && choice[0] < |pool.workers| {
      var wk := choice[0];
      FanControlContinues(loop, bodies, pool, wk, frames, s, w);
      if pool.workers[wk].Busy? && !bodies[pool.workers[wk].index].Over? {
        FanBodyContinues(loop, bodies, pool, pool.workers[wk].index, frames, s, w, choice[1..]);
      } else {
        FanWorkerContinues(loop, bodies, pool, wk, frames, s, w, choice);
      }
    }
  }

  // ----- whole schedules -----

  datatype Config = Config(task: Task, store: Store)

  /** The system after a schedule: one choice per step. */
  function RunSchedule(st: Stmt, s: Store, w: World, schedule: seq<seq<nat>>): (c: Config)
    ensures Shaped(c.task)
  {
    if schedule == [] then Config(Start(st), s)
    else
      var c := RunSchedule(st, s, w, schedule[..|schedule| - 1]);
      var step := StepTask(c.task, [], c.store, w, schedule[|schedule| - 1]);
      StepKeepsShape(c.task, [], c.store, w, schedule[|schedule| - 1]);
      Config(step.next, Apply(c.store, step.delta))
  }

  lemma {:induction false} StepKeepsShape(t: Task, frames: seq<Frame>, s: Store, w: World, choice: seq<nat>)
    requires Shaped(t)
    ensures Shaped(StepTask(t, frames, s, w, choice).next)
    decreases t, 1
  {
    match t
    case Branch(_, body) => StepBodyKeepsShape(body, frames, s, w, choice);
    case Looping(loop, bodies, At(k)) =>
      if k < |bodies| { StepBodyKeepsShape(bodies[k], ItemFrames(loop, k, frames), s, w, choice); }
    case Looping(loop, bodies, Fan(pool)) =>
      if choice != [] && choice[0] < |pool.workers| && pool.workers[choice[0]].Busy? && pool.workers[choice[0]].index < |bodies| {
        var i := pool.workers[choice[0]].index;
        StepBodyKeepsShape(bodies[i], ItemFrames(loop, i, frames), s, w, choice[1..]);
      }
    case _ =>
  }

  lemma {:induction false} StepBodyKeepsShape(b: Body, frames: seq<Frame>, s: Store, w: World, choice: seq<nat>)
    requires ShapedBody(b)
    ensures ShapedBody(StepBody(b, frames, s, w, choice).next)
    decreases b, 0
  {
    if b.Busy? && !b.cur.Ended? { StepKeepsShape(b.cur, frames, s, w, choice); }
  }

  lemma {:induction false} ScheduleContinues(st: Stmt, s: Store, w: World, schedule: seq<seq<nat>>)
    requires Exec(st, [], s, w).raceFree
    ensures var c := RunSchedule(st, s, w, schedule);
            var f := Finish(c.task, [], c.store, w);
            && Good(c.task) && f.raceFree
            && f.out == Exec(st, [], s, w).out
            && Apply(c.store, f.delta) == Apply(s, Exec(st, [], s, w).delta)
  {
    if schedule != [] {
      var front, last := schedule[..|schedule| - 1], schedule[|schedule| - 1];
      ScheduleContinues(st, s, w, front);
      var c := RunSchedule(st, s, w, front);
      StepContinues(c.task, [], c.store, w, last);
      var step := StepTask(c.task, [], c.store, w, last);
      ApplyAssociative(c.store, step.delta, Finish(step.next, [], Apply(c.store, step.delta), w).delta);
    }
  }

  /** The theorem: a race-free statement ends, under every schedule that runs it to its end, with the
      response and the session of its sequential run. */
  lemma {:induction false} ScheduleIndependence(st: Stmt, s: Store, w: World, schedule: seq<seq<nat>>)
    requires Exec(st, [], s, w).raceFree
    requires RunSchedule(st, s, w, schedule).task.Ended?
    ensures RunSchedule(st, s, w, schedule).task.out == Exec(st, [], s, w).out
    ensures RunSchedule(st, s, w, schedule).store == Apply(s, Exec(st, [], s, w).delta)
  {
    ScheduleContinues(st, s, w, schedule);
    ApplyNothing(RunSchedule(st, s, w, schedule).store);
  }
}
