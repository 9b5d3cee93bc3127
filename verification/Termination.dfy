/** Every schedule of a race-free statement ends, and takes the same number of effective steps. */
module Termination {
  import opened Values
  import opened Ast
  import opened Evaluate
  import opened Runtime
  import opened Locality
  import opened Interleaving
  import opened Chains
  import opened Schedules
  import opened Work
  import opened Progress
  import P = WorkerPool

  // ----- the pool -----

  lemma {:induction false} GoneWeighNothing(ws: seq<P.Worker>)
    requires forall w :: 0 <= w < |ws| ==> ws[w].Gone?
    ensures P.Weight(ws) == 0
  {
    if ws != [] { GoneWeighNothing(ws[..|ws| - 1]); }
  }

  /** Without an error every move of a worker is one step less. */
  lemma MoveTakesOne<R, E>(p: P.Pool<R, E>, w: nat, r: R)
    requires P.Inv(p) && w < |p.workers| && p.firstError.None?
    ensures p.workers[w].Top? ==> P.Remaining(P.Pull(p, w)) + 1 == P.Remaining(p)
    ensures p.workers[w].Busy? ==> P.Remaining(P.Settle(p, w, P.Finished(r))) + 1 == P.Remaining(p)
  {
    assert forall x: P.Worker :: [x][..0] == [];
    if p.workers[w].Top? {
      P.WeightOfUpdate(p.workers, w, P.Pull(p, w).workers[w]);
    } else if p.workers[w].Busy? {
      P.WeightOfUpdate(p.workers, w, P.Top);
    }
  }

  // ----- beginning -----

  lemma FreshMember(loop: Loop, frames: seq<Frame>, s: Store, w: World)
    ensures ShapedBody(FreshBody(loop))
    ensures BodyWork(FreshBody(loop), frames, s, w) == StmtsWork(loop.body, frames, s, w)
    ensures FinishBody(FreshBody(loop), frames, s, w) == ExecBody(loop.body, "?", None, frames, s, w)
  {
  }

  function FreshBodies(loop: Loop): (bodies: seq<Body>)
    ensures |bodies| == |loop.items|
    ensures forall i :: 0 <= i < |bodies| ==> bodies[i] == FreshBody(loop) && ShapedBody(bodies[i])
  {
    seq(|loop.items|, _ => FreshBody(loop))
  }

  lemma FreshInTurn(st: Stmt, loop: Loop, frames: seq<Frame>, s: Store, w: World)
    requires st.Foreach? && loop.body == st.body
    ensures BodiesInTurn(loop, FreshBodies(loop), 0, frames, s, w) ==
            ChainWork(loop.onError, IterationFin(st, loop, frames, w), IterationWorker(st, loop, frames, w), 0, |loop.items|, s)
  {
    var fin, fin' := IterationFin(st, loop, frames, w), Fin(loop, FreshBodies(loop), frames, w);
    var work, work' := IterationWorker(st, loop, frames, w), LeftWorker(loop, FreshBodies(loop), frames, w);
    forall i: nat, u: Store | i < |loop.items|
      ensures fin'(i, u) == fin(i, u) && work'(i, u) == work(i, u)
    {
      FreshMember(loop, ItemFrames(loop, i, frames), u, w);
      assert FreshBodies(loop)[i] == FreshBody(loop);
      assert fin'(i, u) == ExecBody(st.body, "?", None, ItemFrames(loop, i, frames), u, w);
      assert work'(i, u) == StmtsWork(st.body, ItemFrames(loop, i, frames), u, w);
    }
    SameChainWork(loop.onError, fin, fin', work, work', 0, |loop.items|, s);
  }

  lemma FreshTogether(st: Stmt, loop: Loop, frames: seq<Frame>, s: Store, w: World)
    requires st.Foreach? && loop.body == st.body
    ensures LeftOfEach(loop, FreshBodies(loop), frames, s, w) == MemberWorks(st, loop, frames, s, w)
  {
    var a, b := LeftOfEach(loop, FreshBodies(loop), frames, s, w), MemberWorks(st, loop, frames, s, w);
    forall j | 0 <= j < |a|
      ensures a[j] == b[j]
    {
      FreshMember(loop, ItemFrames(loop, j, frames), s, w);
    }
  }

  lemma BeginTakesOne(cmd: Command, bindTo: Option<string>, frames: seq<Frame>, s: Store, w: World)
    ensures var b := Begin(cmd, bindTo, Scoped(frames, s, w));
            Shaped(b.next) && TaskWork(b.next, frames, Apply(s, b.delta), w) + 1 == CommandWork(cmd, Scoped(frames, s, w))
  {
  }

  lemma BeginLoopWork(st: Stmt, v: Value, frames: seq<Frame>, s: Store, w: World)
    requires st.Foreach? && v.List? && Eval(st.list, Scoped(frames, s, w)) == Ok(v)
    ensures var t := BeginLoop(st.itemVar, v, st.parallel, st.onError, st.body);
            Shaped(t) && TaskWork(t, frames, s, w) + 1 == StmtWork(st, frames, s, w)
  {
    var t := BeginLoop(st.itemVar, v, st.parallel, st.onError, st.body);
    assert t.bodies == FreshBodies(t.loop);
    if t.loop.wide {
      FreshTogether(st, t.loop, frames, s, w);
    } else {
      FreshInTurn(st, t.loop, frames, s, w);
    }
  }

  lemma {:induction false} StartTakesOne(st: Stmt, frames: seq<Frame>, s: Store, w: World)
    ensures var b := BeginStmt(st, frames, s, w);
            Shaped(b.next) && TaskWork(b.next, frames, Apply(s, b.delta), w) + 1 == StmtWork(st, frames, s, w)
  {
    ApplyNothing(s);
    match st
    case Assign(target, cmd) => BeginTakesOne(cmd, Some(target), frames, s, w);
    case Run(cmd) => BeginTakesOne(cmd, None, frames, s, w);
    case If(_, _, _) =>
    case Foreach(_, list, _, _, _) =>
      var r := Eval(list, Scoped(frames, s, w));
      if r.Ok? && r.value.List? { BeginLoopWork(st, r.value, frames, s, w); }
  }

  // ----- one step -----

  /** The step changed nothing at all, or there is one step less to go. */
  ghost predicate TaskAdvances(t: Task, frames: seq<Frame>, s: Store, w: World, step: Stepped<Task>)
    requires Shaped(t)
  {
    step == Stay(t) || (Shaped(step.next) && TaskWork(step.next, frames, Apply(s, step.delta), w) + 1 == TaskWork(t, frames, s, w))
  }

  ghost predicate BodyAdvances(b: Body, frames: seq<Frame>, s: Store, w: World, step: Stepped<Body>)
    requires ShapedBody(b)
  {
    step == Stay(b) || (ShapedBody(step.next) && BodyWork(step.next, frames, Apply(s, step.delta), w) + 1 == BodyWork(b, frames, s, w))
  }

  lemma BetweenTakesOne(b: Body, frames: seq<Frame>, s: Store, w: World, choice: seq<nat>)
    requires GoodBody(b) && (b.Busy? ==> b.cur.Ended?)
    ensures BodyAdvances(b, frames, s, w, StepBody(b, frames, s, w, choice))
  {
    ApplyNothing(s);
    match b
    case Ready(todo, verb, binding) =>
      var next := StepBody(b, frames, s, w, choice).next;
      assert BodyWork(b, frames, s, w) == StmtsWork(todo, frames, s, w);
      if todo == [] {
        assert BodyWork(next, frames, s, w) == 0;
      } else {
        TakenUp(todo, verb, binding, frames, s, w);
        assert ShapedBody(next) && next == Busy(Start(todo[0]), VerbName(todo[0]), todo[1..], verb, binding);
      }
    case Busy(cur, _, todo, _, _) =>
      assert Finish(cur, frames, s, w) == Quiet(cur.out, frames);
      assert TaskWork(cur, frames, s, w) == 0;
    case Over(_) =>
  }

  lemma TakenUp(todo: seq<Stmt>, verb: string, binding: Option<string>, frames: seq<Frame>, s: Store, w: World)
    requires todo != []
    ensures BodyWork(Busy(Start(todo[0]), VerbName(todo[0]), todo[1..], verb, binding), frames, s, w) + 1 == StmtsWork(todo, frames, s, w)
  {
    assert Finish(Start(todo[0]), frames, s, w) == Exec(todo[0], frames, s, w);
  }

  lemma BusyTakesOne(b: Body, next: Task, d: Store, frames: seq<Frame>, s: Store, w: World)
    requires GoodBody(b) && b.Busy? && Shaped(next)
    requires Continues(Finish(b.cur, frames, s, w), d, Finish(next, frames, Apply(s, d), w))
    requires TaskAdvances(b.cur, frames, s, w, Stepped(next, d))
    ensures BodyAdvances(b, frames, s, w, Stepped(b.(cur := next), d))
  {
    var e' := Finish(next, frames, Apply(s, d), w);
    ApplyAssociative(s, d, e'.delta);
  }

  lemma {:induction false} StepTakesOne(t: Task, frames: seq<Frame>, s: Store, w: World, choice: seq<nat>)
    requires Good(t) && Finish(t, frames, s, w).raceFree
    ensures TaskAdvances(t, frames, s, w, StepTask(t, frames, s, w, choice))
    decreases t, 1
  {
    ApplyNothing(s);
    match t
    case Start(st) => StartTakesOne(st, frames, s, w);
    case Branch(tag, body) => if !body.Over? { StepBodyTakesOne(body, frames, s, w, choice); }
    case Looping(loop, bodies, At(k)) => AtTakesOne(loop, bodies, k, frames, s, w, choice);
    case Looping(loop, bodies, Fan(pool)) => FanTakesOne(loop, bodies, pool, frames, s, w, choice);
    case _ =>
  }

  lemma {:induction false} StepBodyTakesOne(b: Body, frames: seq<Frame>, s: Store, w: World, choice: seq<nat>)
    requires GoodBody(b) && FinishBody(b, frames, s, w).raceFree
    ensures BodyAdvances(b, frames, s, w, StepBody(b, frames, s, w, choice))
    decreases b, 0
  {
    if b.Busy? && !b.cur.Ended? {
      StepContinues(b.cur, frames, s, w, choice);
      StepTakesOne(b.cur, frames, s, w, choice);
      var st := StepTask(b.cur, frames, s, w, choice);
      BusyTakesOne(b, st.next, st.delta, frames, s, w);
    } else {
      BetweenTakesOne(b, frames, s, w, choice);
    }
  }

  // ----- plain loops -----

  /** The body at the index moves: the later ones begin where they would have begun. */
  lemma AtMoveTakesOne(loop: Loop, bodies: seq<Body>, k: nat, b': Body, d: Store, frames: seq<Frame>, s: Store, w: World)
    requires |bodies| == |loop.items| && k < |bodies| && ShapedBody(b')
    requires forall i :: 0 <= i < |bodies| ==> ShapedBody(bodies[i])
    requires Continues(FinishBody(bodies[k], ItemFrames(loop, k, frames), s, w), d,
                       FinishBody(b', ItemFrames(loop, k, frames), Apply(s, d), w))
    requires BodyWork(b', ItemFrames(loop, k, frames), Apply(s, d), w) + 1 == BodyWork(bodies[k], ItemFrames(loop, k, frames), s, w)
    ensures BodiesInTurn(loop, bodies[k := b'], k, frames, Apply(s, d), w) + 1 == BodiesInTurn(loop, bodies, k, frames, s, w)
  {
    var f, g := FinishBody(bodies[k], ItemFrames(loop, k, frames), s, w), FinishBody(b', ItemFrames(loop, k, frames), Apply(s, d), w);
    ApplyAssociative(s, d, g.delta);
    if !Fails(loop.onError, f.out) {
      var bodies' := bodies[k := b'];
      SameChainWork(loop.onError, Fin(loop, bodies, frames, w), Fin(loop, bodies', frames, w),
                    LeftWorker(loop, bodies, frames, w), LeftWorker(loop, bodies', frames, w), k + 1, |bodies|, Apply(s, f.delta));
    }
  }

  lemma AtOverTakesOne(loop: Loop, bodies: seq<Body>, k: nat, frames: seq<Frame>, s: Store, w: World)
    requires k < |bodies| == |loop.items|
    requires forall i :: 0 <= i < |bodies| ==> ShapedBody(bodies[i])
    requires bodies[k].Over?
    ensures BodiesInTurn(loop, bodies, k, frames, s, w) ==
            1 + if Fails(loop.onError, bodies[k].out) then 0 else BodiesInTurn(loop, bodies, k + 1, frames, s, w)
  {
    ApplyNothing(s);
    assert FinishBody(bodies[k], ItemFrames(loop, k, frames), s, w) == Quiet(bodies[k].out, ItemFrames(loop, k, frames));
    assert BodyWork(bodies[k], ItemFrames(loop, k, frames), s, w) == 0;
    var fin, work := Fin(loop, bodies, frames, w), LeftWorker(loop, bodies, frames, w);
    assert fin(k, s) == Quiet(bodies[k].out, ItemFrames(loop, k, frames)) && work(k, s) == 0;
  }

  lemma AtControlTakesOne(loop: Loop, bodies: seq<Body>, k: nat, frames: seq<Frame>, s: Store, w: World, choice: seq<nat>)
    requires Good(Looping(loop, bodies, At(k))) && (k < |bodies| ==> bodies[k].Over?)
    ensures TaskAdvances(Looping(loop, bodies, At(k)), frames, s, w, StepTask(Looping(loop, bodies, At(k)), frames, s, w, choice))
  {
    ApplyNothing(s);
    if k < |bodies| {
      AtOverTakesOne(loop, bodies, k, frames, s, w);
    }
  }

  lemma {:induction false} AtBodyTakesOne(loop: Loop, bodies: seq<Body>, k: nat, frames: seq<Frame>, s: Store, w: World, choice: seq<nat>)
    requires Good(Looping(loop, bodies, At(k))) && Finish(Looping(loop, bodies, At(k)), frames, s, w).raceFree
    requires k < |bodies|
    ensures var b := StepBody(bodies[k], ItemFrames(loop, k, frames), s, w, choice);
            TaskAdvances(Looping(loop, bodies, At(k)), frames, s, w, Stepped(Looping(loop, bodies[k := b.next], At(k)), b.delta))
    decreases bodies, 0
  {
    MemberIsRaceFree(loop, bodies, At(k), k, frames, s, w);
    StepBodyContinues(bodies[k], ItemFrames(loop, k, frames), s, w, choice);
    StepBodyTakesOne(bodies[k], ItemFrames(loop, k, frames), s, w, choice);
    var b := StepBody(bodies[k], ItemFrames(loop, k, frames), s, w, choice);
    if b == Stay(bodies[k]) {
      assert bodies[k := bodies[k]] == bodies;
    } else {
      AtMoveTakesOne(loop, bodies, k, b.next, b.delta, frames, s, w);
    }
  }

  lemma {:induction false} AtTakesOne(loop: Loop, bodies: seq<Body>, k: nat, frames: seq<Frame>, s: Store, w: World, choice: seq<nat>)
    requires Good(Looping(loop, bodies, At(k))) && Finish(Looping(loop, bodies, At(k)), frames, s, w).raceFree
    ensures TaskAdvances(Looping(loop, bodies, At(k)), frames, s, w, StepTask(Looping(loop, bodies, At(k)), frames, s, w, choice))
    decreases bodies, 1
  {
    if k >= |bodies| || bodies[k].Over? {
      AtControlTakesOne(loop, bodies, k, frames, s, w, choice);
    } else {
      AtBodyTakesOne(loop, bodies, k, frames, s, w, choice);
    }
  }

  // ----- parallel loops -----

  lemma AgreeBeside(s: Store, d: Store, r: Reads)
    requires r.names !! d.names.Keys && !r.last && !r.all
    ensures Agree(s, Apply(s, d), r)
  {
  }

  /** What a step of member i writes, no other member looks at. */
  lemma OthersUntroubled(loop: Loop, bodies: seq<Body>, i: nat, d: Store, rest: Store, frames: seq<Frame>, s: Store, w: World)
    requires i < |bodies| == |loop.items| && loop.wide
    requires forall j :: 0 <= j < |bodies| ==> ShapedBody(bodies[j])
    requires LoopEffect(loop, FinishAll(loop, bodies, 0, frames, s, w), frames, w).raceFree
    requires FinishBody(bodies[i], ItemFrames(loop, i, frames), s, w).delta == Apply(d, rest)
    ensures forall j :: 0 <= j < |bodies| && j != i ==>
              Untroubled(FinishBody(bodies[j], ItemFrames(loop, j, frames), s, w), s, Apply(s, d))
  {
    MembersRunAlone(loop, bodies, frames, s, w);
    var effs := FinishAll(loop, bodies, 0, frames, s, w);
    forall j | 0 <= j < |bodies| && j != i
      ensures Untroubled(FinishBody(bodies[j], ItemFrames(loop, j, frames), s, w), s, Apply(s, d))
    {
      assert effs[i].delta.names.Keys !! effs[j].delta.names.Keys + effs[j].looks.names;
      assert d.names.Keys <= effs[i].delta.names.Keys;
      AgreeBeside(s, d, effs[j].looks);
    }
  }

  /** One member moves; the others, which see nothing of it, have as much left as before. */
  lemma OthersHaveAsMuchLeft(loop: Loop, bodies: seq<Body>, i: nat, b': Body, frames: seq<Frame>, s: Store, s': Store, w: World)
    requires i < |bodies| == |loop.items| && ShapedBody(b')
    requires forall j :: 0 <= j < |bodies| ==> ShapedBody(bodies[j]) && GoodBody(bodies[j])
    requires forall j :: 0 <= j < |bodies| && j != i ==> Untroubled(FinishBody(bodies[j], ItemFrames(loop, j, frames), s, w), s, s')
    ensures Sum(LeftOfEach(loop, bodies[i := b'], frames, s', w)) + BodyWork(bodies[i], ItemFrames(loop, i, frames), s, w)
            == Sum(LeftOfEach(loop, bodies, frames, s, w)) + BodyWork(b', ItemFrames(loop, i, frames), s', w)
  {
    var before, n := LeftOfEach(loop, bodies, frames, s, w), BodyWork(b', ItemFrames(loop, i, frames), s', w);
    forall j | 0 <= j < |bodies| && j != i
      ensures BodyWork(bodies[j], ItemFrames(loop, j, frames), s', w) == before[j]
    {
      assert Untroubled(FinishBody(bodies[j], ItemFrames(loop, j, frames), s, w), s, s');
      BodyWorkLocal(bodies[j], ItemFrames(loop, j, frames), s, s', w);
    }
    assert LeftOfEach(loop, bodies[i := b'], frames, s', w) == before[i := n];
    SumOfUpdate(before, i, n);
  }

  lemma FanEndTakesOne(loop: Loop, bodies: seq<Body>, pool: P.Pool<Value, ErrorCode>, frames: seq<Frame>, s: Store, w: World)
    requires Good(Looping(loop, bodies, Fan(pool))) && P.AllGone(pool) && pool.firstError.None?
    ensures TaskWork(Looping(loop, bodies, Fan(pool)), frames, s, w) == 1
  {
    P.NormalCompletion(pool);
    assert pool.workers[0].Gone?;
    GoneWeighNothing(pool.workers);
    var left := LeftOfEach(loop, bodies, frames, s, w);
    forall i | 0 <= i < |left|
      ensures left[i] == 0
    {
      assert bodies[i].Over?;
      assert BodyWork(bodies[i], ItemFrames(loop, i, frames), s, w) == 0;
    }
    SumOfNothing(left);
  }

  lemma FanMemberTakesOne(loop: Loop, bodies: seq<Body>, pool: P.Pool<Value, ErrorCode>, i: nat, b: Stepped<Body>, frames: seq<Frame>,
                          s: Store, w: World)
    requires Good(Looping(loop, bodies, Fan(pool))) && Finish(Looping(loop, bodies, Fan(pool)), frames, s, w).raceFree
    requires i < |bodies| && ShapedBody(b.next)
    requires Continues(FinishBody(bodies[i], ItemFrames(loop, i, frames), s, w), b.delta,
                       FinishBody(b.next, ItemFrames(loop, i, frames), Apply(s, b.delta), w))
    requires BodyAdvances(bodies[i], ItemFrames(loop, i, frames), s, w, b)
    ensures TaskAdvances(Looping(loop, bodies, Fan(pool)), frames, s, w, Stepped(Looping(loop, bodies[i := b.next], Fan(pool)), b.delta))
  {
    var bodies' := bodies[i := b.next];
    if b == Stay(bodies[i]) {
      assert bodies' == bodies;
    } else {
      var g := FinishBody(b.next, ItemFrames(loop, i, frames), Apply(s, b.delta), w);
      OthersUntroubled(loop, bodies, i, b.delta, g.delta, frames, s, w);
      OthersHaveAsMuchLeft(loop, bodies, i, b.next, frames, s, Apply(s, b.delta), w);
      assert TaskWork(Looping(loop, bodies', Fan(pool)), frames, Apply(s, b.delta), w) + 1 == TaskWork(Looping(loop, bodies, Fan(pool)), frames, s, w);
    }
  }

  lemma FanControlTakesOne(loop: Loop, bodies: seq<Body>, pool: P.Pool<Value, ErrorCode>, wk: nat, frames: seq<Frame>, s: Store, w: World,
                           choice: seq<nat>)
    requires Good(Looping(loop, bodies, Fan(pool))) && pool.firstError.None?
    requires forall i :: 0 <= i < |bodies| && bodies[i].Over? ==> !Fails(loop.onError, bodies[i].out)
    requires wk < |pool.workers| && choice != [] && choice[0] == wk && !pool.workers[wk].Gone?
    requires pool.workers[wk].Busy? ==> bodies[pool.workers[wk].index].Over?
    ensures TaskAdvances(Looping(loop, bodies, Fan(pool)), frames, s, w, StepTask(Looping(loop, bodies, Fan(pool)), frames, s, w, choice))
  {
    ApplyNothing(s);
    if pool.workers[wk].Top? {
      MoveTakesOne(pool, wk, Null);
    } else {
      var i := pool.workers[wk].index;
      MoveTakesOne(pool, wk, IterationRecord(i, bodies[i].out));
    }
  }

  lemma {:induction false} FanBodyTakesOne(loop: Loop, bodies: seq<Body>, pool: P.Pool<Value, ErrorCode>, i: nat, frames: seq<Frame>, s: Store,
                                           w: World, choice: seq<nat>)
    requires Good(Looping(loop, bodies, Fan(pool))) && Finish(Looping(loop, bodies, Fan(pool)), frames, s, w).raceFree
    requires i < |bodies|
    ensures var b := StepBody(bodies[i], ItemFrames(loop, i, frames), s, w, choice);
            TaskAdvances(Looping(loop, bodies, Fan(pool)), frames, s, w, Stepped(Looping(loop, bodies[i := b.next], Fan(pool)), b.delta))
    decreases bodies, 0
  {
    MemberIsRaceFree(loop, bodies, Fan(pool), i, frames, s, w);
    StepBodyContinues(bodies[i], ItemFrames(loop, i, frames), s, w, choice);
    StepBodyTakesOne(bodies[i], ItemFrames(loop, i, frames), s, w, choice);
    FanMemberTakesOne(loop, bodies, pool, i, StepBody(bodies[i], ItemFrames(loop, i, frames), s, w, choice), frames, s, w);
  }

  lemma {:induction false} FanTakesOne(loop: Loop, bodies: seq<Body>, pool: P.Pool<Value, ErrorCode>, frames: seq<Frame>, s: Store, w: World,
                                       choice: seq<nat>)
    requires Good(Looping(loop, bodies, Fan(pool))) && Finish(Looping(loop, bodies, Fan(pool)), frames, s, w).raceFree
    ensures TaskAdvances(Looping(loop, bodies, Fan(pool)), frames, s, w, StepTask(Looping(loop, bodies, Fan(pool)), frames, s, w, choice))
    decreases bodies, 1
  {
    ApplyNothing(s);
    SafePoolHasNoError(loop, bodies, pool, frames, s, w);
    if P.AllGone(pool) {
      FanEndTakesOne(loop, bodies, pool, frames, s, w);
    } else if choice != [] && choice[0] < |pool.workers| && !pool.workers[choice[0]].Gone? {
      var wk := choice[0];
      if pool.workers[wk].Top? || bodies[pool.workers[wk].index].Over? {
        FanControlTakesOne(loop, bodies, pool, wk, frames, s, w, choice);
      } else {
        FanBodyTakesOne(loop, bodies, pool, pool.workers[wk].index, frames, s, w, choice[1..]);
      }
    }
  }

  // ----- whole schedules -----

  /** How many steps of the schedule did anything. */
  function Effective(st: Stmt, s: Store, w: World, schedule: seq<seq<nat>>): nat {
    if schedule == [] then 0
    else
      var front := schedule[..|schedule| - 1];
      var c := RunSchedule(st, s, w, front);
      Effective(st, s, w, front) + if StepTask(c.task, [], c.store, w, schedule[|schedule| - 1]) == Stay(c.task) then 0 else 1
  }

  lemma EndedHasNoWork(t: Task, frames: seq<Frame>, s: Store, w: World)
    requires Shaped(t)
    ensures TaskWork(t, frames, s, w) == 0 <==> t.Ended?
  {
  }

  lemma {:induction false} WorkIsConserved(st: Stmt, s: Store, w: World, schedule: seq<seq<nat>>)
    requires Exec(st, [], s, w).raceFree
    ensures var c := RunSchedule(st, s, w, schedule);
            Effective(st, s, w, schedule) + TaskWork(c.task, [], c.store, w) == StmtWork(st, [], s, w)
  {
    if schedule != [] {
      var front, last := schedule[..|schedule| - 1], schedule[|schedule| - 1];
      var c := RunSchedule(st, s, w, front);
      WorkIsConserved(st, s, w, front);
      ScheduleContinues(st, s, w, front);
      StepTakesOne(c.task, [], c.store, w, last);
      ApplyNothing(c.store);
    }
  }

  /** No schedule of a race-free statement takes more than its number of effective steps, and the statement
      has ended exactly when the schedule has taken them all: so all its schedules are equally long. */
  lemma SchedulesAreEquallyLong(st: Stmt, s: Store, w: World, schedule: seq<seq<nat>>)
    requires Exec(st, [], s, w).raceFree
    ensures Effective(st, s, w, schedule) <= StmtWork(st, [], s, w)
    ensures RunSchedule(st, s, w, schedule).task.Ended? <==> Effective(st, s, w, schedule) == StmtWork(st, [], s, w)
  {
    var c := RunSchedule(st, s, w, schedule);
    WorkIsConserved(st, s, w, schedule);
    EndedHasNoWork(c.task, [], c.store, w);
  }

  lemma EffectiveOfChoice(st: Stmt, s: Store, w: World, schedule: seq<seq<nat>>, choice: seq<nat>)
    requires RunSchedule(st, s, w, schedule + [choice]).task != RunSchedule(st, s, w, schedule).task
    ensures Effective(st, s, w, schedule + [choice]) == Effective(st, s, w, schedule) + 1
  {
    assert (schedule + [choice])[..|schedule|] == schedule;
  }

  lemma NoneMore(schedule: seq<seq<nat>>, choice: seq<nat>, more: seq<seq<nat>>)
    ensures schedule + [] == schedule && schedule + [choice] + more == schedule + ([choice] + more)
  {
  }

  /** Whatever has been scheduled so far, some continuation brings the statement to its end. */
  lemma {:induction false} CanBeCompleted(st: Stmt, s: Store, w: World, schedule: seq<seq<nat>>, left: nat) returns (more: seq<seq<nat>>)
    requires Exec(st, [], s, w).raceFree
    requires left == StmtWork(st, [], s, w) - Effective(st, s, w, schedule)
    ensures RunSchedule(st, s, w, schedule + more).task.Ended?
    decreases left
  {
    SchedulesAreEquallyLong(st, s, w, schedule);
    if left == 0 {
      more := [];
      NoneMore(schedule, [], []);
    } else {
      var choice := SomeoneCanMove(st, s, w, schedule);
      EffectiveOfChoice(st, s, w, schedule, choice);
      more := CanBeCompleted(st, s, w, schedule + [choice], left - 1);
      NoneMore(schedule, choice, more);
      more := [choice] + more;
    }
  }

  /** So race-free statements have schedules that end, and `ScheduleIndependence` speaks of some. */
  lemma SomeScheduleEnds(st: Stmt, s: Store, w: World) returns (schedule: seq<seq<nat>>)
    requires Exec(st, [], s, w).raceFree
    ensures RunSchedule(st, s, w, schedule).task.Ended?
  {
    schedule := CanBeCompleted(st, s, w, [], StmtWork(st, [], s, w));
    assert [] + schedule == schedule;
  }
}
