/** How many steps a statement takes: counted on the sequential completion, the number left drops by one at every
    step that does anything, in every schedule of a race-free statement. */
module Work {
  import opened Values
  import opened Ast
  import opened Evaluate
  import opened Runtime
  import opened Locality
  import opened Interleaving
  import opened Chains
  import opened Schedules
  import P = WorkerPool

  // ----- sums -----

  function Sum(ns: seq<nat>): nat {
    if ns == [] then 0 else ns[0] + Sum(ns[1..])
  }

  lemma {:induction false} SumOfUpdate(ns: seq<nat>, i: nat, n: nat)
    requires i < |ns|
    ensures Sum(ns[i := n]) + ns[i] == Sum(ns) + n
  {
    if i > 0 {
      SumOfUpdate(ns[1..], i - 1, n);
      assert ns[i := n][1..] == ns[1..][i - 1 := n];
    } else {
      assert ns[i := n][1..] == ns[1..];
    }
  }

  lemma {:induction false} SumOfNothing(ns: seq<nat>)
    requires forall i :: 0 <= i < |ns| ==> ns[i] == 0
    ensures Sum(ns) == 0
  {
    if ns != [] { SumOfNothing(ns[1..]); }
  }

  /** Steps of the members of a chain, by index and by the session they begin in. */
  type Worker = (nat, Store) -> nat

  /** Members k to n - 1 in order, the step past each of them, and the end; an aborting failure is the last. */
  function ChainWork(onError: OnError, fin: Finisher, work: Worker, k: nat, n: nat, s: Store): nat
    decreases n - k
  {
    if k >= n then 1
    else
      var e := fin(k, s);
      work(k, s) + 1 + if Fails(onError, e.out) then 0 else ChainWork(onError, fin, work, k + 1, n, Apply(s, e.delta))
  }

  lemma {:induction false} SameChainWork(onError: OnError, fin: Finisher, fin': Finisher, work: Worker, work': Worker, k: nat, n: nat, s: Store)
    requires forall i: nat, u: Store :: k <= i < n ==> fin'(i, u) == fin(i, u)
    requires forall i: nat, u: Store :: k <= i < n ==> work'(i, u) == work(i, u)
    ensures ChainWork(onError, fin', work', k, n, s) == ChainWork(onError, fin, work, k, n, s)
    decreases n - k
  {
    if k < n {
      var e := fin(k, s);
      if !Fails(onError, e.out) { SameChainWork(onError, fin, fin', work, work', k + 1, n, Apply(s, e.delta)); }
    }
  }

  ghost predicate AllRaceFree(effs: seq<Effect<BodyOut>>) {
    forall i :: 0 <= i < |effs| ==> effs[i].raceFree
  }

  /** Free of races, and unable to tell the two sessions apart. */
  ghost predicate Untroubled(e: Effect<BodyOut>, s: Store, t: Store) {
    e.raceFree && Agree(s, t, e.looks)
  }

  lemma FirstOfMany(e: Effect<BodyOut>, rest: seq<Effect<BodyOut>>, s: Store, t: Store)
    requires Agree(s, t, SumReads([e] + rest)) && AllRaceFree([e] + rest)
    ensures Untroubled(e, s, t) && Agree(s, t, SumReads(rest)) && AllRaceFree(rest)
  {
    var effs := [e] + rest;
    assert effs[0] == e && effs[1..] == rest;
    forall i | 0 <= i < |rest|
      ensures rest[i].raceFree
    {
      assert rest[i] == effs[i + 1];
    }
  }

  /** Member i does the same, in as many steps, from every session it cannot tell from the one it has. */
  ghost predicate LocalMember(fin: Finisher, work: Worker, i: nat) {
    forall u: Store, v: Store :: Untroubled(fin(i, u), u, v) ==> fin(i, v) == fin(i, u) && work(i, v) == work(i, u)
  }

  lemma {:induction false} ChainWorkLocal(onError: OnError, fin: Finisher, work: Worker, k: nat, n: nat, s: Store, t: Store)
    requires forall i: nat :: i < n ==> LocalMember(fin, work, i)
    requires Agree(s, t, SumReads(Chain(onError, fin, k, n, s))) && AllRaceFree(Chain(onError, fin, k, n, s))
    ensures ChainWork(onError, fin, work, k, n, t) == ChainWork(onError, fin, work, k, n, s)
    decreases n - k
  {
    if k < n {
      var e := fin(k, s);
      var rest := if Fails(onError, e.out) then [] else Chain(onError, fin, k + 1, n, Apply(s, e.delta));
      assert Chain(onError, fin, k, n, s) == [e] + rest;
      FirstOfMany(e, rest, s, t);
      assert LocalMember(fin, work, k);
      assert fin(k, t) == e && work(k, t) == work(k, s);
      if !Fails(onError, e.out) {
        AgreeApply(s, t, e.delta, SumReads(rest));
        ChainWorkLocal(onError, fin, work, k + 1, n, Apply(s, e.delta), Apply(t, e.delta));
      }
    }
  }

  // ----- the steps of a statement that has not begun -----

  /** `call` and `wait` take a second step after the await, if they get that far. */
  function CommandWork(cmd: Command, sc: Scope): nat {
    match cmd
    case Call(tag, args) => if EvalArgs(tag, args, [], sc).Ok? then 2 else 1
    case Wait(ms) => if ms > MAX_WAIT_MS then 1 else 2
    case _ => 1
  }

  function StmtWork(st: Stmt, frames: seq<Frame>, s: Store, w: World): nat
    decreases st, 1, 0
  {
    var sc := Scoped(frames, s, w);
    match st
    case Assign(_, cmd) => CommandWork(cmd, sc)
    case Run(cmd) => CommandWork(cmd, sc)
    case If(p, thenBody, elseBody) =>
      (match EvalPred(p, sc)
       case Err(_) => 1
       case Ok(yes) => 1 + (if yes then StmtsWork(thenBody, frames, s, w) else StmtsWork(elseBody, frames, s, w)) + 1)
    case Foreach(itemVar, list, parallel, onError, body) =>
      (match Eval(list, sc)
       case Err(_) => 1
       case Ok(v) =>
         if !v.List? then 1
         else
           var n := |v.items|;
           var k := Concurrency(parallel, n);
           var loop := Loop(itemVar, onError, body, v.items, k > 1);
           if loop.wide then 1 + P.Remaining<Value, ErrorCode>(P.Start(n, k)) + Sum(MemberWorks(st, loop, frames, s, w)) + 1
           else 1 + ChainWork(onError, IterationFin(st, loop, frames, w), IterationWorker(st, loop, frames, w), 0, n, s))
  }

  /** Each statement is taken up, run and left; the list is closed unless one failed. */
  function StmtsWork(stmts: seq<Stmt>, frames: seq<Frame>, s: Store, w: World): nat
    decreases stmts, 0, 0
  {
    if stmts == [] then 1
    else
      var e := Exec(stmts[0], frames, s, w);
      1 + StmtWork(stmts[0], frames, s, w) + 1 + if e.out.Failed? then 0 else StmtsWork(stmts[1..], frames, Apply(s, e.delta), w)
  }

  /** The iterations of a plain loop as members of a chain. */
  function IterationFin(st: Stmt, loop: Loop, frames: seq<Frame>, w: World): Finisher
    requires st.Foreach?
  {
    (j: nat, u: Store) =>
      if j < |loop.items| then ExecBody(st.body, "?", None, ItemFrames(loop, j, frames), u, w) else Quiet(BodyOut("?", None, None), frames)
  }

  function IterationWorker(st: Stmt, loop: Loop, frames: seq<Frame>, w: World): Worker
    requires st.Foreach?
    decreases st, 0, 0
  {
    (j: nat, u: Store) => if j < |loop.items| then StmtsWork(st.body, ItemFrames(loop, j, frames), u, w) else 0
  }

  /** The steps of the iterations of a parallel loop, each counted from the same session. */
  function MemberWorks(st: Stmt, loop: Loop, frames: seq<Frame>, s: Store, w: World): (ns: seq<nat>)
    requires st.Foreach?
    decreases st, 0, 0
  {
    seq(|loop.items|, j requires 0 <= j < |loop.items| => StmtsWork(st.body, ItemFrames(loop, j, frames), s, w))
  }

  /** What iteration k does from s, and in how many steps. */
  function MemberEffect(st: Stmt, loop: Loop, k: nat, frames: seq<Frame>, s: Store, w: World): Effect<BodyOut>
    requires st.Foreach? && k < |loop.items|
  {
    ExecBody(st.body, "?", None, ItemFrames(loop, k, frames), s, w)
  }

  function MemberWork(st: Stmt, loop: Loop, k: nat, frames: seq<Frame>, s: Store, w: World): nat
    requires st.Foreach? && k < |loop.items|
  {
    StmtsWork(st.body, ItemFrames(loop, k, frames), s, w)
  }

  // ----- the steps left of a half-run task -----

  ghost function TaskWork(t: Task, frames: seq<Frame>, s: Store, w: World): nat
    requires Shaped(t)
    decreases t, 1, 0
  {
    match t
    case Start(st) => StmtWork(st, frames, s, w)
    case Calling(_, _, _) => 1
    case Sleeping => 1
    case Branch(_, body) => BodyWork(body, frames, s, w) + 1
    case Looping(loop, bodies, At(k)) => BodiesInTurn(loop, bodies, k, frames, s, w)
    case Looping(loop, bodies, Fan(pool)) => P.Remaining(pool) + Sum(LeftOfEach(loop, bodies, frames, s, w)) + 1
    case Ended(_) => 0
  }

  ghost function BodyWork(b: Body, frames: seq<Frame>, s: Store, w: World): nat
    requires ShapedBody(b)
    decreases b, 0, 0
  {
    match b
    case Ready(todo, _, _) => StmtsWork(todo, frames, s, w)
    case Busy(cur, _, todo, _, _) =>
      var e := Finish(cur, frames, s, w);
      TaskWork(cur, frames, s, w) + 1 + if e.out.Failed? then 0 else StmtsWork(todo, frames, Apply(s, e.delta), w)
    case Over(_) => 0
  }

  ghost function LeftWorker(loop: Loop, bodies: seq<Body>, frames: seq<Frame>, w: World): Worker
    requires |bodies| == |loop.items|
    requires forall i :: 0 <= i < |bodies| ==> ShapedBody(bodies[i])
    decreases bodies, 0, 0
  {
    (j: nat, u: Store) => if j < |bodies| then BodyWork(bodies[j], ItemFrames(loop, j, frames), u, w) else 0
  }

  /** The bodies of a plain loop from the k-th on. */
  ghost function BodiesInTurn(loop: Loop, bodies: seq<Body>, k: nat, frames: seq<Frame>, s: Store, w: World): nat
    requires |bodies| == |loop.items|
    requires forall i :: 0 <= i < |bodies| ==> ShapedBody(bodies[i])
    decreases bodies, 0, 1
  {
    ChainWork(loop.onError, Fin(loop, bodies, frames, w), LeftWorker(loop, bodies, frames, w), k, |bodies|, s)
  }

  /** What each body of a parallel loop has left, counted from the same session. */
  ghost function LeftOfEach(loop: Loop, bodies: seq<Body>, frames: seq<Frame>, s: Store, w: World): (ns: seq<nat>)
    requires |bodies| == |loop.items|
    requires forall i :: 0 <= i < |bodies| ==> ShapedBody(bodies[i])
    decreases bodies, 0, 0
  {
    seq(|bodies|, j requires 0 <= j < |bodies| => BodyWork(bodies[j], ItemFrames(loop, j, frames), s, w))
  }

  // ----- members of a race-free parallel loop -----

  /** Each does from the loop's session what its slot says, and the slots are independent. */
  lemma MembersRunAlone(loop: Loop, bodies: seq<Body>, frames: seq<Frame>, s: Store, w: World)
    requires |bodies| == |loop.items| && loop.wide
    requires forall i :: 0 <= i < |bodies| ==> ShapedBody(bodies[i])
    requires LoopEffect(loop, FinishAll(loop, bodies, 0, frames, s, w), frames, w).raceFree
    ensures var effs := FinishAll(loop, bodies, 0, frames, s, w);
            && |effs| == |bodies| && Independent(effs)
            && forall j :: 0 <= j < |effs| ==> effs[j] == FinishBody(bodies[j], ItemFrames(loop, j, frames), s, w) && effs[j].raceFree
  {
    var effs := FinishAll(loop, bodies, 0, frames, s, w);
    FinIsLocal(loop, bodies, frames, w);
    FinishAllIsChain(loop, bodies, 0, frames, s, w);
    forall j | 0 <= j < |effs|
      ensures effs[j] == FinishBody(bodies[j], ItemFrames(loop, j, frames), s, w)
    {
      IndependentMemberRunsAlone(loop.onError, Fin(loop, bodies, frames, w), 0, j, |bodies|, s, s);
    }
  }

  lemma FreshMembersRunAlone(st: Stmt, loop: Loop, frames: seq<Frame>, s: Store, w: World)
    requires st.Foreach? && loop.body == st.body && loop.wide
    requires LoopEffect(loop, ExecIterations(st, loop, 0, frames, s, w), frames, w).raceFree
    ensures var effs := ExecIterations(st, loop, 0, frames, s, w);
            && |effs| == |loop.items|
            && forall j :: 0 <= j < |effs| ==>
                 effs[j] == ExecBody(st.body, "?", None, ItemFrames(loop, j, frames), s, w) && effs[j].raceFree
  {
    var bodies := seq(|loop.items|, _ => FreshBody(loop));
    FreshBodiesAreExec(st, loop, bodies, 0, frames, s, w);
    MembersRunAlone(loop, bodies, frames, s, w);
  }

  lemma {:induction false} SumReadsCovers(effs: seq<Effect<BodyOut>>, j: nat, s: Store, t: Store)
    requires j < |effs| && Agree(s, t, SumReads(effs))
    ensures Agree(s, t, effs[j].looks)
  {
    if j > 0 { SumReadsCovers(effs[1..], j - 1, s, t); }
  }

  // ----- locality -----

  lemma CommandWorkLocal(cmd: Command, frames: seq<Frame>, s: Store, t: Store, w: World)
    requires Agree(s, t, CommandReads(cmd, Scoped(frames, s, w)))
    ensures CommandWork(cmd, Scoped(frames, t, w)) == CommandWork(cmd, Scoped(frames, s, w))
  {
    FootprintAlike(CommandPaths(cmd), frames, s, t, w);
    if cmd.Call? { EvalArgsAlike(cmd.tag, cmd.args, [], Scoped(frames, s, w), Scoped(frames, t, w)); }
  }

  lemma {:induction false} StmtWorkLocal(st: Stmt, frames: seq<Frame>, s: Store, t: Store, w: World)
    requires Exec(st, frames, s, w).raceFree && Agree(s, t, Exec(st, frames, s, w).looks)
    ensures StmtWork(st, frames, t, w) == StmtWork(st, frames, s, w)
    decreases st, 1, 0
  {
    var sc, sc' := Scoped(frames, s, w), Scoped(frames, t, w);
    match st
    case Assign(_, cmd) => CommandWorkLocal(cmd, frames, s, t, w);
    case Run(cmd) => CommandWorkLocal(cmd, frames, s, t, w);
    case If(p, thenBody, elseBody) =>
      FootprintAlike(PathsPred(p), frames, s, t, w);
      assert AtItem(sc, None) == sc && AtItem(sc', None) == sc';
      EvalPredAgrees(p, sc, sc');
      match EvalPred(p, sc) {
        case Err(_) =>
        case Ok(yes) =>
          if yes { StmtsWorkLocal(thenBody, "?", None, frames, s, t, w); }
          else { StmtsWorkLocal(elseBody, "?", None, frames, s, t, w); }
      }
    case Foreach(_, list, _, _, _) =>
      FootprintAlike(Paths(list), frames, s, t, w);
      EvalAlike(list, Paths(list), sc, sc');
      if Eval(list, sc).Ok? && Eval(list, sc).value.List? { LoopWorkLocal(st, Eval(list, sc).value.items, frames, s, t, w); }
  }

  lemma SameMemberWorks(st: Stmt, loop: Loop, frames: seq<Frame>, s: Store, t: Store, w: World)
    requires st.Foreach?
    requires forall j :: 0 <= j < |loop.items| ==> MemberWork(st, loop, j, frames, t, w) == MemberWork(st, loop, j, frames, s, w)
    ensures MemberWorks(st, loop, frames, t, w) == MemberWorks(st, loop, frames, s, w)
  {
    var a, b := MemberWorks(st, loop, frames, t, w), MemberWorks(st, loop, frames, s, w);
    forall j | 0 <= j < |a|
      ensures a[j] == b[j]
    {
      assert a[j] == MemberWork(st, loop, j, frames, t, w) && b[j] == MemberWork(st, loop, j, frames, s, w);
    }
  }

  lemma {:induction false} LoopWorkLocal(st: Stmt, items: seq<Value>, frames: seq<Frame>, s: Store, t: Store, w: World)
    requires st.Foreach?
    requires var loop := Loop(st.itemVar, st.onError, st.body, items, Concurrency(st.parallel, |items|) > 1);
             var f := LoopEffect(loop, ExecIterations(st, loop, 0, frames, s, w), frames, w);
             f.raceFree && Agree(s, t, f.looks)
    ensures var loop := Loop(st.itemVar, st.onError, st.body, items, Concurrency(st.parallel, |items|) > 1);
            if loop.wide then MemberWorks(st, loop, frames, t, w) == MemberWorks(st, loop, frames, s, w)
            else ChainWork(loop.onError, IterationFin(st, loop, frames, w), IterationWorker(st, loop, frames, w), 0, |items|, t)
                 == ChainWork(loop.onError, IterationFin(st, loop, frames, w), IterationWorker(st, loop, frames, w), 0, |items|, s)
    decreases st, 0, |items| + 1
  {
    var loop := Loop(st.itemVar, st.onError, st.body, items, Concurrency(st.parallel, |items|) > 1);
    var effs := ExecIterations(st, loop, 0, frames, s, w);
    if loop.wide {
      FreshMembersRunAlone(st, loop, frames, s, w);
      forall j | 0 <= j < |items|
        ensures MemberWork(st, loop, j, frames, t, w) == MemberWork(st, loop, j, frames, s, w)
      {
        SumReadsCovers(effs, j, s, t);
        assert effs[j].raceFree && effs[j] == MemberEffect(st, loop, j, frames, s, w);
        MemberWorkLocal(st, loop, j, frames, s, t, w);
      }
      SameMemberWorks(st, loop, frames, s, t, w);
    } else {
      var fin, work := IterationFin(st, loop, frames, w), IterationWorker(st, loop, frames, w);
      forall j: nat | j < |items|
        ensures LocalMember(fin, work, j)
      {
        IterationIsLocal(st, loop, j, frames, w);
      }
      IterationsAreChain(st, loop, 0, frames, s, w);
      ChainWorkLocal(loop.onError, fin, work, 0, |items|, s, t);
    }
  }

  lemma {:induction false} StmtsWorkLocal(stmts: seq<Stmt>, verb: string, binding: Option<string>, frames: seq<Frame>, s: Store, t: Store, w: World)
    requires ExecBody(stmts, verb, binding, frames, s, w).raceFree
    requires Agree(s, t, ExecBody(stmts, verb, binding, frames, s, w).looks)
    ensures StmtsWork(stmts, frames, t, w) == StmtsWork(stmts, frames, s, w)
    decreases stmts, 0, 0
  {
    if stmts != [] {
      var e := Exec(stmts[0], frames, s, w);
      ExecLocal(stmts[0], frames, s, t, w);
      StmtWorkLocal(stmts[0], frames, s, t, w);
      match e.out
      case Failed(_) =>
      case Responded(_, _, b) =>
        var rest := ExecBody(stmts[1..], VerbName(stmts[0]), b, frames, Apply(s, e.delta), w);
        AgreeApply(s, t, e.delta, rest.looks);
        StmtsWorkLocal(stmts[1..], VerbName(stmts[0]), b, frames, Apply(s, e.delta), Apply(t, e.delta), w);
    }
  }

  lemma {:induction false} IterationIsLocal(st: Stmt, loop: Loop, j: nat, frames: seq<Frame>, w: World)
    requires st.Foreach? && j < |loop.items|
    ensures LocalMember(IterationFin(st, loop, frames, w), IterationWorker(st, loop, frames, w), j)
    decreases st, 0, 1
  {
    var fin, work := IterationFin(st, loop, frames, w), IterationWorker(st, loop, frames, w);
    forall u: Store, v: Store | Untroubled(fin(j, u), u, v)
      ensures fin(j, v) == fin(j, u) && work(j, v) == work(j, u)
    {
      MemberWorkLocal(st, loop, j, frames, u, v, w);
    }
  }

  lemma {:induction false} IterationsAreChain(st: Stmt, loop: Loop, k: nat, frames: seq<Frame>, s: Store, w: World)
    requires st.Foreach? && loop.body == st.body && k <= |loop.items|
    ensures ExecIterations(st, loop, k, frames, s, w) == Chain(loop.onError, IterationFin(st, loop, frames, w), k, |loop.items|, s)
    decreases |loop.items| - k
  {
    if k < |loop.items| {
      var e := MemberEffect(st, loop, k, frames, s, w);
      if !Fails(loop.onError, e.out) { IterationsAreChain(st, loop, k + 1, frames, Apply(s, e.delta), w); }
    }
  }

  lemma {:induction false} MemberWorkLocal(st: Stmt, loop: Loop, k: nat, frames: seq<Frame>, s: Store, t: Store, w: World)
    requires st.Foreach? && k < |loop.items| && Untroubled(MemberEffect(st, loop, k, frames, s, w), s, t)
    ensures MemberWork(st, loop, k, frames, t, w) == MemberWork(st, loop, k, frames, s, w)
    ensures MemberEffect(st, loop, k, frames, t, w) == MemberEffect(st, loop, k, frames, s, w)
    decreases st, 0, 0
  {
    ExecBodyLocal(st.body, "?", None, ItemFrames(loop, k, frames), s, t, w);
    StmtsWorkLocal(st.body, "?", None, ItemFrames(loop, k, frames), s, t, w);
  }

  lemma {:induction false} TaskWorkLocal(task: Task, frames: seq<Frame>, s: Store, t: Store, w: World)
    requires Good(task) && Finish(task, frames, s, w).raceFree && Agree(s, t, Finish(task, frames, s, w).looks)
    ensures TaskWork(task, frames, t, w) == TaskWork(task, frames, s, w)
    decreases task, 1, 0
  {
    match task
    case Start(st) => StmtWorkLocal(st, frames, s, t, w);
    case Branch(_, body) => BodyWorkLocal(body, frames, s, t, w);
    case Looping(loop, bodies, At(k)) =>
      OverEffects(loop, bodies, 0, k, frames, s, w);
      LaterEffects(loop, bodies, k, frames, s, t, w);
      var fin, work := Fin(loop, bodies, frames, w), LeftWorker(loop, bodies, frames, w);
      forall j: nat | j < |bodies|
        ensures LocalMember(fin, work, j)
      {
        MemberIsLocal(loop, bodies, j, frames, w);
      }
      FinishAllIsChain(loop, bodies, k, frames, s, w);
      ChainWorkLocal(loop.onError, fin, work, k, |bodies|, s, t);
    case Looping(loop, bodies, Fan(_)) =>
      MembersRunAlone(loop, bodies, frames, s, w);
      var effs := FinishAll(loop, bodies, 0, frames, s, w);
      forall j | 0 <= j < |bodies|
        ensures BodyWork(bodies[j], ItemFrames(loop, j, frames), t, w) == BodyWork(bodies[j], ItemFrames(loop, j, frames), s, w)
      {
        SumReadsCovers(effs, j, s, t);
        BodyWorkLocal(bodies[j], ItemFrames(loop, j, frames), s, t, w);
      }
      assert LeftOfEach(loop, bodies, frames, t, w) == LeftOfEach(loop, bodies, frames, s, w);
    case _ =>
  }

  lemma {:induction false} MemberIsLocal(loop: Loop, bodies: seq<Body>, j: nat, frames: seq<Frame>, w: World)
    requires j < |bodies| == |loop.items|
    requires forall i :: 0 <= i < |bodies| ==> ShapedBody(bodies[i])
    requires GoodBody(bodies[j])
    ensures LocalMember(Fin(loop, bodies, frames, w), LeftWorker(loop, bodies, frames, w), j)
    decreases bodies, 0, 1
  {
    var fin, work := Fin(loop, bodies, frames, w), LeftWorker(loop, bodies, frames, w);
    forall u: Store, v: Store | Untroubled(fin(j, u), u, v)
      ensures fin(j, v) == fin(j, u) && work(j, v) == work(j, u)
    {
      FinishBodyLocal(bodies[j], ItemFrames(loop, j, frames), u, v, w);
      BodyWorkLocal(bodies[j], ItemFrames(loop, j, frames), u, v, w);
    }
  }

  /** Past the bodies that are over, what a plain loop has left is free of races and looks at no more. */
  lemma {:induction false} LaterEffects(loop: Loop, bodies: seq<Body>, k: nat, frames: seq<Frame>, s: Store, t: Store, w: World)
    requires Good(Looping(loop, bodies, At(k)))
    requires LoopEffect(loop, FinishAll(loop, bodies, 0, frames, s, w), frames, w).raceFree
    requires Agree(s, t, SumReads(FinishAll(loop, bodies, 0, frames, s, w)))
    ensures Agree(s, t, SumReads(FinishAll(loop, bodies, k, frames, s, w)))
    ensures AllRaceFree(FinishAll(loop, bodies, k, frames, s, w))
  {
    SkipOvers(loop, bodies, 0, k, frames, s, w);
    var all, later := FinishAll(loop, bodies, 0, frames, s, w), FinishAll(loop, bodies, k, frames, s, w);
    assert forall i :: 0 <= i < |later| ==> later[i] == all[k + i];
    ReadsOfSuffix(all, k, s, t);
    assert all[k..] == later;
  }

  lemma {:induction false} ReadsOfSuffix(effs: seq<Effect<BodyOut>>, k: nat, s: Store, t: Store)
    requires k <= |effs| && Agree(s, t, SumReads(effs))
    ensures Agree(s, t, SumReads(effs[k..]))
  {
    if k > 0 {
      ReadsOfSuffix(effs[1..], k - 1, s, t);
      assert effs[1..][k - 1..] == effs[k..];
    } else {
      assert effs[0..] == effs;
    }
  }

  lemma {:induction false} SkipOvers(loop: Loop, bodies: seq<Body>, j: nat, k: nat, frames: seq<Frame>, s: Store, w: World)
    requires j <= k <= |bodies| == |loop.items|
    requires forall i :: 0 <= i < |bodies| ==> ShapedBody(bodies[i])
    requires forall i :: j <= i < k ==> bodies[i].Over? && !Fails(loop.onError, bodies[i].out)
    ensures |FinishAll(loop, bodies, j, frames, s, w)| >= k - j
    ensures FinishAll(loop, bodies, j, frames, s, w)[k - j..] == FinishAll(loop, bodies, k, frames, s, w)
    decreases k - j
  {
    if j < k {
      ApplyNothing(s);
      SkipOvers(loop, bodies, j + 1, k, frames, s, w);
      var rest := FinishAll(loop, bodies, j + 1, frames, s, w);
      var e := FinishBody(bodies[j], ItemFrames(loop, j, frames), s, w);
      assert FinishAll(loop, bodies, j, frames, s, w) == [e] + rest;
      assert ([e] + rest)[k - j..] == rest[k - j - 1..];
    }
  }

  lemma {:induction false} BodyWorkLocal(b: Body, frames: seq<Frame>, s: Store, t: Store, w: World)
    requires GoodBody(b) && FinishBody(b, frames, s, w).raceFree && Agree(s, t, FinishBody(b, frames, s, w).looks)
    ensures BodyWork(b, frames, t, w) == BodyWork(b, frames, s, w)
    decreases b, 0, 0
  {
    match b
    case Ready(todo, verb, binding) => StmtsWorkLocal(todo, verb, binding, frames, s, t, w);
    case Busy(cur, curVerb, todo, _, _) =>
      var e := Finish(cur, frames, s, w);
      FinishLocal(cur, frames, s, t, w);
      TaskWorkLocal(cur, frames, s, t, w);
      match e.out {
        case Failed(_) =>
        case Responded(_, _, bound) =>
          var rest := ExecBody(todo, curVerb, bound, frames, Apply(s, e.delta), w);
          AgreeApply(s, t, e.delta, rest.looks);
          StmtsWorkLocal(todo, curVerb, bound, frames, Apply(s, e.delta), Apply(t, e.delta), w);
      }
    case Over(_) =>
  }
}
