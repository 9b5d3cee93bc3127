/** Parallel `foreach` as a small-step system: between two awaits a task runs alone, and at every
    await any other worker of any enclosing pool may run. `Finish` completes a half-run task
    sequentially; on race-free programs no step of any schedule changes what `Finish` yields. */
module Interleaving {
  import opened Values
  import opened Ast
  import opened Evaluate
  import opened Runtime
  import P = WorkerPool

  // ----- half-run statements -----

  datatype Task =
    | Start(stmt: Stmt)
    | Calling(tag: string, vals: seq<Value>, bindTo: Option<string>)
    | Sleeping
    | Branch(taken: Value, body: Body)
    | Looping(loop: Loop, bodies: seq<Body>, ctl: Control)
    | Ended(out: Outcome)

  /** A statement list: between statements, inside one, or over. */
  datatype Body =
    | Ready(todo: seq<Stmt>, verb: string, binding: Option<string>)
    | Busy(cur: Task, curVerb: string, todo: seq<Stmt>, verb: string, binding: Option<string>)
    | Over(out: BodyOut)

  /** A plain loop stands at an index; a parallel one has a worker pool. */
  datatype Control = At(k: nat) | Fan(pool: P.Pool<Value, ErrorCode>)

  function FreshBody(loop: Loop): Body {
    Ready(loop.body, "?", None)
  }

  function ItemFrames(loop: Loop, i: nat, frames: seq<Frame>): seq<Frame>
    requires i < |loop.items|
  {
    frames + [Frame(loop.itemVar, loop.items[i])]
  }

  // ----- one atomic step -----

  datatype Stepped<T> = Stepped(next: T, delta: Store)

  function Stay<T>(t: T): Stepped<T> {
    Stepped(t, NOTHING)
  }

  function Begin(cmd: Command, bindTo: Option<string>, sc: Scope): Stepped<Task> {
    match cmd
    case Call(tag, args) =>
      (match EvalArgs(tag, args, [], sc)
       case Err(c) => Stay(Ended(Failed(c)))
       case Ok(vals) => Stay(Calling(tag, vals, bindTo)))
    case Wait(ms) => if ms > MAX_WAIT_MS then Stay(Ended(Failed(CAPABILITY_DENIED))) else Stay(Sleeping)
    case _ => var a := Immediate(cmd, bindTo, sc); Stepped(Ended(a.out), a.delta)
  }

  function BeginLoop(itemVar: string, v: Value, parallel: Option<nat>, onError: OnError, body: seq<Stmt>): Task {
    if !v.List? then Ended(Failed(PARSE_ERROR))
    else
      var n := |v.items|;
      var k := Concurrency(parallel, n);
      var loop := Loop(itemVar, onError, body, v.items, k > 1);
      Looping(loop, seq(n, _ => FreshBody(loop)), if loop.wide then Fan(P.Start(n, k)) else At(0))
  }

  function BeginStmt(st: Stmt, frames: seq<Frame>, s: Store, w: World): Stepped<Task> {
    var sc := Scoped(frames, s, w);
    match st
    case Assign(target, cmd) => Begin(cmd, Some(target), sc)
    case Run(cmd) => Begin(cmd, None, sc)
    case If(p, thenBody, elseBody) =>
      (match EvalPred(p, sc)
       case Err(c) => Stay(Ended(Failed(c)))
       case Ok(yes) => Stay(Branch(BranchTag(yes), Ready(if yes then thenBody else elseBody, "?", None))))
    case Foreach(itemVar, list, parallel, onError, body) =>
      (match Eval(list, sc)
       case Err(c) => Stay(Ended(Failed(c)))
       case Ok(v) => Stay(BeginLoop(itemVar, v, parallel, onError, body)))
  }

  function LoopDone(vs: seq<Value>, w: World): Stepped<Task> {
    Stepped(Ended(Responded("foreach", Some(List(vs)), None)), UpdateLast(List(vs), w))
  }

  /** `choice` names the worker to run in the outermost running pool, then in the pool inside it, and
      so on. A choice that names no runnable worker leaves everything as it is. */
  function StepTask(t: Task, frames: seq<Frame>, s: Store, w: World, choice: seq<nat>): Stepped<Task>
    requires Shaped(t)
    decreases t, 1
  {
    match t
    case Start(st) => BeginStmt(st, frames, s, w)
    case Calling(tag, vals, bindTo) => var a := CallReply(tag, vals, bindTo, w); Stepped(Ended(a.out), a.delta)
    case Sleeping => Stepped(Ended(WaitOver().out), WaitOver().delta)
    case Branch(tag, body) =>
      if body.Over? then
        var e := BranchEnd(tag, body.out, frames, w);
        Stepped(Ended(e.out), e.delta)
      else
        var b := StepBody(body, frames, s, w, choice);
        Stepped(Branch(tag, b.next), b.delta)
    case Looping(loop, bodies, At(k)) =>
      if k >= |bodies| then LoopDone(seq(|bodies|, i requires 0 <= i < |bodies| => RecordAt(bodies, i)), w)
      else if bodies[k].Over? then
        if Fails(loop.onError, bodies[k].out) then Stay(Ended(Failed(bodies[k].out.err.value)))
        else Stay(Looping(loop, bodies, At(k + 1)))
      else
        var b := StepBody(bodies[k], ItemFrames(loop, k, frames), s, w, choice);
        Stepped(Looping(loop, bodies[k := b.next], At(k)), b.delta)
    case Looping(loop, bodies, Fan(pool)) =>
      if P.AllGone(pool) then
        if pool.firstError.Some? then Stay(Ended(Failed(pool.firstError.value)))
        else LoopDone(seq(|pool.results|, i requires 0 <= i < |pool.results| => ResultAt(pool, i)), w)
      else if choice == [] || choice[0] >= |pool.workers| then Stay(t)
      else
        var wk := choice[0];
        (match pool.workers[wk]
         case Gone => Stay(t)
         case Top => Stay(Looping(loop, bodies, Fan(P.Pull(pool, wk))))
         case Busy(i) =>
           if i >= |bodies| then Stay(t)
           else if bodies[i].Over? then Stay(Looping(loop, bodies, Fan(P.Settle(pool, wk, HowSettled(loop, i, bodies[i].out)))))
           else
             var b := StepBody(bodies[i], ItemFrames(loop, i, frames), s, w, choice[1..]);
             Stepped(Looping(loop, bodies[i := b.next], Fan(pool)), b.delta))
    case Ended(_) => Stay(t)
  }

  function StepBody(b: Body, frames: seq<Frame>, s: Store, w: World, choice: seq<nat>): Stepped<Body>
    requires ShapedBody(b)
    decreases b, 0
  {
    match b
    case Ready(todo, verb, binding) =>
      if todo == [] then Stay(Over(BodyOut(verb, binding, None)))
      else Stay(Busy(Start(todo[0]), VerbName(todo[0]), todo[1..], verb, binding))
    case Busy(Ended(Failed(c)), _, _, verb, binding) => Stay(Over(BodyOut(verb, binding, Some(c))))
    case Busy(Ended(Responded(_, _, bound)), curVerb, todo, _, _) => Stay(Ready(todo, curVerb, bound))
    case Busy(cur, curVerb, todo, verb, binding) =>
      var t := StepTask(cur, frames, s, w, choice);
      Stepped(Busy(t.next, curVerb, todo, verb, binding), t.delta)
    case Over(_) => Stay(b)
  }

  function RecordAt(bodies: seq<Body>, i: nat): Value
    requires i < |bodies|
  {
    if bodies[i].Over? then IterationRecord(i, bodies[i].out) else Null
  }

  function ResultAt(pool: P.Pool<Value, ErrorCode>, i: nat): Value
    requires i < |pool.results|
  {
    match pool.results[i] case Some(v) => v case None => Null
  }

  function HowSettled(loop: Loop, i: nat, out: BodyOut): P.Settled<Value, ErrorCode> {
    if Fails(loop.onError, out) then P.Threw(out.err.value) else P.Finished(IterationRecord(i, out))
  }

  // ----- invariants of half-run tasks -----

  /** Every loop has one body per item, and its pool, if any, is that many indices wide. */
  predicate Shaped(t: Task)
    decreases t
  {
    match t
    case Branch(_, body) => ShapedBody(body)
    case Looping(loop, bodies, ctl) =>
      && |bodies| == |loop.items|
      && (forall i :: 0 <= i < |bodies| ==> ShapedBody(bodies[i]))
      && (ctl.Fan? ==> |ctl.pool.results| == |bodies|)
    case _ => true
  }

  predicate ShapedBody(b: Body)
    decreases b
  {
    b.Busy? ==> Shaped(b.cur)
  }
}
