/** Beyond the result of a schedule: the number of workers does not matter to it, and no schedule gets stuck. */
module Progress {
  import opened Values
  import opened Ast
  import opened Evaluate
  import opened Runtime
  import opened Interleaving
  import opened Schedules
  import P = WorkerPool

  // ----- the number of workers -----

  lemma {:induction false} IterationsIgnoreWidth(st: Stmt, st': Stmt, loop: Loop, loop': Loop, k: nat, frames: seq<Frame>, s: Store, w: World)
    requires st.Foreach? && st'.Foreach? && st'.body == st.body && loop.body == st.body
    requires loop' == loop.(wide := loop'.wide) && k <= |loop.items|
    ensures ExecIterations(st', loop', k, frames, s, w) == ExecIterations(st, loop, k, frames, s, w)
    decreases |loop.items| - k
  {
    if k < |loop.items| {
      var e := ExecBody(st.body, "?", None, frames + [Frame(loop.itemVar, loop.items[k])], s, w);
      if !Fails(loop.onError, e.out) {
        IterationsIgnoreWidth(st, st', loop, loop', k + 1, frames, Apply(s, e.delta), w);
      }
    }
  }

  lemma ExecIgnoresParallel(st: Stmt, p: Option<nat>, frames: seq<Frame>, s: Store, w: World)
    requires st.Foreach?
    ensures var e, f := Exec(st, frames, s, w), Exec(st.(parallel := p), frames, s, w);
            e.out == f.out && e.delta == f.delta
  {
    var st' := st.(parallel := p);
    var r := Eval(st.list, Scoped(frames, s, w));
    if r.Ok? && r.value.List? {
      var items := r.value.items;
      var loop := Loop(st.itemVar, st.onError, st.body, items, Concurrency(st.parallel, |items|) > 1);
      var loop' := Loop(st.itemVar, st.onError, st.body, items, Concurrency(p, |items|) > 1);
      IterationsIgnoreWidth(st, st', loop, loop', 0, frames, s, w);
    }
  }

  /** The number of workers the block gets. */
  function Width(st: Stmt, s: Store, w: World): nat
    requires st.Foreach?
  {
    match Eval(st.list, Scoped([], s, w))
    case Ok(v) => if v.List? then Concurrency(st.parallel, |v.items|) else 1
    case Err(_) => 1
  }

  /** Free of races with several workers, a block is so with any number; with one, it is so with one. */
  lemma RaceFreeWhenNarrower(st: Stmt, p: Option<nat>, s: Store, w: World)
    requires st.Foreach? && Exec(st, [], s, w).raceFree
    requires Width(st, s, w) > 1 || Width(st.(parallel := p), s, w) <= 1
    ensures Exec(st.(parallel := p), [], s, w).raceFree
  {
    var st' := st.(parallel := p);
    var r := Eval(st.list, Scoped([], s, w));
    if r.Ok? && r.value.List? {
      var items := r.value.items;
      var loop := Loop(st.itemVar, st.onError, st.body, items, Concurrency(st.parallel, |items|) > 1);
      var loop' := Loop(st.itemVar, st.onError, st.body, items, Concurrency(p, |items|) > 1);
      IterationsIgnoreWidth(st, st', loop, loop', 0, [], s, w);
      var effs := ExecIterations(st, loop, 0, [], s, w);
      assert LoopEffect(loop, effs, [], w).raceFree;
      assert LoopEffect(loop', effs, [], w).raceFree;
    }
  }

  /** A race-free block run by any schedule of its own pool ends as the same block with any other number
      of workers, in particular with one. */
  lemma {:induction false} ConcurrencyIsIrrelevant(st: Stmt, p: Option<nat>, s: Store, w: World, schedule: seq<seq<nat>>, other: seq<seq<nat>>)
    requires st.Foreach? && Exec(st, [], s, w).raceFree
    requires Width(st, s, w) > 1 || Width(st.(parallel := p), s, w) <= 1
    requires RunSchedule(st, s, w, schedule).task.Ended? && RunSchedule(st.(parallel := p), s, w, other).task.Ended?
    ensures RunSchedule(st, s, w, schedule) == RunSchedule(st.(parallel := p), s, w, other)
  {
    RaceFreeWhenNarrower(st, p, s, w);
    ScheduleIndependence(st, s, w, schedule);
    ScheduleIndependence(st.(parallel := p), s, w, other);
    ExecIgnoresParallel(st, p, [], s, w);
  }

  // ----- no schedule gets stuck -----

  lemma {:induction false} TaskCanMove(t: Task, frames: seq<Frame>, s: Store, w: World) returns (choice: seq<nat>)
    requires Good(t) && !t.Ended?
    ensures StepTask(t, frames, s, w, choice).next != t
    decreases t, 1
  {
    choice := [];
    match t
    case Branch(_, body) => if !body.Over? { choice := BodyCanMove(body, frames, s, w); }
    case Looping(loop, bodies, At(k)) =>
      if k < |bodies| && !bodies[k].Over? {
        choice := BodyCanMove(bodies[k], ItemFrames(loop, k, frames), s, w);
        assert bodies[k := StepBody(bodies[k], ItemFrames(loop, k, frames), s, w, choice).next][k] != bodies[k];
      }
    case Looping(loop, bodies, Fan(pool)) =>
      if !P.AllGone(pool) {
        var wk := SomeWorkerIsThere(pool);
        choice := [wk];
        if pool.workers[wk].Busy? && !bodies[pool.workers[wk].index].Over? {
          var i := pool.workers[wk].index;
          var inner := BodyCanMove(bodies[i], ItemFrames(loop, i, frames), s, w);
          choice := [wk] + inner;
          assert choice[1..] == inner;
          assert bodies[i := StepBody(bodies[i], ItemFrames(loop, i, frames), s, w, inner).next][i] != bodies[i];
        }
      }
    case _ =>
  }

  lemma SomeWorkerIsThere(pool: P.Pool<Value, ErrorCode>) returns (wk: nat)
    requires P.Inv(pool) && !P.AllGone(pool)
    ensures wk < |pool.workers| && !pool.workers[wk].Gone?
    ensures pool.workers[wk].Busy? ==> pool.workers[wk].index < pool.total
    ensures pool.workers[wk].Top? ==> P.Pull(pool, wk) != pool
    ensures forall how :: pool.workers[wk].Busy? ==> P.Settle(pool, wk, how) != pool
  {
    wk :| 0 <= wk < |pool.workers| && !pool.workers[wk].Gone?;
  }

  lemma {:induction false} BodyCanMove(b: Body, frames: seq<Frame>, s: Store, w: World) returns (choice: seq<nat>)
    requires GoodBody(b) && !b.Over?
    ensures StepBody(b, frames, s, w, choice).next != b
    decreases b, 0
  {
    choice := [];
    if b.Busy? && !b.cur.Ended? { choice := TaskCanMove(b.cur, frames, s, w); }
  }

  /** As long as a race-free program has not ended, under whatever schedule so far, some worker can move. */
  lemma {:induction false} SomeoneCanMove(st: Stmt, s: Store, w: World, schedule: seq<seq<nat>>) returns (choice: seq<nat>)
    requires Exec(st, [], s, w).raceFree && !RunSchedule(st, s, w, schedule).task.Ended?
    ensures RunSchedule(st, s, w, schedule + [choice]).task != RunSchedule(st, s, w, schedule).task
  {
    ScheduleContinues(st, s, w, schedule);
    var c := RunSchedule(st, s, w, schedule);
    choice := TaskCanMove(c.task, [], c.store, w);
    assert (schedule + [choice])[..|schedule|] == schedule;
  }
}
