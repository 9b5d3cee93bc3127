/** The bounded fan-out behind `foreach --parallel=N` (`runBounded`, src/runtime/execute.ts), as a step system. */
module WorkerPool {
  import opened Values

  /** A worker loop is before its next pull, running one index, or has returned. */
  datatype Worker = Top | Busy(index: nat) | Gone

  /** How the work on one index ended. */
  datatype Settled<+R, +E> = Finished(result: R) | Threw(error: E)

  datatype Pool<R, E> = Pool(total: nat, next: nat, workers: seq<Worker>, results: seq<Option<R>>, firstError: Option<E>)

  function Start<R, E>(total: nat, concurrency: nat): (p: Pool<R, E>)
    ensures Inv(p)
  {
    var n := Max(1, Min(concurrency, total));
    Pool(total, 0, seq(n, _ => Top), seq(total, _ => None), None)
  }

  /** One pass through the top of a worker loop: leave, or take the next index. */
  function Pull<R, E>(p: Pool<R, E>, w: nat): Pool<R, E>
    requires w < |p.workers| && p.workers[w].Top?
  {
    if p.firstError.Some? then p.(workers := p.workers[w := Gone])
    else if p.next >= p.total then p.(next := p.next + 1, workers := p.workers[w := Gone])
    else p.(next := p.next + 1, workers := p.workers[w := Busy(p.next)])
  }

  /** The awaited task settles: record its result and loop, or record the first error and leave. */
  function Settle<R, E>(p: Pool<R, E>, w: nat, how: Settled<R, E>): Pool<R, E>
    requires w < |p.workers| && p.workers[w].Busy? && p.workers[w].index < |p.results|
  {
    match how
    case Finished(r) => p.(workers := p.workers[w := Top], results := p.results[p.workers[w].index := Some(r)])
    case Threw(e) => p.(workers := p.workers[w := Gone], firstError := if p.firstError.None? then Some(e) else p.firstError)
  }

  predicate AllGone<R, E>(p: Pool<R, E>) {
    forall w :: 0 <= w < |p.workers| ==> p.workers[w].Gone?
  }

  // ----- the invariant every step keeps -----

  ghost predicate Running<R, E>(p: Pool<R, E>, i: nat) {
    exists w :: 0 <= w < |p.workers| && p.workers[w] == Busy(i)
  }

  ghost predicate Inv<R, E>(p: Pool<R, E>) {
    && |p.results| == p.total && |p.workers| >= 1
    && (forall w :: 0 <= w < |p.workers| && p.workers[w].Busy? ==>
          p.workers[w].index < p.total && p.workers[w].index < p.next && p.results[p.workers[w].index].None?)
    && (forall v, w :: 0 <= v < w < |p.workers| && p.workers[v].Busy? && p.workers[w].Busy? ==>
          p.workers[v].index != p.workers[w].index)
    && (forall i :: p.next <= i < p.total ==> p.results[i].None?)
    && (p.firstError.None? ==> forall i :: 0 <= i < p.total && i < p.next ==> p.results[i].Some? || Running(p, i))
    && ((exists w :: 0 <= w < |p.workers| && p.workers[w].Gone?) ==> p.firstError.Some? || p.next >= p.total)
  }

  lemma PullKeepsInv<R, E>(p: Pool<R, E>, w: nat)
    requires Inv(p) && w < |p.workers| && p.workers[w].Top?
    ensures Inv(Pull(p, w))
  {
    var q := Pull(p, w);
    if q.firstError.None? {
      forall i | 0 <= i < q.total && i < q.next
        ensures q.results[i].Some? || Running(q, i)
      {
        if i < p.next && p.results[i].None? {
          var v :| 0 <= v < |p.workers| && p.workers[v] == Busy(i);
          assert q.workers[v] == Busy(i);
        } else if i == p.next {
          assert q.workers[w] == Busy(i);
        }
      }
    }
    if exists v :: 0 <= v < |q.workers| && q.workers[v].Gone? {
      var v :| 0 <= v < |q.workers| && q.workers[v].Gone?;
      assert v != w ==> p.workers[v].Gone?;
    }
  }

  lemma SettleKeepsInv<R, E>(p: Pool<R, E>, w: nat, how: Settled<R, E>)
    requires Inv(p) && w < |p.workers| && p.workers[w].Busy?
    ensures Inv(Settle(p, w, how))
  {
    var q := Settle(p, w, how);
    if q.firstError.None? {
      forall i | 0 <= i < q.total && i < q.next
        ensures q.results[i].Some? || Running(q, i)
      {
        if p.results[i].None? && i != p.workers[w].index {
          var v :| 0 <= v < |p.workers| && p.workers[v] == Busy(i);
          assert q.workers[v] == Busy(i);
        }
      }
    }
    if exists v :: 0 <= v < |q.workers| && q.workers[v].Gone? {
      var v :| 0 <= v < |q.workers| && q.workers[v].Gone?;
      assert v != w ==> p.workers[v].Gone?;
    }
  }

  /** When every worker has returned without an error, every result slot is filled. */
  lemma NormalCompletion<R, E>(p: Pool<R, E>)
    requires Inv(p) && AllGone(p) && p.firstError.None?
    ensures forall i :: 0 <= i < p.total ==> p.results[i].Some?
  {
    assert p.workers[0].Gone?;
    forall i | 0 <= i < p.total
      ensures p.results[i].Some?
    {
      assert !Running(p, i);
    }
  }

  // ----- whole runs -----

  datatype Event<R, E> = Pulls(w: nat) | Settles(w: nat, how: Settled<R, E>)

  predicate Enabled<R, E>(p: Pool<R, E>, e: Event<R, E>) {
    && e.w < |p.workers|
    && match e
       case Pulls(w) => p.workers[w].Top?
       case Settles(w, _) => p.workers[w].Busy? && p.workers[w].index < |p.results|
  }

  function Step<R, E>(p: Pool<R, E>, e: Event<R, E>): Pool<R, E>
    requires Enabled(p, e)
  {
    match e
    case Pulls(w) => Pull(p, w)
    case Settles(w, how) => Settle(p, w, how)
  }

  /** What a run did: indices in start order, indices in settling order, errors in the order thrown. */
  datatype Log<E> = Log(started: seq<nat>, settled: seq<nat>, errors: seq<E>)

  function Noted<R, E>(log: Log<E>, p: Pool<R, E>, e: Event<R, E>): Log<E>
    requires Enabled(p, e)
  {
    match e
    case Pulls(w) =>
      if p.firstError.None? && p.next < p.total then log.(started := log.started + [p.next]) else log
    case Settles(w, how) =>
      var log' := log.(settled := log.settled + [p.workers[w].index]);
      if how.Threw? then log'.(errors := log'.errors + [how.error]) else log'
  }

  datatype Trace<R, E> = Trace(pool: Pool<R, E>, log: Log<E>)

  /** The state and the log after a schedule of events; an event that is not enabled is skipped. */
  function After<R, E>(total: nat, concurrency: nat, events: seq<Event<R, E>>): Trace<R, E> {
    if events == [] then Trace(Start(total, concurrency), Log([], [], []))
    else
      var t := After(total, concurrency, events[..|events| - 1]);
      var e := events[|events| - 1];
      if Enabled(t.pool, e) then Trace(Step(t.pool, e), Noted(t.log, t.pool, e)) else t
  }

  ghost predicate NoRepeats(xs: seq<nat>) {
    forall i, j :: 0 <= i < j < |xs| ==> xs[i] != xs[j]
  }

  ghost predicate LogInv<R, E>(t: Trace<R, E>) {
    && Inv(t.pool)
    && t.log.started == seq(Min(t.pool.next, t.pool.total), i => i)
    && NoRepeats(t.log.settled)
    && (forall i :: i in t.log.settled <==> i in t.log.started && !Running(t.pool, i))
    && (forall i :: 0 <= i < t.pool.total && t.pool.results[i].Some? ==> i in t.log.settled)
    && t.pool.firstError == (if t.log.errors == [] then None else Some(t.log.errors[0]))
  }

  lemma RunningAfterPull<R, E>(p: Pool<R, E>, w: nat, i: nat)
    requires Inv(p) && w < |p.workers| && p.workers[w].Top?
    ensures Running(Pull(p, w), i) <==> Running(p, i) || (p.firstError.None? && i == p.next < p.total)
  {
    var q := Pull(p, w);
    if Running(p, i) {
      var v :| 0 <= v < |p.workers| && p.workers[v] == Busy(i);
      assert q.workers[v] == Busy(i);
    }
    if Running(q, i) {
      var v :| 0 <= v < |q.workers| && q.workers[v] == Busy(i);
      assert v != w ==> p.workers[v] == Busy(i);
    }
    if p.firstError.None? && i == p.next < p.total {
      assert q.workers[w] == Busy(i);
    }
  }

  lemma RunningAfterSettle<R, E>(p: Pool<R, E>, w: nat, how: Settled<R, E>, i: nat)
    requires Inv(p) && w < |p.workers| && p.workers[w].Busy?
    ensures Running(Settle(p, w, how), i) <==> Running(p, i) && i != p.workers[w].index
  {
    var q := Settle(p, w, how);
    if Running(p, i) && i != p.workers[w].index {
      var v :| 0 <= v < |p.workers| && p.workers[v] == Busy(i);
      assert q.workers[v] == Busy(i);
    }
    if Running(q, i) {
      var v :| 0 <= v < |q.workers| && q.workers[v] == Busy(i);
      assert v != w && p.workers[v] == Busy(i);
    }
  }

  lemma PullKeepsLogInv<R, E>(t: Trace<R, E>, w: nat)
    requires LogInv(t) && w < |t.pool.workers| && t.pool.workers[w].Top?
    ensures LogInv(Trace(Pull(t.pool, w), Noted(t.log, t.pool, Pulls(w))))
  {
    PullKeepsInv(t.pool, w);
    var log' := Noted(t.log, t.pool, Event<R, E>.Pulls(w));
    forall i
      ensures i in log'.settled <==> i in log'.started && !Running(Pull(t.pool, w), i)
    {
      RunningAfterPull(t.pool, w, i);
    }
  }

  lemma SettleKeepsLogInv<R, E>(t: Trace<R, E>, w: nat, how: Settled<R, E>)
    requires LogInv(t) && w < |t.pool.workers| && t.pool.workers[w].Busy?
    ensures LogInv(Trace(Settle(t.pool, w, how), Noted(t.log, t.pool, Settles(w, how))))
  {
    SettleKeepsInv(t.pool, w, how);
    var log' := Noted(t.log, t.pool, Settles(w, how));
    var k := t.pool.workers[w].index;
    assert Running(t.pool, k);
    assert t.log.started[k] == k;
    assert k in t.log.started && k !in t.log.settled;
    forall i
      ensures i in log'.settled <==> i in log'.started && !Running(Settle(t.pool, w, how), i)
    {
      RunningAfterSettle(t.pool, w, how, i);
    }
  }

  lemma StepKeepsLogInv<R, E>(t: Trace<R, E>, e: Event<R, E>)
    requires LogInv(t) && Enabled(t.pool, e)
    ensures LogInv(Trace(Step(t.pool, e), Noted(t.log, t.pool, e)))
  {
    match e
    case Pulls(w) => PullKeepsLogInv(t, w);
    case Settles(w, how) => SettleKeepsLogInv(t, w, how);
  }

  lemma {:induction false} RunsKeepLogInv<R, E>(total: nat, concurrency: nat, events: seq<Event<R, E>>)
    ensures LogInv(After(total, concurrency, events))
    ensures After(total, concurrency, events).pool.total == total
    ensures |After(total, concurrency, events).pool.workers| == Max(1, Min(concurrency, total))
  {
    if events != [] {
      RunsKeepLogInv(total, concurrency, events[..|events| - 1]);
      var t, e := After(total, concurrency, events[..|events| - 1]), events[|events| - 1];
      if Enabled(t.pool, e) { StepKeepsLogInv(t, e); }
    }
  }

  ghost function BusySet(ws: seq<Worker>): set<nat> {
    set w | w in ws && w.Busy? :: w.index
  }

  lemma {:induction false} BusyAtMostWorkers(ws: seq<Worker>)
    ensures |BusySet(ws)| <= |ws|
  {
    if ws != [] {
      var front, w := ws[..|ws| - 1], ws[|ws| - 1];
      BusyAtMostWorkers(front);
      assert ws == front + [w];
      assert BusySet(ws) == BusySet(front) + (if w.Busy? then {w.index} else {});
    }
  }

  /** Every run of the pool: what starts, how much runs at once, and what is reported. */
  lemma PoolSafety<R, E>(total: nat, concurrency: nat, events: seq<Event<R, E>>)
    ensures var t := After(total, concurrency, events);
            && t.pool.total == total && |t.pool.results| == total
            && |t.log.started| <= total && t.log.started == seq(|t.log.started|, i => i)
            && NoRepeats(t.log.settled)
            && (forall i :: i in t.log.settled ==> i in t.log.started)
            && |BusySet(t.pool.workers)| <= Max(1, Min(concurrency, total))
            && (AllGone(t.pool) && t.log.errors == [] ==>
                  && |t.log.started| == total
                  && (forall i :: i in t.log.settled <==> 0 <= i < total)
                  && forall i :: 0 <= i < total ==> t.pool.results[i].Some?)
            && t.pool.firstError == (if t.log.errors == [] then None else Some(t.log.errors[0]))
  {
    RunsKeepLogInv(total, concurrency, events);
    var t := After(total, concurrency, events);
    BusyAtMostWorkers(t.pool.workers);
    if AllGone(t.pool) && t.log.errors == [] {
      NormalCompletion(t.pool);
      assert t.pool.workers[0].Gone?;
    }
  }

  /** Once an error is recorded nothing starts any more and the recorded error stays. */
  lemma {:induction false} NothingStartsAfterError<R, E>(total: nat, concurrency: nat, events: seq<Event<R, E>>, more: seq<Event<R, E>>)
    requires After(total, concurrency, events).pool.firstError.Some?
    ensures After(total, concurrency, events + more).log.started == After(total, concurrency, events).log.started
    ensures After(total, concurrency, events + more).pool.firstError == After(total, concurrency, events).pool.firstError
    decreases |more|
  {
    if more == [] {
      assert events + more == events;
    } else {
      var front := more[..|more| - 1];
      NothingStartsAfterError(total, concurrency, events, front);
      assert (events + more)[..|events + more| - 1] == events + front;
    }
  }

  // ----- progress -----

  function Weight(ws: seq<Worker>): nat {
    if ws == [] then 0
    else Weight(ws[..|ws| - 1]) + match ws[|ws| - 1] case Top => 1 case Busy(_) => 2 case Gone => 0
  }

  /** Steps still possible: two per index not yet taken, plus what the workers owe. */
  function Remaining<R, E>(p: Pool<R, E>): nat {
    2 * (if p.next < p.total then p.total - p.next else 0) + Weight(p.workers)
  }

  lemma {:induction false} WeightOfUpdate(ws: seq<Worker>, w: nat, x: Worker)
    requires w < |ws|
    ensures Weight(ws[w := x]) - Weight([x]) == Weight(ws) - Weight([ws[w]])
  {
    var n := |ws| - 1;
    assert Weight([x]) == Weight([]) + Weight([x]) && [x][..0] == [] && [ws[w]][..0] == [];
    if w < n {
      assert ws[w := x][..n] == ws[..n][w := x];
      WeightOfUpdate(ws[..n], w, x);
    } else {
      assert ws[w := x][..n] == ws[..n];
    }
  }

  lemma StepDecreases<R, E>(p: Pool<R, E>, e: Event<R, E>)
    requires Inv(p) && Enabled(p, e)
    ensures Remaining(Step(p, e)) < Remaining(p)
  {
    WeightOfUpdate(p.workers, e.w, Step(p, e).workers[e.w]);
    assert forall x: Worker :: [x][..0] == [];
  }

  /** As long as a worker has not returned, it can pull, or its task can settle. */
  lemma NeverStuck<R, E>(p: Pool<R, E>, how: Settled<R, E>)
    requires Inv(p) && !AllGone(p)
    ensures exists e: Event<R, E> :: Enabled(p, e) && (e.Settles? ==> e.how == how)
  {
    var w :| 0 <= w < |p.workers| && !p.workers[w].Gone?;
    if p.workers[w].Top? {
      assert Enabled(p, Pulls(w));
    } else {
      assert Enabled(p, Settles(w, how));
    }
  }

  function Effective<R, E>(total: nat, concurrency: nat, events: seq<Event<R, E>>): nat {
    if events == [] then 0
    else
      var front := events[..|events| - 1];
      Effective(total, concurrency, front) +
      if Enabled(After(total, concurrency, front).pool, events[|events| - 1]) then 1 else 0
  }

  /** A run takes at most two steps per index and one more per worker. */
  lemma {:induction false} RunsAreBounded<R, E>(total: nat, concurrency: nat, events: seq<Event<R, E>>)
    ensures Effective(total, concurrency, events) + Remaining(After(total, concurrency, events).pool)
            <= 2 * total + Max(1, Min(concurrency, total))
  {
    if events == [] {
      AllTopWeight(Max(1, Min(concurrency, total)));
    } else {
      var front, e := events[..|events| - 1], events[|events| - 1];
      RunsAreBounded(total, concurrency, front);
      RunsKeepLogInv(total, concurrency, front);
      var p := After(total, concurrency, front).pool;
      if Enabled(p, e) { StepDecreases(p, e); }
    }
  }

  lemma {:induction false} AllTopWeight(n: nat)
    ensures Weight(seq(n, _ => Top)) == n
  {
    if n > 0 {
      AllTopWeight(n - 1);
      var ws: seq<Worker> := seq(n, _ => Top);
      assert ws[..n - 1] == seq(n - 1, _ => Top);
    }
  }

  // ----- the shared variables of runBounded, updated in place -----

  class BoundedPool<R(0), E> {
    const total: nat
    var next: nat
    var firstError: Option<E>
    const workers: array<Worker>
    const results: array<Option<R>>

    ghost function State(): Pool<R, E>
      reads this, workers, results
    {
      Pool(total, next, workers[..], results[..], firstError)
    }

    constructor (total: nat, concurrency: nat)
      ensures State() == Start(total, concurrency)
      ensures fresh(workers) && fresh(results)
    {
      var n := Max(1, Min(concurrency, total));
      this.total := total;
      next := 0;
      firstError := None;
      workers := new Worker[n](_ => Top);
      results := new Option<R>[total](_ => None);
    }

    method PullNext(w: nat) returns (index: Option<nat>)
      requires w < workers.Length && workers[w].Top?
      modifies this`next, workers
      ensures State() == Pull(old(State()), w)
      ensures index == if workers[w].Busy? then Some(workers[w].index) else None
    {
      if firstError.Some? {
        workers[w] := Gone;
        return None;
      }
      var i := next;
      next := next + 1;
      if i >= total {
        workers[w] := Gone;
        return None;
      }
      workers[w] := Busy(i);
      return Some(i);
    }

    method OnSettled(w: nat, how: Settled<R, E>)
      requires w < workers.Length && workers[w].Busy? && workers[w].index < results.Length
      modifies this`firstError, workers, results
      ensures State() == Settle(old(State()), w, how)
    {
      match how
      case Finished(r) =>
        results[workers[w].index] := Some(r);
        workers[w] := Top;
      case Threw(e) =>
        if firstError.None? {
          firstError := Some(e);
        }
        workers[w] := Gone;
    }
  }
}
