/** A loop's iterations as a chain of effects, each run from the store the ones before it leave.
    What a chain yields does not change when one of its members takes a step by itself. */
module Chains {
  import opened Values
  import opened Ast
  import opened Evaluate
  import opened Runtime
  import opened Locality

  /** r looks at no more than q. */
  ghost predicate Within(r: Reads, q: Reads) {
    r.names <= q.names && (r.last ==> q.last) && (r.all ==> q.all)
  }

  /** g is what remains of f after a step that changed the store by d. */
  ghost predicate Continues<R>(f: Effect<R>, d: Store, g: Effect<R>) {
    && g.out == f.out
    && Apply(d, g.delta) == f.delta
    && Within(g.looks, f.looks)
    && g.raceFree
  }

  lemma ApplyAssociative(s: Store, d: Store, e: Store)
    ensures Apply(Apply(s, d), e) == Apply(s, Apply(d, e))
  {
  }

  lemma ApplyNothing(s: Store)
    ensures Apply(s, NOTHING) == s && Apply(NOTHING, s) == s
  {
  }

  /** What follows in sequence is untouched by a step of what comes first. */
  lemma ThenContinues<A, B>(e: Effect<A>, d: Store, e': Effect<A>, f: Effect<B>)
    requires Continues(e, d, e') && f.raceFree
    ensures Continues(Then(e, f), d, Then(e', f))
  {
    ApplyAssociative(d, e'.delta, f.delta);
  }

  // ----- one body of a loop moves -----

  /** effs' differs from effs only in slot j, which is what remains after a step. */
  ghost predicate OneMoved(effs: seq<Effect<BodyOut>>, j: nat, d: Store, effs': seq<Effect<BodyOut>>) {
    && j < |effs| == |effs'|
    && (forall i :: 0 <= i < |effs| && i != j ==> effs'[i] == effs[i])
    && Continues(effs[j], d, effs'[j])
  }

  lemma {:induction false} SumReadsOneMoved(effs: seq<Effect<BodyOut>>, j: nat, d: Store, effs': seq<Effect<BodyOut>>)
    requires OneMoved(effs, j, d, effs')
    ensures Within(SumReads(effs'), SumReads(effs))
  {
    if j == 0 {
      assert effs'[1..] == effs[1..];
    } else {
      SumReadsOneMoved(effs[1..], j - 1, d, effs'[1..]);
    }
  }

  lemma SwapWrites(d: map<string, Binding>, e: map<string, Binding>, r: map<string, Binding>)
    requires d.Keys !! e.Keys
    ensures d + (e + r) == e + (d + r)
  {
  }

  /** The summed changes agree on names when the slots before j write other names than the step. */
  lemma {:induction false} SumNamesOneMoved(effs: seq<Effect<BodyOut>>, j: nat, d: Store, effs': seq<Effect<BodyOut>>)
    requires OneMoved(effs, j, d, effs')
    requires forall i :: 0 <= i < j ==> effs[i].delta.names.Keys !! d.names.Keys
    ensures d.names + SumDelta(effs').names == SumDelta(effs).names
  {
    if j == 0 {
      assert effs'[1..] == effs[1..];
      ApplyAssociative(d, effs'[0].delta, SumDelta(effs[1..]));
    } else {
      SumNamesOneMoved(effs[1..], j - 1, d, effs'[1..]);
      SwapWrites(d.names, effs[0].delta.names, SumDelta(effs'[1..]).names);
    }
  }

  /** They agree altogether when the slots before j write nothing. */
  lemma {:induction false} SumDeltaOneMoved(effs: seq<Effect<BodyOut>>, j: nat, d: Store, effs': seq<Effect<BodyOut>>)
    requires OneMoved(effs, j, d, effs')
    requires forall i :: 0 <= i < j ==> effs[i].delta == NOTHING
    ensures Apply(d, SumDelta(effs')) == SumDelta(effs)
  {
    if j == 0 {
      assert effs'[1..] == effs[1..];
      ApplyAssociative(d, effs'[0].delta, SumDelta(effs[1..]));
    } else {
      SumDeltaOneMoved(effs[1..], j - 1, d, effs'[1..]);
      ApplyNothing(SumDelta(effs'[1..]));
      ApplyNothing(SumDelta(effs[1..]));
    }
  }

  lemma ConsOneMoved(e: Effect<BodyOut>, rest: seq<Effect<BodyOut>>, j: nat, d: Store, rest': seq<Effect<BodyOut>>)
    requires OneMoved(rest, j, d, rest')
    ensures OneMoved([e] + rest, j + 1, d, [e] + rest')
  {
    var effs, effs' := [e] + rest, [e] + rest';
    forall i | 0 <= i < |effs| && i != j + 1
      ensures effs'[i] == effs[i]
    {
      if i > 0 { assert effs'[i] == rest'[i - 1] && effs[i] == rest[i - 1]; }
    }
  }

  lemma HeadOneMoved(f: Effect<BodyOut>, d: Store, g: Effect<BodyOut>, rest: seq<Effect<BodyOut>>)
    requires Continues(f, d, g)
    ensures OneMoved([f] + rest, 0, d, [g] + rest)
  {
  }

  // ----- chains -----

  type Finisher = (nat, Store) -> Effect<BodyOut>

  /** Members k to n - 1 in order; an aborting failure is the last one. */
  function Chain(onError: OnError, fin: Finisher, k: nat, n: nat, s: Store): (effs: seq<Effect<BodyOut>>)
    ensures k <= n ==> |effs| <= n - k
    decreases n - k
  {
    if k >= n then []
    else
      var e := fin(k, s);
      if Fails(onError, e.out) then [e]
      else [e] + Chain(onError, fin, k + 1, n, Apply(s, e.delta))
  }

  /** Every member depends on its start only through what it looks at. */
  ghost predicate Local(fin: Finisher, n: nat) {
    forall i: nat, s: Store, t: Store :: i < n && Agree(s, t, fin(i, s).looks) ==> fin(i, t) == fin(i, s)
  }

  /** fin' is fin except for member j. */
  ghost predicate SameBut(fin: Finisher, fin': Finisher, n: nat, j: nat) {
    forall i: nat, s: Store :: i < n && i != j ==> fin'(i, s) == fin(i, s)
  }

  lemma {:induction false} ChainSame(onError: OnError, fin: Finisher, fin': Finisher, j: nat, k: nat, n: nat, s: Store)
    requires SameBut(fin, fin', n, j) && j < k
    ensures Chain(onError, fin', k, n, s) == Chain(onError, fin, k, n, s)
    decreases n - k
  {
    if k < n && !Fails(onError, fin(k, s).out) {
      ChainSame(onError, fin, fin', j, k + 1, n, Apply(s, fin(k, s).delta));
    }
  }

  lemma {:induction false} ChainLocal(onError: OnError, fin: Finisher, k: nat, n: nat, s: Store, t: Store)
    requires Local(fin, n) && Agree(s, t, SumReads(Chain(onError, fin, k, n, s)))
    ensures Chain(onError, fin, k, n, t) == Chain(onError, fin, k, n, s)
    decreases n - k
  {
    if k < n {
      var e := fin(k, s);
      var effs := Chain(onError, fin, k, n, s);
      assert effs[0] == e;
      assert Agree(s, t, e.looks);
      if !Fails(onError, e.out) {
        var rest := Chain(onError, fin, k + 1, n, Apply(s, e.delta));
        assert effs[1..] == rest;
        AgreeApply(s, t, e.delta, SumReads(rest));
        ChainLocal(onError, fin, k + 1, n, Apply(s, e.delta), Apply(t, e.delta));
      }
    }
  }

  /** Members that do not look at `$_` run alike from stores with the same names. */
  lemma {:induction false} ChainIgnoresLast(onError: OnError, fin: Finisher, k: nat, n: nat, s: Store, t: Store)
    requires Local(fin, n) && s.names == t.names
    requires forall i :: 0 <= i < |Chain(onError, fin, k, n, s)| ==> !Chain(onError, fin, k, n, s)[i].looks.last
    ensures Chain(onError, fin, k, n, t) == Chain(onError, fin, k, n, s)
  {
    SumReadsNoLast(Chain(onError, fin, k, n, s));
    ChainLocal(onError, fin, k, n, s, t);
  }

  lemma {:induction false} SumReadsNoLast(effs: seq<Effect<BodyOut>>)
    requires forall i :: 0 <= i < |effs| ==> !effs[i].looks.last
    ensures !SumReads(effs).last
  {
    if effs != [] { SumReadsNoLast(effs[1..]); }
  }

  // ----- a step in a sequential loop: everything before the running member is over -----

  lemma {:induction false} SequentialMove(onError: OnError, fin: Finisher, fin': Finisher, k: nat, j: nat, n: nat, d: Store, s: Store)
    requires k <= j < n && SameBut(fin, fin', n, j)
    requires forall i :: k <= i < j ==> fin(i, s).delta == NOTHING && !Fails(onError, fin(i, s).out)
    requires forall i :: k <= i < j ==> fin(i, Apply(s, d)) == fin(i, s)
    requires Continues(fin(j, s), d, fin'(j, Apply(s, d)))
    ensures OneMoved(Chain(onError, fin, k, n, s), j - k, d, Chain(onError, fin', k, n, Apply(s, d)))
    ensures forall i :: 0 <= i < j - k ==> Chain(onError, fin, k, n, s)[i].delta == NOTHING
    decreases j - k
  {
    if j == k {
      var f, g := fin(j, s), fin'(j, Apply(s, d));
      ApplyAssociative(s, d, g.delta);
      if Fails(onError, f.out) {
        HeadOneMoved(f, d, g, []);
        assert [f] + [] == [f] && [g] + [] == [g];
      } else {
        ChainSame(onError, fin, fin', j, k + 1, n, Apply(s, f.delta));
        HeadOneMoved(f, d, g, Chain(onError, fin, k + 1, n, Apply(s, f.delta)));
      }
    } else {
      ApplyNothing(s);
      ApplyNothing(Apply(s, d));
      SequentialMove(onError, fin, fin', k + 1, j, n, d, s);
      ConsOneMoved(fin(k, s), Chain(onError, fin, k + 1, n, s), j - k - 1, d, Chain(onError, fin', k + 1, n, Apply(s, d)));
    }
  }

  // ----- a step in a parallel loop: unfinished members before the running one are finished first -----

  /** e writes apart from the step's change d and from what the moving member f looks at. */
  ghost predicate ApartFrom(e: Effect<BodyOut>, d: Store, f: Effect<BodyOut>) {
    && !e.looks.last && !e.looks.all
    && e.delta.names.Keys !! d.names.Keys
    && e.looks.names !! d.names.Keys
    && e.delta.names.Keys !! f.looks.names
  }

  lemma AgreeAfterStep(s: Store, t: Store, t': Store, d: Store, r: Reads, q: Reads)
    requires Agree(s, t, r) && Within(q, r) && !r.last && !r.all
    requires t'.names == t.names + d.names
    ensures Agree(Apply(s, d), t', q)
  {
    forall n | n in q.names
      ensures SameAt(Apply(s, d), t', n)
    {
      assert SameAt(s, t, n);
    }
  }

  lemma AgreeBesideWrites(s: Store, t: Store, e: Store, r: Reads)
    requires Agree(s, t, r) && e.names.Keys !! r.names && !r.last && !r.all
    ensures Agree(s, Apply(t, e), r)
  {
    forall n | n in r.names
      ensures SameAt(s, Apply(t, e), n)
    {
      assert SameAt(s, t, n);
    }
  }

  ghost predicate NoFailureNoLast(onError: OnError, effs: seq<Effect<BodyOut>>, n: nat) {
    |effs| == n && forall i :: 0 <= i < n ==> !Fails(onError, effs[i].out) && !effs[i].looks.last
  }

  lemma ChainUnfolds(onError: OnError, fin: Finisher, k: nat, n: nat, t: Store)
    requires k < n && NoFailureNoLast(onError, Chain(onError, fin, k, n, t), n - k)
    ensures Chain(onError, fin, k, n, t) == [fin(k, t)] + Chain(onError, fin, k + 1, n, Apply(t, fin(k, t).delta))
    ensures NoFailureNoLast(onError, Chain(onError, fin, k + 1, n, Apply(t, fin(k, t).delta)), n - k - 1)
    ensures !Fails(onError, fin(k, t).out) && !fin(k, t).looks.last
  {
    var effs := Chain(onError, fin, k, n, t);
    assert effs[0] == fin(k, t);
    var rest := Chain(onError, fin, k + 1, n, Apply(t, fin(k, t).delta));
    forall i | 0 <= i < |rest|
      ensures !Fails(onError, rest[i].out) && !rest[i].looks.last
    {
      assert rest[i] == effs[i + 1];
    }
  }

  lemma ParallelMoveHead(onError: OnError, fin: Finisher, fin': Finisher, k: nat, n: nat, d: Store, s: Store, t: Store, t': Store)
    requires k < n && Local(fin, n) && Local(fin', n) && SameBut(fin, fin', n, k)
    requires Continues(fin(k, s), d, fin'(k, Apply(s, d)))
    requires !fin(k, s).looks.last && !fin(k, s).looks.all
    requires Agree(s, t, fin(k, s).looks) && t'.names == t.names + d.names
    requires NoFailureNoLast(onError, Chain(onError, fin, k, n, t), n - k)
    ensures Chain(onError, fin, k, n, t)[0] == fin(k, s)
    ensures OneMoved(Chain(onError, fin, k, n, t), 0, d, Chain(onError, fin', k, n, t'))
  {
    ChainUnfolds(onError, fin, k, n, t);
    var f, g := fin(k, s), fin'(k, Apply(s, d));
    assert fin(k, t) == f;
    AgreeAfterStep(s, t, t', d, f.looks, g.looks);
    assert fin'(k, t') == g;
    var rest := Chain(onError, fin, k + 1, n, Apply(t, f.delta));
    assert t.names + d.names + g.delta.names == t.names + (d.names + g.delta.names);
    ChainIgnoresLast(onError, fin, k + 1, n, Apply(t, f.delta), Apply(t', g.delta));
    ChainSame(onError, fin, fin', k, k + 1, n, Apply(t', g.delta));
    HeadOneMoved(f, d, g, rest);
  }

  lemma KeepsApart(t: Store, t': Store, d: Store, e: Effect<BodyOut>, f: Effect<BodyOut>)
    requires t'.names == t.names + d.names && ApartFrom(e, d, f)
    ensures Agree(t, t', e.looks)
    ensures Apply(t', e.delta).names == Apply(t, e.delta).names + d.names
  {
    SwapWrites(d.names, e.delta.names, map[]);
  }

  /** s is where member j took its step d; t is where the chain reaches member k, t' the same with d. */
  lemma {:induction false} ParallelMove(onError: OnError, fin: Finisher, fin': Finisher, k: nat, j: nat, n: nat, d: Store,
                                        s: Store, t: Store, t': Store)
    requires k <= j < n && Local(fin, n) && Local(fin', n) && SameBut(fin, fin', n, j)
    requires Continues(fin(j, s), d, fin'(j, Apply(s, d)))
    requires !fin(j, s).looks.last && !fin(j, s).looks.all
    requires Agree(s, t, fin(j, s).looks) && t'.names == t.names + d.names
    requires NoFailureNoLast(onError, Chain(onError, fin, k, n, t), n - k)
    requires forall i :: 0 <= i < j - k ==> ApartFrom(Chain(onError, fin, k, n, t)[i], d, fin(j, s))
    ensures Chain(onError, fin, k, n, t)[j - k] == fin(j, s)
    ensures OneMoved(Chain(onError, fin, k, n, t), j - k, d, Chain(onError, fin', k, n, t'))
    decreases j - k
  {
    if j == k {
      ParallelMoveHead(onError, fin, fin', k, n, d, s, t, t');
    } else {
      var effs := Chain(onError, fin, k, n, t);
      ChainUnfolds(onError, fin, k, n, t);
      var e := fin(k, t);
      var rest := Chain(onError, fin, k + 1, n, Apply(t, e.delta));
      assert effs[0] == e;
      KeepsApart(t, t', d, e, fin(j, s));
      assert fin'(k, t') == fin(k, t') == e;
      AgreeBesideWrites(s, t, e.delta, fin(j, s).looks);
      forall i | 0 <= i < j - k - 1
        ensures ApartFrom(rest[i], d, fin(j, s))
      {
        assert rest[i] == effs[i + 1];
      }
      ParallelMove(onError, fin, fin', k + 1, j, n, d, s, Apply(t, e.delta), Apply(t', e.delta));
      ConsOneMoved(e, rest, j - k - 1, d, Chain(onError, fin', k + 1, n, Apply(t', e.delta)));
    }
  }

  lemma IndependentTail(effs: seq<Effect<BodyOut>>, e: Effect<BodyOut>, rest: seq<Effect<BodyOut>>)
    requires effs == [e] + rest && Independent(effs)
    ensures Independent(rest)
    ensures forall i :: 0 <= i < |rest| ==> e.delta.names.Keys !! rest[i].looks.names && !rest[i].looks.last && !rest[i].looks.all
  {
    forall i, j | 0 <= i < |rest| && 0 <= j < |rest| && i != j
      ensures rest[i].delta.names.Keys !! rest[j].delta.names.Keys + rest[j].looks.names
    {
      assert effs[i + 1] == rest[i] && effs[j + 1] == rest[j];
      assert effs[i + 1].delta.names.Keys !! effs[j + 1].delta.names.Keys + effs[j + 1].looks.names;
    }
    forall i | 0 <= i < |rest|
      ensures e.delta.names.Keys !! rest[i].looks.names && !rest[i].looks.last && !rest[i].looks.all
    {
      assert effs[0].delta.names.Keys !! effs[i + 1].delta.names.Keys + effs[i + 1].looks.names;
    }
  }

  lemma AgreeWithStart(t: Store, s: Store, d: Store, r: Reads)
    requires Agree(t, s, r) && d.names.Keys !! r.names && !r.last && !r.all
    ensures Agree(Apply(t, d), s, r)
  {
    forall x | x in r.names
      ensures SameAt(Apply(t, d), s, x)
    {
      assert SameAt(t, s, x);
    }
  }

  /** In an independent chain every member does what it would do from the chain's start. */
  lemma {:induction false} IndependentMemberRunsAlone(onError: OnError, fin: Finisher, k: nat, j: nat, n: nat, s: Store, t: Store)
    requires k <= j < n && Local(fin, n)
    requires NoFailureNoLast(onError, Chain(onError, fin, k, n, t), n - k)
    requires Independent(Chain(onError, fin, k, n, t))
    requires Agree(t, s, Chain(onError, fin, k, n, t)[j - k].looks)
    ensures Chain(onError, fin, k, n, t)[j - k] == fin(j, s)
    decreases j - k
  {
    ChainUnfolds(onError, fin, k, n, t);
    if j > k {
      var e := fin(k, t);
      var t' := Apply(t, e.delta);
      var rest := Chain(onError, fin, k + 1, n, t');
      IndependentTail(Chain(onError, fin, k, n, t), e, rest);
      AgreeWithStart(t, s, e.delta, rest[j - k - 1].looks);
      IndependentMemberRunsAlone(onError, fin, k + 1, j, n, s, t');
    }
  }

  /** One member of an independent chain takes a step, whatever the others have left to do. */
  lemma IndependentMove(onError: OnError, fin: Finisher, fin': Finisher, j: nat, n: nat, d: Store, s: Store)
    requires j < n && Local(fin, n) && Local(fin', n) && SameBut(fin, fin', n, j)
    requires ParallelSafe(Chain(onError, fin, 0, n, s), n, onError)
    requires Continues(fin(j, s), d, fin'(j, Apply(s, d)))
    ensures OneMoved(Chain(onError, fin, 0, n, s), j, d, Chain(onError, fin', 0, n, Apply(s, d)))
  {
    var effs := Chain(onError, fin, 0, n, s);
    IndependentMemberRunsAlone(onError, fin, 0, j, n, s, s);
    ContinuesWritesLess(fin(j, s), d, fin'(j, Apply(s, d)));
    forall i | 0 <= i < j
      ensures ApartFrom(effs[i], d, fin(j, s))
    {
      assert effs[i].delta.names.Keys !! effs[j].delta.names.Keys + effs[j].looks.names;
      assert effs[j].delta.names.Keys !! effs[i].delta.names.Keys + effs[i].looks.names;
    }
    ParallelMove(onError, fin, fin', 0, j, n, d, s, s, Apply(s, d));
  }

  // ----- a whole loop -----

  lemma OutsOneMoved(effs: seq<Effect<BodyOut>>, j: nat, d: Store, effs': seq<Effect<BodyOut>>)
    requires OneMoved(effs, j, d, effs')
    ensures Records(effs') == Records(effs)
    ensures effs'[|effs| - 1].out == effs[|effs| - 1].out
  {
    forall i | 0 <= i < |effs|
      ensures effs'[i].out == effs[i].out
    {
    }
  }

  lemma SequentialLoopContinues(loop: Loop, effs: seq<Effect<BodyOut>>, j: nat, d: Store, effs': seq<Effect<BodyOut>>,
                                frames: seq<Frame>, w: World)
    requires OneMoved(effs, j, d, effs') && !loop.wide
    requires LoopEffect(loop, effs, frames, w).raceFree
    requires forall i :: 0 <= i < j ==> effs[i].delta == NOTHING
    ensures Continues(LoopEffect(loop, effs, frames, w), d, LoopEffect(loop, effs', frames, w))
  {
    OutsOneMoved(effs, j, d, effs');
    SumReadsOneMoved(effs, j, d, effs');
    SumDeltaOneMoved(effs, j, d, effs');
    ApplyAssociative(d, SumDelta(effs'), UpdateLast(List(Records(effs)), w));
  }

  lemma ContinuesWritesLess(f: Effect<BodyOut>, d: Store, g: Effect<BodyOut>)
    requires Continues(f, d, g)
    ensures d.names.Keys <= f.delta.names.Keys && g.delta.names.Keys <= f.delta.names.Keys
  {
    assert f.delta.names.Keys == d.names.Keys + g.delta.names.Keys;
  }

  lemma IndependentOneMoved(effs: seq<Effect<BodyOut>>, j: nat, d: Store, effs': seq<Effect<BodyOut>>)
    requires OneMoved(effs, j, d, effs') && Independent(effs)
    ensures Independent(effs')
    ensures forall i :: 0 <= i < |effs| && i != j ==> ApartFrom(effs[i], d, effs[j])
  {
    ContinuesWritesLess(effs[j], d, effs'[j]);
    forall a, b | 0 <= a < |effs| && 0 <= b < |effs| && a != b
      ensures effs'[a].delta.names.Keys !! effs'[b].delta.names.Keys + effs'[b].looks.names
    {
      assert effs[a].delta.names.Keys !! effs[b].delta.names.Keys + effs[b].looks.names;
      assert effs'[a].delta.names.Keys <= effs[a].delta.names.Keys;
      assert effs'[b].delta.names.Keys <= effs[b].delta.names.Keys;
      assert effs'[b].looks.names <= effs[b].looks.names;
    }
    forall i | 0 <= i < |effs| && i != j
      ensures ApartFrom(effs[i], d, effs[j])
    {
      assert effs[i].delta.names.Keys !! effs[j].delta.names.Keys + effs[j].looks.names;
      assert effs[j].delta.names.Keys !! effs[i].delta.names.Keys + effs[i].looks.names;
    }
  }

  lemma ParallelSafeOneMoved(effs: seq<Effect<BodyOut>>, j: nat, d: Store, effs': seq<Effect<BodyOut>>, n: nat, onError: OnError)
    requires OneMoved(effs, j, d, effs') && ParallelSafe(effs, n, onError)
    requires forall i :: 0 <= i < |effs| ==> effs[i].raceFree
    ensures ParallelSafe(effs', n, onError)
    ensures forall i :: 0 <= i < |effs'| ==> effs'[i].raceFree
  {
    IndependentOneMoved(effs, j, d, effs');
    forall i | 0 <= i < |effs'|
      ensures !Fails(onError, effs'[i].out) && effs'[i].raceFree
    {
      assert effs'[i].out == effs[i].out;
    }
  }

  lemma FinalWrite(a: Store, d: Store, b: Store, last: Store)
    requires d.names + b.names == a.names && last.last.Some?
    ensures Apply(d, Apply(b, last)) == Apply(a, last)
  {
  }

  lemma ParallelLoopContinues(loop: Loop, effs: seq<Effect<BodyOut>>, j: nat, d: Store, effs': seq<Effect<BodyOut>>,
                              frames: seq<Frame>, w: World)
    requires OneMoved(effs, j, d, effs') && loop.wide
    requires LoopEffect(loop, effs, frames, w).raceFree
    ensures Continues(LoopEffect(loop, effs, frames, w), d, LoopEffect(loop, effs', frames, w))
  {
    ParallelSafeOneMoved(effs, j, d, effs', |loop.items|, loop.onError);
    OutsOneMoved(effs, j, d, effs');
    IndependentOneMoved(effs, j, d, effs');
    SumReadsOneMoved(effs, j, d, effs');
    SumNamesOneMoved(effs, j, d, effs');
    FinalWrite(SumDelta(effs), d, SumDelta(effs'), UpdateLast(List(Records(effs)), w));
    var f, g := LoopEffect(loop, effs, frames, w), LoopEffect(loop, effs', frames, w);
    assert !Fails(loop.onError, effs[|effs| - 1].out);
    assert g.out == f.out;
    assert f.delta == Apply(SumDelta(effs), UpdateLast(List(Records(effs)), w));
    assert g.delta == Apply(SumDelta(effs'), UpdateLast(List(Records(effs)), w));
  }
}
