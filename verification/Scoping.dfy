/** Iteration frames against the older way to scope an item variable: bind it in the session, run the
    body, put the old binding back. The two agree on programs whose loops leave the session binding
    of their item variable's name alone. */
module Scoping {
  import opened Values
  import opened Ast
  import opened Evaluate
  import opened Runtime
  import opened Locality
  import opened Chains

  // ----- the interpreter without frames -----

  datatype Ran<R> = Ran(out: R, store: Store)

  function Restore(s: Store, name: string, was: Option<Binding>): Store {
    s.(names := if was.Some? then s.names[name := was.value] else s.names - {name})
  }

  function Held(s: Store, name: string): Option<Binding> {
    if name in s.names then Some(s.names[name]) else None
  }

  function BindRun(st: Stmt, s: Store, w: World): Ran<Outcome>
    decreases st, 1, 0
  {
    match st
    case Assign(target, cmd) => var e := CommandEffect(cmd, Some(target), [], s, w); Ran(e.out, Apply(s, e.delta))
    case Run(cmd) => var e := CommandEffect(cmd, None, [], s, w); Ran(e.out, Apply(s, e.delta))
    case If(p, thenBody, elseBody) =>
      (match EvalPred(p, Scoped([], s, w))
       case Err(c) => Ran(Failed(c), s)
       case Ok(yes) =>
         var b := BindBody(if yes then thenBody else elseBody, "?", None, s, w);
         if b.out.err.Some? then Ran(Failed(b.out.err.value), b.store)
         else Ran(Responded("if", Some(BranchTag(yes)), None), Apply(b.store, UpdateLast(BranchTag(yes), w))))
    case Foreach(itemVar, list, parallel, onError, body) =>
      (match Eval(list, Scoped([], s, w))
       case Err(c) => Ran(Failed(c), s)
       case Ok(v) => if !v.List? then Ran(Failed(PARSE_ERROR), s) else BindLoop(st, v.items, 0, [], s, w))
  }

  function BindBody(stmts: seq<Stmt>, verb: string, binding: Option<string>, s: Store, w: World): Ran<BodyOut>
    decreases stmts, 0, 0
  {
    if stmts == [] then Ran(BodyOut(verb, binding, None), s)
    else
      var r := BindRun(stmts[0], s, w);
      match r.out
      case Failed(c) => Ran(BodyOut(verb, binding, Some(c)), r.store)
      case Responded(_, _, b) => BindBody(stmts[1..], VerbName(stmts[0]), b, r.store, w)
  }

  /** Bind the item, run the body, restore; an aborting failure restores too. */
  function BindLoop(st: Stmt, items: seq<Value>, k: nat, records: seq<Value>, s: Store, w: World): Ran<Outcome>
    requires st.Foreach? && k <= |items|
    decreases st, 0, |items| - k
  {
    if k == |items| then Ran(Responded("foreach", Some(List(records)), None), Apply(s, UpdateLast(List(records), w)))
    else
      var bound := s.(names := s.names[st.itemVar := Fresh(items[k], w)]);
      var r := BindBody(st.body, "?", None, bound, w);
      var after := Restore(r.store, st.itemVar, Held(s, st.itemVar));
      if Fails(st.onError, r.out) then Ran(Failed(r.out.err.value), after)
      else BindLoop(st, items, k + 1, records + [IterationRecord(k, r.out)], after, w)
  }

  // ----- a framed store flattened -----

  function FrameMap(frames: seq<Frame>, w: World): map<string, Binding> {
    if frames == [] then map[]
    else
      var top := frames[|frames| - 1];
      FrameMap(frames[..|frames| - 1], w)[top.name := Fresh(top.item, w)]
  }

  /** The session a program without frames would see: every frame variable bound, inner over outer. */
  function Flat(s: Store, frames: seq<Frame>, w: World): Store {
    s.(names := s.names + FrameMap(frames, w))
  }

  ghost predicate NoUnderscore(frames: seq<Frame>) {
    forall i :: 0 <= i < |frames| ==> frames[i].name != "_"
  }

  lemma {:induction false} FrameMapLooksUp(frames: seq<Frame>, name: string, w: World)
    ensures match FrameLookup(frames, name)
            case Some(v) => name in FrameMap(frames, w) && FrameMap(frames, w)[name] == Fresh(v, w)
            case None => name !in FrameMap(frames, w)
    ensures NoUnderscore(frames) && name == "_" ==> FrameLookup(frames, name).None?
  {
    if frames != [] { FrameMapLooksUp(frames[..|frames| - 1], name, w); }
  }

  lemma FlatAlike(ps: set<Path>, frames: seq<Frame>, s: Store, w: World)
    requires NoUnderscore(frames)
    ensures Alike(ps, Scoped(frames, s, w), Scoped([], Flat(s, frames, w), w))
  {
    var sc, sc' := Scoped(frames, s, w), Scoped([], Flat(s, frames, w), w);
    forall item: Option<Value>, p | p in ps
      ensures PathAgrees(p, AtItem(sc, item), AtItem(sc', item))
    {
      FrameMapLooksUp(frames, p.root, w);
      assert Lookup(AtItem(sc, item), p.root) == Lookup(AtItem(sc', item), p.root);
    }
  }

  // ----- the simulation -----

  /** The run did not go to the session for a name some frame binds. */
  ghost predicate Untouched<R>(e: Effect<R>, frames: seq<Frame>) {
    && (frames != [] ==> !e.looks.all)
    && forall i :: 0 <= i < |frames| ==> frames[i].name !in e.looks.names && frames[i].name !in e.delta.names
  }

  lemma {:induction false} FrameMapNames(frames: seq<Frame>, name: string, w: World)
    ensures name in FrameMap(frames, w) <==> exists i :: 0 <= i < |frames| && frames[i].name == name
  {
    if frames != [] {
      var n := |frames| - 1;
      FrameMapNames(frames[..n], name, w);
      assert forall i :: 0 <= i < n ==> frames[..n][i] == frames[i];
      if i :| 0 <= i < |frames| && frames[i].name == name && i < n {
        assert frames[..n][i].name == name;
      }
      if frames[n].name == name { assert frames[|frames| - 1].name == name; }
    }
  }

  lemma UntouchedCommutes<R>(s: Store, e: Effect<R>, frames: seq<Frame>, w: World)
    requires Untouched(e, frames)
    ensures Flat(Apply(s, e.delta), frames, w) == Apply(Flat(s, frames, w), e.delta)
  {
    forall n | n in e.delta.names
      ensures n !in FrameMap(frames, w)
    {
      FrameMapNames(frames, n, w);
    }
    SwapOver(s.names, e.delta.names, FrameMap(frames, w));
  }

  lemma SwapOver(s: map<string, Binding>, d: map<string, Binding>, f: map<string, Binding>)
    requires forall n :: n in d ==> n !in f
    ensures s + d + f == s + f + d
  {
  }

  lemma {:induction false} CommandSimulated(cmd: Command, bindTo: Option<string>, frames: seq<Frame>, s: Store, w: World)
    requires NoUnderscore(frames) && Untouched(CommandEffect(cmd, bindTo, frames, s, w), frames)
    ensures var e := CommandEffect(cmd, bindTo, frames, s, w);
            var flat := CommandEffect(cmd, bindTo, [], Flat(s, frames, w), w);
            flat.out == e.out && Apply(Flat(s, frames, w), flat.delta) == Flat(Apply(s, e.delta), frames, w)
  {
    var e := CommandEffect(cmd, bindTo, frames, s, w);
    var sc, sc' := Scoped(frames, s, w), Scoped([], Flat(s, frames, w), w);
    FlatAlike(CommandPaths(cmd), frames, s, w);
    match cmd {
      case Save(_, as_, _, overwrite) =>
        EvalAlike(as_, CommandPaths(cmd), sc, sc');
        match Eval(as_, sc) {
          case Ok(name) =>
            if name.Str? && name.text != "_" && !overwrite {
              assert name.text in e.looks.names;
              FrameMapNames(frames, name.text, w);
            }
          case Err(_) =>
        }
      case Env =>
        if frames == [] { assert Flat(s, frames, w) == s; }
      case _ =>
    }
    ImmediateAlike(cmd, bindTo, sc, sc');
    UntouchedCommutes(s, e, frames, w);
  }

  lemma UntouchedParts<A, B>(e: Effect<A>, f: Effect<B>, frames: seq<Frame>)
    requires Untouched(Then(e, f), frames)
    ensures Untouched(e, frames) && Untouched(f, frames)
  {
  }

  lemma {:induction false} RunSimulated(st: Stmt, frames: seq<Frame>, s: Store, w: World)
    requires NoUnderscore(frames)
    requires Exec(st, frames, s, w).scoped && Untouched(Exec(st, frames, s, w), frames)
    ensures var e := Exec(st, frames, s, w);
            BindRun(st, Flat(s, frames, w), w) == Ran(e.out, Flat(Apply(s, e.delta), frames, w))
    decreases st, 1, 0
  {
    match st
    case Assign(target, cmd) => CommandSimulated(cmd, Some(target), frames, s, w);
    case Run(cmd) => CommandSimulated(cmd, None, frames, s, w);
    case If(p, thenBody, elseBody) => IfSimulated(st, frames, s, w);
    case Foreach(itemVar, list, parallel, onError, body) => ForeachSimulated(st, frames, s, w);
  }

  lemma {:induction false} IfSimulated(st: Stmt, frames: seq<Frame>, s: Store, w: World)
    requires st.If? && NoUnderscore(frames)
    requires Exec(st, frames, s, w).scoped && Untouched(Exec(st, frames, s, w), frames)
    ensures var e := Exec(st, frames, s, w);
            BindRun(st, Flat(s, frames, w), w) == Ran(e.out, Flat(Apply(s, e.delta), frames, w))
    decreases st, 0, 1
  {
    var sc := Scoped(frames, s, w);
    FlatAlike(PathsPred(st.cond), frames, s, w);
    assert AtItem(sc, None) == sc && AtItem(Scoped([], Flat(s, frames, w), w), None) == Scoped([], Flat(s, frames, w), w);
    EvalPredAgrees(st.cond, sc, Scoped([], Flat(s, frames, w), w));
    ApplyNothing(s);
    match EvalPred(st.cond, sc)
    case Err(_) =>
    case Ok(yes) =>
      var stmts := if yes then st.thenBody else st.elseBody;
      var b := ExecBody(stmts, "?", None, frames, s, w);
      var end := BranchEnd(BranchTag(yes), b.out, frames, w);
      assert Exec(st, frames, s, w) == Then(Reading(PathsPred(st.cond), frames), Then(b, end));
      UntouchedParts(Reading(PathsPred(st.cond), frames), Then(b, end), frames);
      UntouchedParts(b, end, frames);
      BodySimulated(stmts, "?", None, frames, s, w);
      ApplyNothing(Apply(b.delta, end.delta));
      ApplyNothing(b.delta);
      ApplyAssociative(s, b.delta, end.delta);
      UntouchedCommutes(Apply(s, b.delta), end, frames, w);
  }

  lemma {:induction false} BodySimulated(stmts: seq<Stmt>, verb: string, binding: Option<string>, frames: seq<Frame>, s: Store, w: World)
    requires NoUnderscore(frames)
    requires var e := ExecBody(stmts, verb, binding, frames, s, w); e.scoped && Untouched(e, frames)
    ensures var e := ExecBody(stmts, verb, binding, frames, s, w);
            BindBody(stmts, verb, binding, Flat(s, frames, w), w) == Ran(e.out, Flat(Apply(s, e.delta), frames, w))
    decreases stmts, 0, 0
  {
    ApplyNothing(s);
    if stmts != [] {
      var e := Exec(stmts[0], frames, s, w);
      match e.out {
        case Failed(c) =>
          UntouchedParts(e, Quiet(BodyOut(verb, binding, Some(c)), frames), frames);
          RunSimulated(stmts[0], frames, s, w);
          ApplyNothing(e.delta);
        case Responded(_, _, b) =>
          var rest := ExecBody(stmts[1..], VerbName(stmts[0]), b, frames, Apply(s, e.delta), w);
          UntouchedParts(e, rest, frames);
          RunSimulated(stmts[0], frames, s, w);
          BodySimulated(stmts[1..], VerbName(stmts[0]), b, frames, Apply(s, e.delta), w);
          ApplyAssociative(s, e.delta, rest.delta);
      }
    }
  }

  lemma {:induction false} ForeachSimulated(st: Stmt, frames: seq<Frame>, s: Store, w: World)
    requires st.Foreach? && NoUnderscore(frames)
    requires Exec(st, frames, s, w).scoped && Untouched(Exec(st, frames, s, w), frames)
    ensures var e := Exec(st, frames, s, w);
            BindRun(st, Flat(s, frames, w), w) == Ran(e.out, Flat(Apply(s, e.delta), frames, w))
    decreases st, 0, 1
  {
    var sc, e := Scoped(frames, s, w), Exec(st, frames, s, w);
    FlatAlike(Paths(st.list), frames, s, w);
    EvalAlike(st.list, Paths(st.list), sc, Scoped([], Flat(s, frames, w), w));
    ApplyNothing(s);
    match Eval(st.list, sc)
    case Err(_) =>
    case Ok(v) =>
      if v.List? {
        var loop := Loop(st.itemVar, st.onError, st.body, v.items, Concurrency(st.parallel, |v.items|) > 1);
        var f := LoopEffect(loop, ExecIterations(st, loop, 0, frames, s, w), frames, w);
        assert e == Then(Reading(Paths(st.list), frames), f);
        ApplyNothing(f.delta);
        UntouchedParts(Reading(Paths(st.list), frames), f, frames);
        LoopOutcomeSimulated(st, loop, frames, s, w);
      }
  }

  lemma {:induction false} LoopOutcomeSimulated(st: Stmt, loop: Loop, frames: seq<Frame>, s: Store, w: World)
    requires st.Foreach? && loop.body == st.body && loop.itemVar == st.itemVar && loop.onError == st.onError && NoUnderscore(frames)
    requires var f := LoopEffect(loop, ExecIterations(st, loop, 0, frames, s, w), frames, w); f.scoped && Untouched(f, frames)
    ensures var f := LoopEffect(loop, ExecIterations(st, loop, 0, frames, s, w), frames, w);
            BindLoop(st, loop.items, 0, [], Flat(s, frames, w), w) == Ran(f.out, Flat(Apply(s, f.delta), frames, w))
    decreases st, 0, 0, 2 + |loop.items|
  {
    var effs := ExecIterations(st, loop, 0, frames, s, w);
    UntouchedSum(effs, frames, LoopEffect(loop, effs, frames, w));
    LoopSimulated(st, loop, 0, [], frames, s, w);
    LoopRanIsEffect(loop, effs, frames, s, w);
  }

  lemma {:induction false} UntouchedEach(effs: seq<Effect<BodyOut>>, frames: seq<Frame>)
    requires frames != [] ==> !SumReads(effs).all
    requires forall i :: 0 <= i < |frames| ==> frames[i].name !in SumReads(effs).names && frames[i].name !in SumDelta(effs).names
    ensures forall i :: 0 <= i < |effs| ==> Untouched(effs[i], frames)
  {
    if effs != [] {
      UntouchedEach(effs[1..], frames);
      assert Untouched(effs[0], frames);
    }
  }

  lemma UntouchedSum(effs: seq<Effect<BodyOut>>, frames: seq<Frame>, f: Effect<Outcome>)
    requires Untouched(f, frames) && f.looks == SumReads(effs)
    requires f.delta.names == SumDelta(effs).names
    ensures forall i :: 0 <= i < |effs| ==> Untouched(effs[i], frames)
  {
    UntouchedEach(effs, frames);
  }

  /** Pushing a frame for the body is binding its variable, and popping it is restoring. */
  lemma FlatBindsAndRestores(s: Store, frames: seq<Frame>, name: string, item: Value, w: World, e: Effect<BodyOut>)
    requires Untouched(e, frames) && name !in e.delta.names
    ensures var fs := frames + [Frame(name, item)];
            var flat := Flat(s, frames, w);
            && Flat(s, fs, w) == flat.(names := flat.names[name := Fresh(item, w)])
            && Restore(Flat(Apply(s, e.delta), fs, w), name, Held(flat, name)) == Flat(Apply(s, e.delta), frames, w)
  {
    FlatPushed(s, frames, name, item, w);
    FlatPushed(Apply(s, e.delta), frames, name, item, w);
    UntouchedCommutes(s, e, frames, w);
    RestoreUndoes(Flat(Apply(s, e.delta), frames, w), name, Fresh(item, w), Held(Flat(s, frames, w), name));
  }

  lemma FlatPushed(s: Store, frames: seq<Frame>, name: string, item: Value, w: World)
    ensures var flat := Flat(s, frames, w);
            Flat(s, frames + [Frame(name, item)], w) == flat.(names := flat.names[name := Fresh(item, w)])
  {
    var fs := frames + [Frame(name, item)];
    assert fs[..|fs| - 1] == frames;
    assert FrameMap(fs, w) == FrameMap(frames, w)[name := Fresh(item, w)];
  }

  lemma RestoreUndoes(s: Store, name: string, b: Binding, was: Option<Binding>)
    requires was == Held(s, name)
    ensures Restore(s.(names := s.names[name := b]), name, was) == s
  {
  }

  /** One iteration of each kind. */
  lemma {:induction false} IterationSimulated(st: Stmt, loop: Loop, k: nat, frames: seq<Frame>, s: Store, w: World)
    requires st.Foreach? && loop.itemVar == st.itemVar && k < |loop.items| && NoUnderscore(frames) && st.itemVar != "_"
    requires var e := ExecBody(st.body, "?", None, frames + [Frame(loop.itemVar, loop.items[k])], s, w);
             e.scoped && Untouched(e, frames) && st.itemVar !in e.looks.names && st.itemVar !in e.delta.names && !e.looks.all
    ensures var e := ExecBody(st.body, "?", None, frames + [Frame(loop.itemVar, loop.items[k])], s, w);
            var flat := Flat(s, frames, w);
            var r := BindBody(st.body, "?", None, flat.(names := flat.names[st.itemVar := Fresh(loop.items[k], w)]), w);
            r.out == e.out && Restore(r.store, st.itemVar, Held(flat, st.itemVar)) == Flat(Apply(s, e.delta), frames, w)
    decreases st, 0, 0, 0
  {
    var fs := frames + [Frame(loop.itemVar, loop.items[k])];
    var e := ExecBody(st.body, "?", None, fs, s, w);
    assert NoUnderscore(fs) && Untouched(e, fs);
    BodySimulated(st.body, "?", None, fs, s, w);
    FlatBindsAndRestores(s, frames, st.itemVar, loop.items[k], w, e);
  }

  function Numbered(k: nat, effs: seq<Effect<BodyOut>>): (vs: seq<Value>)
    ensures |vs| == |effs|
  {
    seq(|effs|, i requires 0 <= i < |effs| => IterationRecord(k + i, effs[i].out))
  }

  /** How a loop ends whose iterations from k on do `effs`, starting from s, seen without frames. */
  function LoopRan(onError: OnError, effs: seq<Effect<BodyOut>>, k: nat, records: seq<Value>, frames: seq<Frame>, s: Store, w: World): Ran<Outcome> {
    if effs != [] && Fails(onError, effs[|effs| - 1].out) then
      Ran(Failed(effs[|effs| - 1].out.err.value), Flat(Apply(s, SumDelta(effs)), frames, w))
    else
      var vs := List(records + Numbered(k, effs));
      Ran(Responded("foreach", Some(vs), None), Flat(Apply(s, Apply(SumDelta(effs), UpdateLast(vs, w))), frames, w))
  }

  lemma LoopRanUnfolds(onError: OnError, e: Effect<BodyOut>, rest: seq<Effect<BodyOut>>, k: nat, records: seq<Value>,
                       frames: seq<Frame>, s: Store, w: World)
    requires Fails(onError, e.out) ==> rest == []
    ensures LoopRan(onError, [e] + rest, k, records, frames, s, w) ==
            if Fails(onError, e.out) then Ran(Failed(e.out.err.value), Flat(Apply(s, e.delta), frames, w))
            else LoopRan(onError, rest, k + 1, records + [IterationRecord(k, e.out)], frames, Apply(s, e.delta), w)
  {
    var effs := [e] + rest;
    assert effs[1..] == rest;
    ApplyNothing(e.delta);
    ApplyAssociative(s, e.delta, SumDelta(rest));
    assert rest != [] ==> effs[|effs| - 1] == rest[|rest| - 1];
    assert records + Numbered(k, effs) == records + [IterationRecord(k, e.out)] + Numbered(k + 1, rest);
    var last := UpdateLast(List(records + Numbered(k, effs)), w);
    ApplyAssociative(e.delta, SumDelta(rest), last);
    ApplyAssociative(s, e.delta, Apply(SumDelta(rest), last));
  }

  lemma LoopRanIsEffect(loop: Loop, effs: seq<Effect<BodyOut>>, frames: seq<Frame>, s: Store, w: World)
    ensures var f := LoopEffect(loop, effs, frames, w);
            LoopRan(loop.onError, effs, 0, [], frames, s, w) == Ran(f.out, Flat(Apply(s, f.delta), frames, w))
  {
    assert [] + Numbered(0, effs) == Records(effs);
  }

  /** No iteration touches the item's binding or looks behind a frame. */
  ghost predicate AllKeep(effs: seq<Effect<BodyOut>>, name: string, frames: seq<Frame>) {
    LeavesAlone(effs, name) && forall i :: 0 <= i < |effs| ==> effs[i].scoped && Untouched(effs[i], frames)
  }

  lemma KeepTail(e: Effect<BodyOut>, rest: seq<Effect<BodyOut>>, name: string, frames: seq<Frame>)
    requires AllKeep([e] + rest, name, frames)
    ensures e.scoped && Untouched(e, frames) && name !in e.looks.names && name !in e.delta.names && !e.looks.all
    ensures AllKeep(rest, name, frames)
  {
    var effs := [e] + rest;
    assert effs[0] == e;
    forall i | 0 <= i < |rest|
      ensures rest[i] == effs[i + 1]
    {
    }
  }

  lemma LoopEndSimulated(st: Stmt, loop: Loop, records: seq<Value>, frames: seq<Frame>, s: Store, w: World)
    requires st.Foreach? && loop.body == st.body
    ensures BindLoop(st, loop.items, |loop.items|, records, Flat(s, frames, w), w) ==
            LoopRan(loop.onError, ExecIterations(st, loop, |loop.items|, frames, s, w), |loop.items|, records, frames, s, w)
  {
    assert records + Numbered(|loop.items|, []) == records;
    ApplyNothing(UpdateLast(List(records), w));
  }

  lemma {:induction false} LoopSimulated(st: Stmt, loop: Loop, k: nat, records: seq<Value>, frames: seq<Frame>, s: Store, w: World)
    requires st.Foreach? && loop.body == st.body && loop.itemVar == st.itemVar && loop.onError == st.onError
    requires k <= |loop.items| && NoUnderscore(frames)
    requires AllKeep(ExecIterations(st, loop, k, frames, s, w), st.itemVar, frames)
    ensures BindLoop(st, loop.items, k, records, Flat(s, frames, w), w) ==
            LoopRan(loop.onError, ExecIterations(st, loop, k, frames, s, w), k, records, frames, s, w)
    decreases st, 0, 0, 1 + |loop.items| - k
  {
    if k == |loop.items| {
      LoopEndSimulated(st, loop, records, frames, s, w);
    } else {
      var e := ExecBody(st.body, "?", None, frames + [Frame(loop.itemVar, loop.items[k])], s, w);
      var rest := if Fails(st.onError, e.out) then [] else ExecIterations(st, loop, k + 1, frames, Apply(s, e.delta), w);
      IterationsUnfold(st, loop, k, frames, s, w);
      KeepTail(e, rest, st.itemVar, frames);
      IterationSimulated(st, loop, k, frames, s, w);
      LoopRanUnfolds(loop.onError, e, rest, k, records, frames, s, w);
      if !Fails(st.onError, e.out) {
        LoopSimulated(st, loop, k + 1, records + [IterationRecord(k, e.out)], frames, Apply(s, e.delta), w);
      }
    }
  }

  lemma FlatWithoutFrames(s: Store, w: World)
    ensures Flat(s, [], w) == s
  {
  }

  /** The theorem at top level: frames simulate bind-and-restore, for every such program and session. */
  lemma FramesSimulateBindings(st: Stmt, s: Store, w: World)
    requires Exec(st, [], s, w).scoped
    ensures BindRun(st, s, w) == Ran(Exec(st, [], s, w).out, Apply(s, Exec(st, [], s, w).delta))
  {
    RunSimulated(st, [], s, w);
    FlatWithoutFrames(s, w);
    FlatWithoutFrames(Apply(s, Exec(st, [], s, w).delta), w);
  }
}
