/** A run depends on the session only through its footprint: two stores that agree on what the run
    looks at give the very same effect. */
module Locality {
  import opened Values
  import opened Ast
  import opened Evaluate
  import opened Verbs
  import opened Runtime
  import Join

  // ----- expressions and verbs: scopes in which the same paths resolve alike -----

  function AtItem(sc: Scope, item: Option<Value>): Scope {
    sc.(item := item)
  }

  /** The paths resolve alike whatever the implicit item is. */
  ghost predicate Alike(ps: set<Path>, sc: Scope, sc': Scope) {
    && sc.w == sc'.w && sc.item == sc'.item
    && forall item: Option<Value> :: Agrees(ps, AtItem(sc, item), AtItem(sc', item))
  }

  lemma AlikeWithItem(ps: set<Path>, sc: Scope, sc': Scope, item: Value)
    requires Alike(ps, sc, sc')
    ensures Agrees(ps, WithItem(sc, item), WithItem(sc', item))
  {
    assert AtItem(sc, Some(item)) == WithItem(sc, item) && AtItem(sc', Some(item)) == WithItem(sc', item);
  }

  lemma AlikeSubset(ps: set<Path>, qs: set<Path>, sc: Scope, sc': Scope)
    requires Alike(qs, sc, sc') && ps <= qs
    ensures Alike(ps, sc, sc')
  {
    forall item: Option<Value>
      ensures Agrees(ps, AtItem(sc, item), AtItem(sc', item))
    {
      assert Agrees(qs, AtItem(sc, item), AtItem(sc', item));
    }
  }

  lemma EvalAlike(e: Expr, ps: set<Path>, sc: Scope, sc': Scope)
    requires Alike(ps, sc, sc') && Paths(e) <= ps
    ensures Eval(e, sc) == Eval(e, sc')
  {
    assert AtItem(sc, sc.item) == sc && AtItem(sc', sc'.item) == sc';
    EvalAgrees(e, sc, sc');
  }

  lemma {:induction false} KeptAlike(items: seq<Value>, p: Pred, sc: Scope, sc': Scope)
    requires Alike(PathsPred(p), sc, sc')
    ensures Kept(items, p, sc) == Kept(items, p, sc')
  {
    if items != [] {
      var n := |items| - 1;
      KeptAlike(items[..n], p, sc, sc');
      AlikeWithItem(PathsPred(p), sc, sc', items[n]);
      EvalPredAgrees(p, WithItem(sc, items[n]), WithItem(sc', items[n]));
    }
  }

  lemma AppliedAlike(op: TransformOp, item: Value, sc: Scope, sc': Scope)
    requires Alike(OpPaths(op), sc, sc')
    ensures Applied(op, item, sc) == Applied(op, item, sc')
  {
    if item.Rec? {
      AlikeWithItem(OpPaths(op), sc, sc', item);
      match op
      case SetFields(pairs) => EvalPairsAgrees(pairs, item.fields, WithItem(sc, item), WithItem(sc', item));
      case MapTo(template) => EvalPairsAgrees(template, map[], WithItem(sc, item), WithItem(sc', item));
      case _ =>
    }
  }

  lemma {:induction false} AppliedAllAlike(op: TransformOp, items: seq<Value>, sc: Scope, sc': Scope)
    requires Alike(OpPaths(op), sc, sc')
    ensures AppliedAll(op, items, sc) == AppliedAll(op, items, sc')
  {
    if items != [] {
      AppliedAllAlike(op, items[..|items| - 1], sc, sc');
      AppliedAlike(op, items[|items| - 1], sc, sc');
    }
  }

  lemma TransformedAlike(op: TransformOp, v: Value, sc: Scope, sc': Scope)
    requires Alike(OpPaths(op), sc, sc')
    ensures Transformed(v, op, sc) == Transformed(v, op, sc')
  {
    if v.List? { AppliedAllAlike(op, v.items, sc, sc'); } else { AppliedAlike(op, v, sc, sc'); }
  }

  lemma {:induction false} RowKeysAlike(rows: seq<Join.Row>, key: Path, sc: Scope, sc': Scope)
    requires Alike({key}, sc, sc')
    ensures Join.RowKeys(rows, key, sc) == Join.RowKeys(rows, key, sc')
  {
    if rows != [] {
      var n := |rows| - 1;
      RowKeysAlike(rows[..n], key, sc, sc');
      AlikeWithItem({key}, sc, sc', Rec(rows[n]));
      assert PathAgrees(key, WithItem(sc, Rec(rows[n])), WithItem(sc', Rec(rows[n])));
    }
  }

  lemma MergedAlike(l: Value, r: Value, key: Path, strategy: Strategy, sc: Scope, sc': Scope)
    requires Alike({key}, sc, sc')
    ensures Join.Merged(l, r, key, strategy, sc) == Join.Merged(l, r, key, strategy, sc')
  {
    if Join.RecordList(l) && Join.RecordList(r) {
      RowKeysAlike(Join.RowsOf(r), key, sc, sc');
      RowKeysAlike(Join.RowsOf(l), key, sc, sc');
    }
  }

  lemma MergeResultAlike(left: Result<Value>, right: Result<Value>, key: Path, strategy: Strategy, sc: Scope, sc': Scope)
    requires Alike({key}, sc, sc')
    ensures MergeResult(left, right, key, strategy, sc) == MergeResult(left, right, key, strategy, sc')
  {
    if left.Ok? && right.Ok? { MergedAlike(left.value, right.value, key, strategy, sc, sc'); }
  }

  lemma {:induction false} EvalArgsAlike(tag: string, args: seq<Expr>, done: seq<Value>, sc: Scope, sc': Scope)
    requires Alike(PathsAll(args), sc, sc')
    ensures EvalArgs(tag, args, done, sc) == EvalArgs(tag, args, done, sc')
    decreases args
  {
    if args != [] {
      EvalAlike(args[0], PathsAll(args), sc, sc');
      AlikeSubset(PathsAll(args[1..]), PathsAll(args), sc, sc');
      if Eval(args[0], sc).Ok? { EvalArgsAlike(tag, args[1..], done + [Eval(args[0], sc).value], sc, sc'); }
    }
  }

  /** The two places where a command goes to the session past the frames: the name check of `save`
      and the name list of `env`. */
  ghost predicate SameDirect(cmd: Command, sc: Scope, sc': Scope) {
    match cmd
    case Save(_, as_, _, overwrite) =>
      overwrite || (match Eval(as_, sc)
                    case Ok(name) => name.Str? && name.text != "_" ==>
                        StoreLookup(sc.store, name.text, sc.w.now) == StoreLookup(sc'.store, name.text, sc.w.now)
                    case Err(_) => true)
    case Env => EnvValue(sc) == EnvValue(sc')
    case _ => true
  }

  /** A command does the same in scopes in which its paths resolve alike. */
  lemma ImmediateAlike(cmd: Command, bindTo: Option<string>, sc: Scope, sc': Scope)
    requires Alike(CommandPaths(cmd), sc, sc') && SameDirect(cmd, sc, sc')
    ensures Immediate(cmd, bindTo, sc) == Immediate(cmd, bindTo, sc')
  {
    var ps := CommandPaths(cmd);
    match cmd
    case Call(tag, args) => EvalArgsAlike(tag, args, [], sc, sc');
    case Filter(e, p) =>
      EvalAlike(e, ps, sc, sc');
      AlikeSubset(PathsPred(p), ps, sc, sc');
      if Eval(e, sc).Ok? && Eval(e, sc).value.List? { KeptAlike(Eval(e, sc).value.items, p, sc, sc'); }
    case Transform(e, op) =>
      EvalAlike(e, ps, sc, sc');
      AlikeSubset(OpPaths(op), ps, sc, sc');
      if Eval(e, sc).Ok? { TransformedAlike(op, Eval(e, sc).value, sc, sc'); }
    case Save(e, as_, ttlMs, overwrite) =>
      EvalAlike(e, ps, sc, sc');
      EvalAlike(as_, ps, sc, sc');
    case Merge(l, r, key, strategy) =>
      EvalAlike(l, ps, sc, sc');
      EvalAlike(r, ps, sc, sc');
      AlikeSubset({key}, ps, sc, sc');
      MergeResultAlike(Eval(l, sc), Eval(r, sc), key, strategy, sc, sc');
    case Describe(e) => EvalAlike(e, ps, sc, sc');
    case Head(e, _) => EvalAlike(e, ps, sc, sc');
    case Show(e) => EvalAlike(e, ps, sc, sc');
    case _ =>
  }

  // ----- stores that agree on a footprint -----

  lemma SameLookup(name: string, s: Store, t: Store, r: Reads, now: int)
    requires Agree(s, t, r) && (if name == "_" then r.last else name in r.names)
    ensures StoreLookup(s, name, now) == StoreLookup(t, name, now)
  {
    if name != "_" { assert SameAt(s, t, name); }
  }

  lemma FootprintAlike(ps: set<Path>, frames: seq<Frame>, s: Store, t: Store, w: World)
    requires Agree(s, t, PathReads(ps, frames))
    ensures Alike(ps, Scoped(frames, s, w), Scoped(frames, t, w))
  {
    var r := PathReads(ps, frames);
    forall item: Option<Value>, p | p in ps
      ensures PathAgrees(p, AtItem(Scoped(frames, s, w), item), AtItem(Scoped(frames, t, w), item))
    {
      if FrameLookup(frames, p.root).None? && (p.root == "" ==> p.steps == []) {
        if p.root != "_" { assert p.root in r.names; }
        SameLookup(p.root, s, t, r, w.now);
      }
    }
  }

  lemma CommandLocal(cmd: Command, bindTo: Option<string>, frames: seq<Frame>, s: Store, t: Store, w: World)
    requires Agree(s, t, CommandReads(cmd, Scoped(frames, s, w)))
    ensures CommandEffect(cmd, bindTo, frames, t, w) == CommandEffect(cmd, bindTo, frames, s, w)
  {
    var sc, sc' := Scoped(frames, s, w), Scoped(frames, t, w);
    FootprintAlike(CommandPaths(cmd), frames, s, t, w);
    match cmd {
      case Save(e, as_, _, overwrite) =>
        EvalAlike(as_, CommandPaths(cmd), sc, sc');
        match Eval(as_, sc) {
          case Ok(name) => if name.Str? && name.text != "_" && !overwrite { SameLookup(name.text, s, t, CommandReads(cmd, sc), w.now); }
          case Err(_) =>
        }
      case _ =>
    }
    ImmediateAlike(cmd, bindTo, sc, sc');
  }

  // ----- statements -----

  lemma AgreeApply(s: Store, t: Store, d: Store, r: Reads)
    requires Agree(s, t, r)
    ensures Agree(Apply(s, d), Apply(t, d), r)
  {
    forall n | n in r.names
      ensures SameAt(Apply(s, d), Apply(t, d), n)
    {
      assert SameAt(s, t, n);
    }
  }

  lemma {:induction false} ExecLocal(st: Stmt, frames: seq<Frame>, s: Store, t: Store, w: World)
    requires Agree(s, t, Exec(st, frames, s, w).looks)
    ensures Exec(st, frames, t, w) == Exec(st, frames, s, w)
    decreases st, 1, 0
  {
    var sc, sc' := Scoped(frames, s, w), Scoped(frames, t, w);
    match st
    case Assign(target, cmd) => CommandLocal(cmd, Some(target), frames, s, t, w);
    case Run(cmd) => CommandLocal(cmd, None, frames, s, t, w);
    case If(p, thenBody, elseBody) =>
      FootprintAlike(PathsPred(p), frames, s, t, w);
      assert AtItem(sc, None) == sc && AtItem(sc', None) == sc';
      EvalPredAgrees(p, sc, sc');
      match EvalPred(p, sc) {
        case Err(_) =>
        case Ok(yes) =>
          if yes { ExecBodyLocal(thenBody, "?", None, frames, s, t, w); }
          else { ExecBodyLocal(elseBody, "?", None, frames, s, t, w); }
      }
    case Foreach(itemVar, list, parallel, onError, body) =>
      FootprintAlike(Paths(list), frames, s, t, w);
      EvalAlike(list, Paths(list), sc, sc');
      match Eval(list, sc) {
        case Err(_) =>
        case Ok(v) =>
          if v.List? {
            var loop := Loop(itemVar, onError, body, v.items, Concurrency(parallel, |v.items|) > 1);
            ExecIterationsLocal(st, loop, 0, frames, s, t, w);
          }
      }
  }

  lemma {:induction false} ExecBodyLocal(stmts: seq<Stmt>, verb: string, binding: Option<string>, frames: seq<Frame>, s: Store, t: Store, w: World)
    requires Agree(s, t, ExecBody(stmts, verb, binding, frames, s, w).looks)
    ensures ExecBody(stmts, verb, binding, frames, t, w) == ExecBody(stmts, verb, binding, frames, s, w)
    decreases stmts, 0, 0
  {
    if stmts != [] {
      var e := Exec(stmts[0], frames, s, w);
      ExecLocal(stmts[0], frames, s, t, w);
      match e.out
      case Failed(_) =>
      case Responded(_, _, b) =>
        var rest := ExecBody(stmts[1..], VerbName(stmts[0]), b, frames, Apply(s, e.delta), w);
        AgreeApply(s, t, e.delta, rest.looks);
        ExecBodyLocal(stmts[1..], VerbName(stmts[0]), b, frames, Apply(s, e.delta), Apply(t, e.delta), w);
    }
  }

  lemma {:induction false} ExecIterationsLocal(st: Stmt, loop: Loop, k: nat, frames: seq<Frame>, s: Store, t: Store, w: World)
    requires st.Foreach? && loop.body == st.body && k <= |loop.items|
    requires Agree(s, t, SumReads(ExecIterations(st, loop, k, frames, s, w)))
    ensures ExecIterations(st, loop, k, frames, t, w) == ExecIterations(st, loop, k, frames, s, w)
    decreases st, 0, |loop.items| - k
  {
    if k < |loop.items| {
      var frames' := frames + [Frame(loop.itemVar, loop.items[k])];
      var e := ExecBody(st.body, "?", None, frames', s, w);
      var effs := ExecIterations(st, loop, k, frames, s, w);
      assert effs[0] == e;
      ExecBodyLocal(st.body, "?", None, frames', s, t, w);
      if !Fails(loop.onError, e.out) {
        var rest := ExecIterations(st, loop, k + 1, frames, Apply(s, e.delta), w);
        assert effs[1..] == rest;
        AgreeApply(s, t, e.delta, SumReads(rest));
        ExecIterationsLocal(st, loop, k + 1, frames, Apply(s, e.delta), Apply(t, e.delta), w);
      }
    }
  }
}
