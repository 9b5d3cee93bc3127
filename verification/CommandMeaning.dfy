/** What each command answers and leaves in the session, said of `Exec` itself (src/runtime/execute.ts,
    src/verbs/save.ts). */
module CommandMeaning {
  import opened Values
  import opened Ast
  import opened Evaluate
  import opened Verbs
  import opened Runtime
  import opened Chains
  import Join

  /** The statement failed and changed nothing. */
  ghost predicate Refused(st: Stmt, code: ErrorCode, frames: seq<Frame>, s: Store, w: World) {
    Exec(st, frames, s, w).out == Failed(code) && Apply(s, Exec(st, frames, s, w).delta) == s
  }

  /** The statement answered with v; v is `$_` and, for an assignment, the target's value, without a deadline. */
  ghost predicate AnsweredAndBound(st: Stmt, verb: string, v: Value, target: Option<string>, frames: seq<Frame>, s: Store, w: World) {
    && Exec(st, frames, s, w).out == Responded(verb, Some(v), target)
    && Apply(s, Exec(st, frames, s, w).delta) ==
       Store(if target.Some? then s.names[target.value := Binding(v, w.now, None)] else s.names, Some(Binding(v, w.now, None)))
  }

  /** The same without binding anything but `$_`. */
  ghost predicate AnsweredOnly(st: Stmt, verb: string, v: Value, frames: seq<Frame>, s: Store, w: World) {
    && Exec(st, frames, s, w).out == Responded(verb, Some(v), None)
    && Apply(s, Exec(st, frames, s, w).delta) == Store(s.names, Some(Binding(v, w.now, None)))
  }

  ghost function Stated(cmd: Command, target: Option<string>): Stmt {
    if target.Some? then Assign(target.value, cmd) else Run(cmd)
  }

  lemma AnswerLeaves(cmd: Command, target: Option<string>, verb: string, r: Result<Value>, frames: seq<Frame>, s: Store, w: World)
    requires Immediate(cmd, target, Scoped(frames, s, w)) == Answer(verb, r, target, w)
    ensures r.Ok? ==> AnsweredAndBound(Stated(cmd, target), verb, r.value, target, frames, s, w)
    ensures r.Err? ==> Refused(Stated(cmd, target), r.code, frames, s, w)
  {
    ApplyNothing(s);
    if r.Ok? && target.Some? {
      assert s.names + map[target.value := Fresh(r.value, w)] == s.names[target.value := Fresh(r.value, w)];
    }
  }

  lemma ShownLeaves(cmd: Command, target: Option<string>, verb: string, r: Result<Value>, frames: seq<Frame>, s: Store, w: World)
    requires Immediate(cmd, target, Scoped(frames, s, w)) == Shown(verb, r, w)
    ensures r.Ok? ==> AnsweredOnly(Stated(cmd, target), verb, r.value, frames, s, w)
    ensures r.Err? ==> Refused(Stated(cmd, target), r.code, frames, s, w)
  {
    ApplyNothing(s);
  }

  // ----- filter, transform, merge -----

  lemma FilterAnswers(e: Expr, p: Pred, v: Value, target: Option<string>, frames: seq<Frame>, s: Store, w: World)
    requires Eval(e, Scoped(frames, s, w)) == Ok(v)
    ensures var r, st := Filtered(v, p, Scoped(frames, s, w)), Stated(Filter(e, p), target);
            && (r.Ok? ==> AnsweredAndBound(st, "filter", r.value, target, frames, s, w))
            && (r.Err? ==> Refused(st, r.code, frames, s, w))
  {
    AnswerLeaves(Filter(e, p), target, "filter", Filtered(v, p, Scoped(frames, s, w)), frames, s, w);
  }

  lemma TransformAnswers(e: Expr, op: TransformOp, v: Value, target: Option<string>, frames: seq<Frame>, s: Store, w: World)
    requires Eval(e, Scoped(frames, s, w)) == Ok(v)
    ensures var r, st := Transformed(v, op, Scoped(frames, s, w)), Stated(Transform(e, op), target);
            && (r.Ok? ==> AnsweredAndBound(st, "transform", r.value, target, frames, s, w))
            && (r.Err? ==> Refused(st, r.code, frames, s, w))
  {
    AnswerLeaves(Transform(e, op), target, "transform", Transformed(v, op, Scoped(frames, s, w)), frames, s, w);
  }

  lemma MergeAnswers(l: Expr, r: Expr, key: Path, strategy: Strategy, a: Value, b: Value, target: Option<string>, frames: seq<Frame>, s: Store, w: World)
    requires Eval(l, Scoped(frames, s, w)) == Ok(a) && Eval(r, Scoped(frames, s, w)) == Ok(b)
    ensures var m, st := Join.Merged(a, b, key, strategy, Scoped(frames, s, w)), Stated(Merge(l, r, key, strategy), target);
            && (m.Ok? ==> AnsweredAndBound(st, "merge", m.value, target, frames, s, w))
            && (m.Err? ==> Refused(st, m.code, frames, s, w))
  {
    AnswerLeaves(Merge(l, r, key, strategy), target, "merge", Join.Merged(a, b, key, strategy, Scoped(frames, s, w)), frames, s, w);
  }

  /** A target that has no value fails its command before anything changes; of two the left one first. */
  lemma TargetFails(e: Expr, code: ErrorCode, other: Expr, p: Pred, op: TransformOp, key: Path, strategy: Strategy,
                    target: Option<string>, frames: seq<Frame>, s: Store, w: World)
    requires Eval(e, Scoped(frames, s, w)) == Err(code)
    ensures Refused(Stated(Filter(e, p), target), code, frames, s, w)
    ensures Refused(Stated(Transform(e, op), target), code, frames, s, w)
    ensures Refused(Stated(Merge(e, other, key, strategy), target), code, frames, s, w)
    ensures Eval(other, Scoped(frames, s, w)).Ok? ==> Refused(Stated(Merge(other, e, key, strategy), target), code, frames, s, w)
  {
    AnswerLeaves(Filter(e, p), target, "filter", Err(code), frames, s, w);
    AnswerLeaves(Transform(e, op), target, "transform", Err(code), frames, s, w);
    AnswerLeaves(Merge(e, other, key, strategy), target, "merge", Err(code), frames, s, w);
    if Eval(other, Scoped(frames, s, w)).Ok? {
      AnswerLeaves(Merge(other, e, key, strategy), target, "merge", Err(code), frames, s, w);
    }
  }

  // ----- meta commands -----

  /** A meta command answers and sets `$_`; it binds no name, not even the target of an assignment. */
  lemma MetaAnswers(e: Expr, v: Value, n: nat, target: Option<string>, frames: seq<Frame>, s: Store, w: World)
    requires Eval(e, Scoped(frames, s, w)) == Ok(v)
    ensures AnsweredOnly(Stated(Show(e), target), "show", v, frames, s, w)
    ensures AnsweredOnly(Stated(Describe(e), target), "describe", w.describe(v), frames, s, w)
    ensures AnsweredOnly(Stated(Head(e, n), target), "head", HeadOf(v, n), frames, s, w)
  {
    ShownLeaves(Show(e), target, "show", Ok(v), frames, s, w);
    ShownLeaves(Describe(e), target, "describe", Ok(w.describe(v)), frames, s, w);
    ShownLeaves(Head(e, n), target, "head", Ok(HeadOf(v, n)), frames, s, w);
  }

  /** So do those without a target. */
  lemma LookupsAnswer(n: nat, topic: Option<string>, target: Option<string>, frames: seq<Frame>, s: Store, w: World)
    ensures AnsweredOnly(Stated(History(n), target), "history", w.history(n), frames, s, w)
    ensures AnsweredOnly(Stated(Help(topic), target), "help", w.help(topic), frames, s, w)
  {
    ShownLeaves(History(n), target, "history", Ok(w.history(n)), frames, s, w);
    ShownLeaves(Help(topic), target, "help", Ok(w.help(topic)), frames, s, w);
  }

  lemma MetaFails(e: Expr, code: ErrorCode, n: nat, target: Option<string>, frames: seq<Frame>, s: Store, w: World)
    requires Eval(e, Scoped(frames, s, w)) == Err(code)
    ensures Refused(Stated(Show(e), target), code, frames, s, w)
    ensures Refused(Stated(Describe(e), target), code, frames, s, w)
    ensures Refused(Stated(Head(e, n), target), code, frames, s, w)
  {
    ShownLeaves(Show(e), target, "show", Err(code), frames, s, w);
    ShownLeaves(Describe(e), target, "describe", Err(code), frames, s, w);
    ShownLeaves(Head(e, n), target, "head", Err(code), frames, s, w);
  }

  /** `env` lists, in sorted order, the names whose bindings have no deadline or one still to come. */
  lemma EnvLists(target: Option<string>, frames: seq<Frame>, s: Store, w: World) returns (v: Value)
    ensures AnsweredOnly(Stated(Env, target), "env", v, frames, s, w)
    ensures v.Rec? && v.fields.Keys == {"bindings", "env_overlay_keys"}
    ensures v.fields["env_overlay_keys"] == List([])
    ensures var names := w.sorted(set n | n in s.names && (s.names[n].ttlDeadlineMs.Some? ==> w.now < s.names[n].ttlDeadlineMs.value));
            v.fields["bindings"] == List(seq(|names|, i requires 0 <= i < |names| => Str(names[i])))
  {
    v := EnvValue(Scoped(frames, s, w));
    ShownLeaves(Env, target, "env", Ok(v), frames, s, w);
    EnvNames(frames, s, w);
  }

  lemma EnvNames(frames: seq<Frame>, s: Store, w: World)
    ensures var names := w.sorted(set n | n in s.names && (s.names[n].ttlDeadlineMs.Some? ==> w.now < s.names[n].ttlDeadlineMs.value));
            EnvValue(Scoped(frames, s, w)).fields["bindings"] == List(seq(|names|, i requires 0 <= i < |names| => Str(names[i])))
  {
    assert (set n | n in s.names && (s.names[n].ttlDeadlineMs.Some? ==> w.now < s.names[n].ttlDeadlineMs.value)) ==
           set n | n in s.names && Live(s.names[n], w.now);
  }

  // ----- wait -----

  /** `wait` changes nothing, not even `$_`; more than an hour is refused. */
  lemma WaitAnswers(ms: nat, target: Option<string>, frames: seq<Frame>, s: Store, w: World)
    ensures ms > 3600000 ==> Refused(Stated(Wait(ms), target), CAPABILITY_DENIED, frames, s, w)
    ensures ms <= 3600000 ==> Exec(Stated(Wait(ms), target), frames, s, w).out == Responded("wait", None, None)
    ensures ms <= 3600000 ==> Apply(s, Exec(Stated(Wait(ms), target), frames, s, w).delta) == s
  {
    ApplyNothing(s);
  }

  // ----- call -----

  /** The call is admitted before each argument and after the last, on the arguments evaluated so far. */
  ghost predicate Admitted(tag: string, vals: seq<Value>, n: nat, w: World) {
    forall i :: 0 <= i < n && i <= |vals| ==> w.admit(tag, vals[..i]) == None
  }

  lemma {:induction false} ArgsEvaluate(tag: string, args: seq<Expr>, done: seq<Value>, vals: seq<Value>, sc: Scope)
    requires |vals| == |args| && forall i :: 0 <= i < |args| ==> Eval(args[i], sc) == Ok(vals[i])
    requires forall i :: 0 <= i <= |vals| ==> sc.w.admit(tag, done + vals[..i]) == None
    ensures EvalArgs(tag, args, done, sc) == Ok(done + vals)
    decreases |args|
  {
    assert done + vals[..0] == done;
    if args == [] {
      assert done + vals == done;
    } else {
      forall i | 0 <= i <= |vals| - 1
        ensures sc.w.admit(tag, done + [vals[0]] + vals[1..][..i]) == None
      {
        assert done + [vals[0]] + vals[1..][..i] == done + vals[..i + 1];
      }
      ArgsEvaluate(tag, args[1..], done + [vals[0]], vals[1..], sc);
      assert done + [vals[0]] + vals[1..] == done + vals;
    }
  }

  /** `call` sends its arguments in the order in which they are written, and binds the reply. */
  lemma CallAnswers(tag: string, args: seq<Expr>, vals: seq<Value>, target: Option<string>, frames: seq<Frame>, s: Store, w: World)
    requires |vals| == |args| && forall i :: 0 <= i < |args| ==> Eval(args[i], Scoped(frames, s, w)) == Ok(vals[i])
    requires Admitted(tag, vals, |vals| + 1, w)
    ensures var r, st := w.reply(tag, vals), Stated(Call(tag, args), target);
            && (r.Ok? ==> AnsweredAndBound(st, "call", r.value, target, frames, s, w))
            && (r.Err? ==> Refused(st, r.code, frames, s, w))
  {
    var none: seq<Value> := [];
    forall i | 0 <= i <= |vals|
      ensures w.admit(tag, none + vals[..i]) == None
    {
      assert none + vals[..i] == vals[..i];
    }
    ArgsEvaluate(tag, args, none, vals, Scoped(frames, s, w));
    assert none + vals == vals;
    AnswerLeaves(Call(tag, args), target, "call", w.reply(tag, vals), frames, s, w);
  }

  lemma {:induction false} ArgsFail(tag: string, args: seq<Expr>, done: seq<Value>, vals: seq<Value>, code: ErrorCode, sc: Scope)
    requires |vals| <= |args| && forall i :: 0 <= i < |vals| ==> Eval(args[i], sc) == Ok(vals[i])
    requires forall i :: 0 <= i < |vals| ==> sc.w.admit(tag, done + vals[..i]) == None
    requires || sc.w.admit(tag, done + vals) == Some(code)
             || (sc.w.admit(tag, done + vals) == None && |vals| < |args| && Eval(args[|vals|], sc) == Err(code))
    ensures EvalArgs(tag, args, done, sc) == Err(code)
    decreases |args|
  {
    if vals == [] {
      assert done + vals == done;
    } else {
      assert done + vals[..0] == done;
      forall i | 0 <= i < |vals| - 1
        ensures sc.w.admit(tag, done + [vals[0]] + vals[1..][..i]) == None
      {
        assert done + [vals[0]] + vals[1..][..i] == done + vals[..i + 1];
      }
      assert done + [vals[0]] + vals[1..] == done + vals;
      ArgsFail(tag, args[1..], done + [vals[0]], vals[1..], code, sc);
    }
  }

  /** The first refusal, or the first argument without a value, ends a `call` before anything is sent. */
  lemma CallRefused(tag: string, args: seq<Expr>, vals: seq<Value>, code: ErrorCode, target: Option<string>, frames: seq<Frame>, s: Store, w: World)
    requires |vals| <= |args| && forall i :: 0 <= i < |vals| ==> Eval(args[i], Scoped(frames, s, w)) == Ok(vals[i])
    requires Admitted(tag, vals, |vals|, w)
    requires || w.admit(tag, vals) == Some(code)
             || (w.admit(tag, vals) == None && |vals| < |args| && Eval(args[|vals|], Scoped(frames, s, w)) == Err(code))
    ensures Refused(Stated(Call(tag, args), target), code, frames, s, w)
  {
    var none: seq<Value> := [];
    forall i | 0 <= i < |vals|
      ensures w.admit(tag, none + vals[..i]) == None
    {
      assert none + vals[..i] == vals[..i];
    }
    assert none + vals == vals;
    ArgsFail(tag, args, none, vals, code, Scoped(frames, s, w));
    ApplyNothing(s);
  }

  // ----- save -----

  /** The name is free: absent, or bound with a deadline that has come. */
  ghost predicate Free(s: Store, name: string, now: int) {
    name in s.names ==> s.names[name].ttlDeadlineMs.Some? && s.names[name].ttlDeadlineMs.value <= now
  }

  lemma NamesAfterSave(m: map<string, Binding>, name: string, b: Binding, other: string, c: Binding)
    ensures m + map[name := b] == m[name := b]
    ensures m + map[name := b][other := c] == m[name := b][other := c]
  {
  }

  lemma SaveDoes(e: Expr, as_: Expr, v: Value, name: string, ttlMs: Option<nat>, overwrite: bool, target: Option<string>, sc: Scope)
    requires Eval(e, sc) == Ok(v) && Eval(as_, sc) == Ok(Str(name))
    requires name != "_" && (overwrite || Free(sc.store, name, sc.w.now))
    ensures var saved := map[name := Binding(v, sc.w.now, if ttlMs.Some? then Some(sc.w.now + ttlMs.value) else None)];
            Immediate(Save(e, as_, ttlMs, overwrite), target, sc) ==
            Act(Responded("save", Some(v), Some(name)),
                Store(if target.Some? && target.value != "" && target.value != name then saved[target.value := Fresh(v, sc.w)] else saved,
                      Some(Fresh(v, sc.w))))
  {
  }

  /** `save` binds the value under the name, to expire its time-to-live from now, under `$_` and, when it has another
      name, under the target of the assignment; nothing else changes, and the answer names the save target. */
  lemma SaveBinds(e: Expr, as_: Expr, v: Value, name: string, ttlMs: Option<nat>, overwrite: bool, target: Option<string>,
                  frames: seq<Frame>, s: Store, w: World)
    requires Eval(e, Scoped(frames, s, w)) == Ok(v) && Eval(as_, Scoped(frames, s, w)) == Ok(Str(name))
    requires name != "_" && (overwrite || Free(s, name, w.now))
    ensures var st := Stated(Save(e, as_, ttlMs, overwrite), target);
            var saved := s.names[name := Binding(v, w.now, if ttlMs.Some? then Some(w.now + ttlMs.value) else None)];
            && Exec(st, frames, s, w).out == Responded("save", Some(v), Some(name))
            && Apply(s, Exec(st, frames, s, w).delta) ==
               Store(if target.Some? && target.value != "" && target.value != name then saved[target.value := Binding(v, w.now, None)] else saved,
                     Some(Binding(v, w.now, None)))
  {
    SaveDoes(e, as_, v, name, ttlMs, overwrite, target, Scoped(frames, s, w));
    NamesAfterSave(s.names, name, Binding(v, w.now, if ttlMs.Some? then Some(w.now + ttlMs.value) else None),
                   if target.Some? then target.value else "", Fresh(v, w));
  }

  /** `save` refuses the reserved name, a name in use, and a name that is no text, in which cases nothing changes. */
  lemma SaveRefuses(e: Expr, as_: Expr, v: Value, n: Value, ttlMs: Option<nat>, overwrite: bool, target: Option<string>,
                    frames: seq<Frame>, s: Store, w: World)
    requires Eval(e, Scoped(frames, s, w)) == Ok(v) && Eval(as_, Scoped(frames, s, w)) == Ok(n)
    ensures var st := Stated(Save(e, as_, ttlMs, overwrite), target);
            && (!n.Str? ==> Refused(st, PARSE_ERROR, frames, s, w))
            && (n == Str("_") ==> Refused(st, SCOPE_MISS, frames, s, w))
            && (n.Str? && n.text != "_" && !overwrite && !Free(s, n.text, w.now) ==> Refused(st, CONFLICT, frames, s, w))
  {
    ApplyNothing(s);
  }

  /** A value or a name that cannot be evaluated fails it too, the value first. */
  lemma SaveFails(e: Expr, as_: Expr, code: ErrorCode, ttlMs: Option<nat>, overwrite: bool, target: Option<string>,
                  frames: seq<Frame>, s: Store, w: World)
    requires var v, n := Eval(e, Scoped(frames, s, w)), Eval(as_, Scoped(frames, s, w)); v == Err(code) || (v.Ok? && n == Err(code))
    ensures Refused(Stated(Save(e, as_, ttlMs, overwrite), target), code, frames, s, w)
  {
    ApplyNothing(s);
  }

  // ----- round trip through the session -----

  /** What was saved is what its name stands for until its deadline, and no longer, whenever it is looked up. */
  lemma SavedThenRead(e: Expr, as_: Expr, v: Value, name: string, ttlMs: Option<nat>, overwrite: bool, s: Store, w: World, later: World)
    requires Eval(e, Scoped([], s, w)) == Ok(v) && Eval(as_, Scoped([], s, w)) == Ok(Str(name))
    requires name != "_" && (overwrite || Free(s, name, w.now))
    ensures var t := Apply(s, Exec(Run(Save(e, as_, ttlMs, overwrite)), [], s, w).delta);
            Eval(EVar(name), Scoped([], t, later)) ==
            if ttlMs.None? || later.now < w.now + ttlMs.value then Ok(v) else Err(SCOPE_MISS)
  {
    SaveBinds(e, as_, v, name, ttlMs, overwrite, None, [], s, w);
    assert Stated(Save(e, as_, ttlMs, overwrite), None) == Run(Save(e, as_, ttlMs, overwrite));
  }

  /** The verb of a response is that of the statement, in records of iterations too. */
  lemma ResponseNamesVerb(st: Stmt, frames: seq<Frame>, s: Store, w: World)
    ensures Exec(st, frames, s, w).out.Responded? ==> Exec(st, frames, s, w).out.verb == VerbName(st)
  {
  }
}
