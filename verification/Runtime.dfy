/** The dispatcher (src/runtime/execute.ts) as a sequential semantics with footprints.

    An Effect says what running a statement does to the session as a change laid over it, which
    session names it looked at, and three facts about the run: whether its parallel loops were free
    of interference, whether its loops left their item variable alone, and how many iteration frames
    were stacked at most. */
module Runtime {
  import opened Values
  import opened Ast
  import opened Evaluate
  import opened Verbs
  import Join

  // ----- changes and footprints -----

  const NOTHING := Store(map[], None)

  /** A store with a change laid over it. */
  function Apply(s: Store, d: Store): Store {
    Store(s.names + d.names, if d.last.Some? then d.last else s.last)
  }

  /** Session state looked at: names, `$_`, or the whole list of names (`env`). */
  datatype Reads = Reads(names: set<string>, last: bool, all: bool)

  const NO_READS := Reads({}, false, false)

  function Both(r: Reads, q: Reads): Reads {
    Reads(r.names + q.names, r.last || q.last, r.all || q.all)
  }

  /** The session reads of variable paths; a name a frame binds is not read from the session. */
  function PathReads(ps: set<Path>, frames: seq<Frame>): Reads {
    Reads(
      set p | p in ps && (p.root == "" ==> p.steps == []) && p.root != "_" && FrameLookup(frames, p.root).None? :: p.root,
      FrameLookup(frames, "_").None? && exists p :: p in ps && p.root == "_",
      false)
  }

  ghost predicate SameAt(s: Store, t: Store, name: string) {
    if name in s.names then name in t.names && s.names[name] == t.names[name] else name !in t.names
  }

  /** Two stores that a computation with these reads cannot tell apart. */
  ghost predicate Agree(s: Store, t: Store, r: Reads) {
    && (forall n :: n in r.names ==> SameAt(s, t, n))
    && (r.last ==> s.last == t.last)
    && (r.all ==> s.names == t.names)
  }

  datatype Effect<R> = Effect(out: R, delta: Store, looks: Reads, raceFree: bool, scoped: bool, peak: nat)

  /** First e, then f, f's outcome being the outcome. */
  function Then<A, B>(e: Effect<A>, f: Effect<B>): Effect<B> {
    Effect(f.out, Apply(e.delta, f.delta), Both(e.looks, f.looks), e.raceFree && f.raceFree, e.scoped && f.scoped, Max(e.peak, f.peak))
  }

  // ----- commands -----

  /** The canonical response of a statement, or the code it failed with. */
  datatype Outcome = Responded(verb: string, value: Option<Value>, binding: Option<string>) | Failed(code: ErrorCode)

  datatype Act = Act(out: Outcome, delta: Store)

  function Fresh(v: Value, w: World): Binding {
    Binding(v, w.now, None)
  }

  function UpdateLast(v: Value, w: World): Store {
    Store(map[], Some(Fresh(v, w)))
  }

  /** `finishAndBind`: the value becomes `$_` and, for an assignment, the target. */
  function FinishAndBind(verb: string, v: Value, target: Option<string>, w: World): Act {
    Act(Responded(verb, Some(v), target),
        Store(if target.Some? then map[target.value := Fresh(v, w)] else map[], Some(Fresh(v, w))))
  }

  function Answer(verb: string, r: Result<Value>, target: Option<string>, w: World): Act {
    match r
    case Ok(v) => FinishAndBind(verb, v, target, w)
    case Err(c) => Act(Failed(c), NOTHING)
  }

  /** A meta command sets `$_` only: an assignment to one does not bind its target. */
  function Shown(verb: string, r: Result<Value>, w: World): Act {
    match r
    case Ok(v) => Act(Responded(verb, Some(v), None), UpdateLast(v, w))
    case Err(c) => Act(Failed(c), NOTHING)
  }

  /** The arguments of a `call`, evaluated in order with the admission checks in between. */
  function EvalArgs(tag: string, args: seq<Expr>, done: seq<Value>, sc: Scope): Result<seq<Value>>
    decreases args
  {
    match sc.w.admit(tag, done)
    case Some(c) => Err(c)
    case None =>
      if args == [] then Ok(done)
      else
        var v :- Eval(args[0], sc);
        EvalArgs(tag, args[1..], done + [v], sc)
  }

  const MAX_WAIT_MS := 3600000

  /** `save`: its response names the save target; an assignment target is written as well. */
  function SaveAct(target: Expr, as_: Expr, ttlMs: Option<nat>, overwrite: bool, bindTo: Option<string>, sc: Scope): Act {
    match Eval(target, sc)
    case Err(c) => Act(Failed(c), NOTHING)
    case Ok(v) =>
      match Eval(as_, sc)
      case Err(c) => Act(Failed(c), NOTHING)
      case Ok(name) =>
        if !name.Str? then Act(Failed(PARSE_ERROR), NOTHING)
        else if name.text == "_" then Act(Failed(SCOPE_MISS), NOTHING)
        else if !overwrite && StoreLookup(sc.store, name.text, sc.w.now).Some? then Act(Failed(CONFLICT), NOTHING)
        else
          var deadline := if ttlMs.Some? then Some(sc.w.now + ttlMs.value) else None;
          var saved := map[name.text := Binding(v, sc.w.now, deadline)];
          var names := if bindTo.Some? && bindTo.value != "" && bindTo.value != name.text
                       then saved[bindTo.value := Fresh(v, sc.w)] else saved;
          Act(Responded("save", Some(v), Some(name.text)), Store(names, Some(Fresh(v, sc.w))))
  }

  function EnvValue(sc: Scope): Value {
    var live := set n | n in sc.store.names && Live(sc.store.names[n], sc.w.now);
    var names := sc.w.sorted(live);
    Rec(map["bindings" := List(seq(|names|, i requires 0 <= i < |names| => Str(names[i]))),
            "env_overlay_keys" := List([])])
  }

  function MapResult(r: Result<Value>, f: Value -> Result<Value>): Result<Value> {
    match r case Ok(v) => f(v) case Err(c) => Err(c)
  }

  function MergeResult(left: Result<Value>, right: Result<Value>, key: Path, strategy: Strategy, sc: Scope): Result<Value> {
    if left.Err? then left
    else if right.Err? then right
    else Join.Merged(left.value, right.value, key, strategy, sc)
  }

  /** What a command does that runs without waiting; `call` and `wait` are added below. */
  function Immediate(cmd: Command, bindTo: Option<string>, sc: Scope): Act {
    match cmd
    case Filter(e, p) => Answer("filter", MapResult(Eval(e, sc), v => Filtered(v, p, sc)), bindTo, sc.w)
    case Transform(e, op) => Answer("transform", MapResult(Eval(e, sc), v => Transformed(v, op, sc)), bindTo, sc.w)
    case Save(e, as_, ttlMs, overwrite) => SaveAct(e, as_, ttlMs, overwrite, bindTo, sc)
    case Merge(l, r, key, strategy) => Answer("merge", MergeResult(Eval(l, sc), Eval(r, sc), key, strategy, sc), bindTo, sc.w)
    case Describe(e) => Shown("describe", MapResult(Eval(e, sc), v => Ok(sc.w.describe(v))), sc.w)
    case Head(e, n) => Shown("head", MapResult(Eval(e, sc), v => Ok(HeadOf(v, n))), sc.w)
    case Show(e) => Shown("show", Eval(e, sc), sc.w)
    case Env => Shown("env", Ok(EnvValue(sc)), sc.w)
    case History(n) => Shown("history", Ok(sc.w.history(n)), sc.w)
    case Help(topic) => Shown("help", Ok(sc.w.help(topic)), sc.w)
    case Call(tag, args) =>
      (match EvalArgs(tag, args, [], sc)
       case Err(c) => Act(Failed(c), NOTHING)
       case Ok(vals) => CallReply(tag, vals, bindTo, sc.w))
    case Wait(ms) => if ms > MAX_WAIT_MS then Act(Failed(CAPABILITY_DENIED), NOTHING) else WaitOver()
  }

  /** The half of `call` after the await. */
  function CallReply(tag: string, vals: seq<Value>, bindTo: Option<string>, w: World): Act {
    Answer("call", w.reply(tag, vals), bindTo, w)
  }

  /** The half of `wait` after the await. */
  function WaitOver(): Act {
    Act(Responded("wait", None, None), NOTHING)
  }

  function OpPaths(op: TransformOp): set<Path> {
    match op
    case SetFields(pairs) => PathsPairs(pairs)
    case MapTo(template) => PathsPairs(template)
    case _ => {}
  }

  function CommandPaths(cmd: Command): set<Path> {
    match cmd
    case Call(_, args) => PathsAll(args)
    case Filter(e, p) => Paths(e) + PathsPred(p)
    case Transform(e, op) => Paths(e) + OpPaths(op)
    case Save(e, as_, _, _) => Paths(e) + Paths(as_)
    case Merge(l, r, key, _) => Paths(l) + Paths(r) + {key}
    case Describe(e) => Paths(e)
    case Head(e, _) => Paths(e)
    case Show(e) => Paths(e)
    case _ => {}
  }

  /** Session reads of a command. `save` without `--overwrite` looks its name up in the session itself. */
  function CommandReads(cmd: Command, sc: Scope): Reads {
    var direct := match cmd
      case Save(e, as_, _, overwrite) =>
        (match Eval(as_, sc)
         case Ok(name) => if name.Str? && name.text != "_" && !overwrite then Reads({name.text}, false, false) else NO_READS
         case Err(_) => NO_READS)
      case Env => Reads({}, false, true)
      case _ => NO_READS;
    Both(PathReads(CommandPaths(cmd), sc.frames), direct)
  }

  function Scoped(frames: seq<Frame>, s: Store, w: World): Scope {
    Scope(frames, s, None, w)
  }

  function CommandEffect(cmd: Command, bindTo: Option<string>, frames: seq<Frame>, s: Store, w: World): Effect<Outcome> {
    var sc := Scoped(frames, s, w);
    var a := Immediate(cmd, bindTo, sc);
    Effect(a.out, a.delta, CommandReads(cmd, sc), true, true, |frames|)
  }

  // ----- statements -----

  function CommandVerb(cmd: Command): string {
    match cmd
    case Call(_, _) => "call"
    case Wait(_) => "wait"
    case Filter(_, _) => "filter"
    case Transform(_, _) => "transform"
    case Save(_, _, _, _) => "save"
    case Merge(_, _, _, _) => "merge"
    case Describe(_) => "describe"
    case Head(_, _) => "head"
    case Show(_) => "show"
    case Env => "env"
    case History(_) => "history"
    case Help(_) => "help"
  }

  function VerbName(st: Stmt): string {
    match st
    case Assign(_, cmd) => CommandVerb(cmd)
    case Run(cmd) => CommandVerb(cmd)
    case If(_, _, _) => "if"
    case Foreach(_, _, _, _, _) => "foreach"
  }

  /** Where a statement list stands: verb and binding of the last success, and the error that ended it. */
  datatype BodyOut = BodyOut(verb: string, binding: Option<string>, err: Option<ErrorCode>)

  function Quiet<R>(out: R, frames: seq<Frame>): Effect<R> {
    Effect(out, NOTHING, NO_READS, true, true, |frames|)
  }

  /** `{iteration, last_verb, last_binding, error_code?}` */
  function IterationRecord(i: nat, out: BodyOut): Value {
    var base := map["iteration" := Num(i as real), "last_verb" := Str(out.verb),
                    "last_binding" := if out.binding.Some? then Str(out.binding.value) else Null];
    Rec(if out.err.Some? then base["error_code" := Str(CodeText(out.err.value))] else base)
  }

  function CodeText(c: ErrorCode): string {
    match c
    case PARSE_ERROR => "PARSE_ERROR"
    case CAPABILITY_DENIED => "CAPABILITY_DENIED"
    case INTERPOLATION_REJECTED => "INTERPOLATION_REJECTED"
    case SCOPE_MISS => "SCOPE_MISS"
    case TIMEOUT => "TIMEOUT"
    case SIZE_LIMIT => "SIZE_LIMIT"
    case UPSTREAM_ERROR => "UPSTREAM_ERROR"
    case CONFLICT => "CONFLICT"
    case INTERNAL => "INTERNAL"
  }

  function Records(effs: seq<Effect<BodyOut>>): (vs: seq<Value>)
    ensures |vs| == |effs|
  {
    seq(|effs|, i requires 0 <= i < |effs| => IterationRecord(i, effs[i].out))
  }

  function SumDelta(effs: seq<Effect<BodyOut>>): Store {
    if effs == [] then NOTHING else Apply(effs[0].delta, SumDelta(effs[1..]))
  }

  function SumReads(effs: seq<Effect<BodyOut>>): Reads {
    if effs == [] then NO_READS else Both(effs[0].looks, SumReads(effs[1..]))
  }

  function SumPeak(effs: seq<Effect<BodyOut>>, least: nat): nat {
    if effs == [] then least else Max(effs[0].peak, SumPeak(effs[1..], least))
  }

  predicate Fails(onError: OnError, out: BodyOut) {
    onError.Abort? && out.err.Some?
  }

  /** What one iteration writes no other reads or writes, and none reads `$_` or the name list. */
  predicate Independent(effs: seq<Effect<BodyOut>>) {
    && (forall i, j :: 0 <= i < |effs| && 0 <= j < |effs| && i != j ==>
          effs[i].delta.names.Keys !! effs[j].delta.names.Keys + effs[j].looks.names)
    && (forall i :: 0 <= i < |effs| ==> !effs[i].looks.last && !effs[i].looks.all)
  }

  predicate ParallelSafe(effs: seq<Effect<BodyOut>>, n: nat, onError: OnError) {
    && Independent(effs)
    && |effs| == n
    && forall i :: 0 <= i < |effs| ==> !Fails(onError, effs[i].out)
  }

  /** No iteration touches the session binding that has the item variable's name. */
  predicate LeavesAlone(effs: seq<Effect<BodyOut>>, name: string) {
    && name != "_"
    && forall i :: 0 <= i < |effs| ==>
         name !in effs[i].looks.names && name !in effs[i].delta.names && !effs[i].looks.all
  }

  /** The block's fixed data once its list is evaluated. `wide` is: more than one worker. */
  datatype Loop = Loop(itemVar: string, onError: OnError, body: seq<Stmt>, items: seq<Value>, wide: bool)

  /** A loop whose iterations did `effs`: abort with the failure of the last one, or yield the records. */
  function LoopEffect(loop: Loop, effs: seq<Effect<BodyOut>>, frames: seq<Frame>, w: World): Effect<Outcome> {
    var failed := effs != [] && Fails(loop.onError, effs[|effs| - 1].out);
    var value := List(Records(effs));
    Effect(
      if failed then Failed(effs[|effs| - 1].out.err.value) else Responded("foreach", Some(value), None),
      if failed then SumDelta(effs) else Apply(SumDelta(effs), UpdateLast(value, w)),
      SumReads(effs),
      (forall i :: 0 <= i < |effs| ==> effs[i].raceFree) && (loop.wide ==> ParallelSafe(effs, |loop.items|, loop.onError)),
      (forall i :: 0 <= i < |effs| ==> effs[i].scoped) && LeavesAlone(effs, loop.itemVar),
      SumPeak(effs, |frames|))
  }

  function Concurrency(parallel: Option<nat>, n: nat): nat {
    var p := if parallel.Some? then parallel.value else 1;
    var cap := if n == 0 then 1 else n;
    var k := if p < cap then p else cap;
    if k < 1 then 1 else k
  }

  function BranchTag(taken: bool): Value {
    Str(if taken then "branch:then" else "branch:else")
  }

  /** The end of an `if`: the body's error, or the branch tag as `$_`. */
  function BranchEnd(tag: Value, out: BodyOut, frames: seq<Frame>, w: World): Effect<Outcome> {
    match out.err
    case Some(c) => Quiet(Failed(c), frames)
    case None => Effect(Responded("if", Some(tag), None), UpdateLast(tag, w), NO_READS, true, true, |frames|)
  }

  function Reading(ps: set<Path>, frames: seq<Frame>): Effect<()> {
    Effect((), NOTHING, PathReads(ps, frames), true, true, |frames|)
  }

  /** A statement run to its end with every loop sequential. */
  function Exec(st: Stmt, frames: seq<Frame>, s: Store, w: World): Effect<Outcome>
    decreases st, 1, 0
  {
    var sc := Scoped(frames, s, w);
    match st
    case Assign(target, cmd) => CommandEffect(cmd, Some(target), frames, s, w)
    case Run(cmd) => CommandEffect(cmd, None, frames, s, w)
    case If(p, thenBody, elseBody) =>
      var first := Reading(PathsPred(p), frames);
      (match EvalPred(p, sc)
       case Err(c) => Then(first, Quiet(Failed(c), frames))
       case Ok(yes) =>
         var b := if yes then ExecBody(thenBody, "?", None, frames, s, w) else ExecBody(elseBody, "?", None, frames, s, w);
         Then(first, Then(b, BranchEnd(BranchTag(yes), b.out, frames, w))))
    case Foreach(itemVar, list, parallel, onError, body) =>
      var first := Reading(Paths(list), frames);
      (match Eval(list, sc)
       case Err(c) => Then(first, Quiet(Failed(c), frames))
       case Ok(v) =>
         if !v.List? then Then(first, Quiet(Failed(PARSE_ERROR), frames))
         else
           var loop := Loop(itemVar, onError, body, v.items, Concurrency(parallel, |v.items|) > 1);
           Then(first, LoopEffect(loop, ExecIterations(st, loop, 0, frames, s, w), frames, w)))
  }

  /** Statements in order until one fails. */
  function ExecBody(stmts: seq<Stmt>, verb: string, binding: Option<string>, frames: seq<Frame>, s: Store, w: World): Effect<BodyOut>
    decreases stmts, 0, 0
  {
    if stmts == [] then Quiet(BodyOut(verb, binding, None), frames)
    else
      var e := Exec(stmts[0], frames, s, w);
      match e.out
      case Failed(c) => Then(e, Quiet(BodyOut(verb, binding, Some(c)), frames))
      case Responded(_, _, b) => Then(e, ExecBody(stmts[1..], VerbName(stmts[0]), b, frames, Apply(s, e.delta), w))
  }

  /** The iterations from the k-th on; an aborting failure is the last one. */
  function ExecIterations(st: Stmt, loop: Loop, k: nat, frames: seq<Frame>, s: Store, w: World): seq<Effect<BodyOut>>
    requires st.Foreach? && loop.body == st.body && k <= |loop.items|
    decreases st, 0, |loop.items| - k
  {
    if k == |loop.items| then []
    else
      var e := ExecBody(st.body, "?", None, frames + [Frame(loop.itemVar, loop.items[k])], s, w);
      if Fails(loop.onError, e.out) then [e]
      else [e] + ExecIterations(st, loop, k + 1, frames, Apply(s, e.delta), w)
  }

  lemma IterationsUnfold(st: Stmt, loop: Loop, k: nat, frames: seq<Frame>, s: Store, w: World)
    requires st.Foreach? && loop.body == st.body && k < |loop.items|
    ensures var e := ExecBody(st.body, "?", None, frames + [Frame(loop.itemVar, loop.items[k])], s, w);
            ExecIterations(st, loop, k, frames, s, w) ==
            [e] + if Fails(loop.onError, e.out) then [] else ExecIterations(st, loop, k + 1, frames, Apply(s, e.delta), w)
  {
  }
}
