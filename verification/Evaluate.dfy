/** Value and predicate evaluation (src/runtime/evaluate.ts). */
module Evaluate {
  import opened Values
  import opened Ast

  // ----- scope: iteration frames above session bindings -----

  datatype Binding = Binding(value: Value, createdAtMs: int, ttlDeadlineMs: Option<int>)

  /** The mutable part of a session: named bindings and the implicit `$_`. */
  datatype Store = Store(names: map<string, Binding>, last: Option<Binding>)

  /** One `foreach` iteration: its item variable and the item. */
  datatype Frame = Frame(name: string, item: Value)

  /** Everything outside the runtime, as functions of what is passed to it. The clock stands still. */
  datatype World = World(
    now: int,
    json: Value -> string,
    numText: real -> string,
    regex: (string, string) -> Option<bool>,
    admit: (string, seq<Value>) -> Option<ErrorCode>,
    reply: (string, seq<Value>) -> Result<Value>,
    describe: Value -> Value,
    history: nat -> Value,
    help: Option<string> -> Value,
    sorted: set<string> -> seq<string>
  )

  datatype Scope = Scope(frames: seq<Frame>, store: Store, item: Option<Value>, w: World)

  predicate Live(b: Binding, now: int) {
    b.ttlDeadlineMs.None? || now < b.ttlDeadlineMs.value
  }

  /** `lookup`: `_` is the last result, an expired binding is not there. */
  function StoreLookup(s: Store, name: string, now: int): Option<Value> {
    if name == "_" then
      (if s.last.Some? then Some(s.last.value.value) else None)
    else if name in s.names && Live(s.names[name], now) then Some(s.names[name].value)
    else None
  }

  /** Innermost frame first. */
  function FrameLookup(frames: seq<Frame>, name: string): Option<Value> {
    if frames == [] then None
    else if frames[|frames| - 1].name == name then Some(frames[|frames| - 1].item)
    else FrameLookup(frames[..|frames| - 1], name)
  }

  function Lookup(sc: Scope, name: string): Option<Value> {
    var f := FrameLookup(sc.frames, name);
    if f.Some? then f else StoreLookup(sc.store, name, sc.w.now)
  }

  // ----- values -----

  function StepInto(v: Value, step: Step): Result<Value> {
    match step
    case Field(name) => if v.Rec? && name in v.fields then Ok(v.fields[name]) else Err(SCOPE_MISS)
    case Index(i) => if v.List? && i < |v.items| then Ok(v.items[i]) else Err(SCOPE_MISS)
  }

  function Walk(v: Value, steps: seq<Step>): Result<Value> {
    if steps == [] then Ok(v)
    else
      var next :- StepInto(v, steps[0]);
      Walk(next, steps[1..])
  }

  function Root(p: Path, sc: Scope): Option<Value> {
    if p.root == "" then sc.item else Lookup(sc, p.root)
  }

  function Resolve(p: Path, sc: Scope): Result<Value> {
    match Root(p, sc)
    case None => Err(SCOPE_MISS)
    case Some(v) => Walk(v, p.steps)
  }

  function InterpText(v: Value, w: World): Result<string> {
    match v
    case Null => Ok("null")
    case Str(s) => Ok(s)
    case Num(n) => Ok(w.numText(n))
    case Bool(b) => Ok(if b then "true" else "false")
    case Bytes(_) => Err(INTERPOLATION_REJECTED)
    case _ => Ok(w.json(v))
  }

  function SegText(seg: Seg, sc: Scope): Result<string> {
    match seg
    case Lit(text) => Ok(text)
    case Hole(path) => var v :- Resolve(path, sc); InterpText(v, sc.w)
  }

  function EvalSegs(segs: seq<Seg>, sc: Scope): Result<string> {
    if segs == [] then Ok("")
    else
      var front :- EvalSegs(segs[..|segs| - 1], sc);
      var text :- SegText(segs[|segs| - 1], sc);
      Ok(front + text)
  }

  function Eval(e: Expr, sc: Scope): Result<Value>
    decreases e, 1
  {
    match e
    case EStr(s) => Ok(Str(s))
    case ENum(n) => Ok(Num(n))
    case EBool(b) => Ok(Bool(b))
    case ENull => Ok(Null)
    case EDuration(ms) => Ok(Num(ms as real))
    case EList(items) => var vs :- EvalAll(items, sc); Ok(List(vs))
    case EObject(pairs) => var m :- EvalPairs(pairs, map[], sc); Ok(Rec(m))
    case EVar(name) => (match Lookup(sc, name) case Some(v) => Ok(v) case None => Err(SCOPE_MISS))
    case EPath(path) => Resolve(path, sc)
    case EInterp(segs) => var s :- EvalSegs(segs, sc); Ok(Str(s))
  }

  /** Left to right; the first error wins. */
  function EvalAll(items: seq<Expr>, sc: Scope): (r: Result<seq<Value>>)
    ensures r.Ok? ==> |r.value| == |items|
    decreases items, 0
  {
    if items == [] then Ok([])
    else
      var v :- Eval(items[0], sc);
      var vs :- EvalAll(items[1..], sc);
      Ok([v] + vs)
  }

  /** `acc` extended pair by pair; a repeated key keeps the later value. */
  function EvalPairs(pairs: seq<Pair>, acc: map<string, Value>, sc: Scope): Result<map<string, Value>>
    decreases pairs, 0
  {
    if pairs == [] then Ok(acc)
    else
      var v :- Eval(pairs[0].value, sc);
      EvalPairs(pairs[1..], acc[pairs[0].key := v], sc)
  }

  // ----- predicates -----

  predicate TextLess(a: string, b: string) {
    b != [] && (a == [] || a[0] < b[0] || (a[0] == b[0] && TextLess(a[1..], b[1..])))
  }

  predicate Ordered(l: Value, op: Cmp, r: Value) {
    if l.Num? && r.Num? then
      match op
      case Gt => l.num > r.num
      case Ge => l.num >= r.num
      case Lt => l.num < r.num
      case _ => l.num <= r.num
    else if l.Str? && r.Str? then
      match op
      case Gt => TextLess(r.text, l.text)
      case Ge => !TextLess(l.text, r.text)
      case Lt => TextLess(l.text, r.text)
      case _ => !TextLess(r.text, l.text)
    else false
  }

  predicate Holds(l: Value, op: Cmp, r: Value) {
    if op == Eq then JsEq(l, r)
    else if op == Ne then !JsEq(l, r)
    else Ordered(l, op, r)
  }

  function EvalPred(p: Pred, sc: Scope): Result<bool>
    decreases p
  {
    match p
    case And(l, r) =>
      var x :- EvalPred(l, sc);
      if x then EvalPred(r, sc) else Ok(false)
    case Or(l, r) =>
      var x :- EvalPred(l, sc);
      if x then Ok(true) else EvalPred(r, sc)
    case Not(q) =>
      var x :- EvalPred(q, sc);
      Ok(!x)
    case Compare(l, op, r) =>
      var x :- Eval(l, sc);
      var y :- Eval(r, sc);
      Ok(Holds(x, op, y))
    case In(l, choices) =>
      var x :- Eval(l, sc);
      var vs :- EvalAll(choices, sc);
      Ok(exists v :: v in vs && JsEq(v, x))
    case Matches(l, regex) =>
      var x :- Eval(l, sc);
      if !x.Str? then Ok(false)
      else (match sc.w.regex(regex, x.text) case Some(b) => Ok(b) case None => Err(PARSE_ERROR))
    case Exists(l) =>
      (match Eval(l, sc)
       case Ok(_) => Ok(true)
       case Err(code) => if code == SCOPE_MISS then Ok(false) else Err(code))
  }

  // ----- what an expression depends on -----

  function SegPaths(segs: seq<Seg>): set<Path> {
    set s | s in segs && s.Hole? :: s.path
  }

  /** The variable paths an expression mentions; `$x` is the path of x with no steps. */
  function Paths(e: Expr): set<Path>
    decreases e, 1
  {
    match e
    case EList(items) => PathsAll(items)
    case EObject(pairs) => PathsPairs(pairs)
    case EVar(name) => {Path(name, [])}
    case EPath(path) => {path}
    case EInterp(segs) => SegPaths(segs)
    case _ => {}
  }

  function PathsAll(items: seq<Expr>): set<Path>
    decreases items, 0
  {
    if items == [] then {} else Paths(items[0]) + PathsAll(items[1..])
  }

  function PathsPairs(pairs: seq<Pair>): set<Path>
    decreases pairs, 0
  {
    if pairs == [] then {} else Paths(pairs[0].value) + PathsPairs(pairs[1..])
  }

  function PathsPred(p: Pred): set<Path> {
    match p
    case And(l, r) => PathsPred(l) + PathsPred(r)
    case Or(l, r) => PathsPred(l) + PathsPred(r)
    case Not(q) => PathsPred(q)
    case Compare(l, _, r) => Paths(l) + Paths(r)
    case In(l, choices) => Paths(l) + PathsAll(choices)
    case Matches(l, _) => Paths(l)
    case Exists(l) => Paths(l)
  }

  /** Two scopes in which a variable path resolves alike; a bare `$x` needs x itself to agree. */
  ghost predicate PathAgrees(p: Path, sc: Scope, sc': Scope) {
    && Resolve(p, sc) == Resolve(p, sc')
    && (p.steps == [] ==> Lookup(sc, p.root) == Lookup(sc', p.root))
  }

  ghost predicate Agrees(ps: set<Path>, sc: Scope, sc': Scope) {
    sc.w == sc'.w && forall p :: p in ps ==> PathAgrees(p, sc, sc')
  }

  lemma {:induction false} SegsAgree(segs: seq<Seg>, sc: Scope, sc': Scope)
    requires Agrees(SegPaths(segs), sc, sc')
    ensures EvalSegs(segs, sc) == EvalSegs(segs, sc')
  {
    if segs != [] {
      var front, s := segs[..|segs| - 1], segs[|segs| - 1];
      assert SegPaths(front) <= SegPaths(segs);
      SegsAgree(front, sc, sc');
      assert s in segs;
      assert s.Hole? ==> s.path in SegPaths(segs);
    }
  }

  /** Evaluation sees its scope only through the paths the expression mentions. */
  lemma {:induction false} EvalAgrees(e: Expr, sc: Scope, sc': Scope)
    requires Agrees(Paths(e), sc, sc')
    ensures Eval(e, sc) == Eval(e, sc')
    decreases e, 1
  {
    match e
    case EList(items) => EvalAllAgrees(items, sc, sc');
    case EObject(pairs) => EvalPairsAgrees(pairs, map[], sc, sc');
    case EInterp(segs) => SegsAgree(segs, sc, sc');
    case EVar(name) => assert PathAgrees(Path(name, []), sc, sc');
    case EPath(path) => assert PathAgrees(path, sc, sc');
    case _ =>
  }

  lemma {:induction false} EvalAllAgrees(items: seq<Expr>, sc: Scope, sc': Scope)
    requires Agrees(PathsAll(items), sc, sc')
    ensures EvalAll(items, sc) == EvalAll(items, sc')
    decreases items, 0
  {
    if items != [] {
      EvalAgrees(items[0], sc, sc');
      EvalAllAgrees(items[1..], sc, sc');
    }
  }

  lemma {:induction false} EvalPairsAgrees(pairs: seq<Pair>, acc: map<string, Value>, sc: Scope, sc': Scope)
    requires Agrees(PathsPairs(pairs), sc, sc')
    ensures EvalPairs(pairs, acc, sc) == EvalPairs(pairs, acc, sc')
    decreases pairs, 0
  {
    if pairs != [] {
      EvalAgrees(pairs[0].value, sc, sc');
      match Eval(pairs[0].value, sc)
      case Ok(v) => EvalPairsAgrees(pairs[1..], acc[pairs[0].key := v], sc, sc');
      case Err(_) =>
    }
  }

  lemma {:induction false} EvalPredAgrees(p: Pred, sc: Scope, sc': Scope)
    requires Agrees(PathsPred(p), sc, sc')
    ensures EvalPred(p, sc) == EvalPred(p, sc')
    decreases p
  {
    match p
    case And(l, r) => EvalPredAgrees(l, sc, sc'); EvalPredAgrees(r, sc, sc');
    case Or(l, r) => EvalPredAgrees(l, sc, sc'); EvalPredAgrees(r, sc, sc');
    case Not(q) => EvalPredAgrees(q, sc, sc');
    case Compare(l, op, r) => EvalAgrees(l, sc, sc'); EvalAgrees(r, sc, sc');
    case In(l, choices) => EvalAgrees(l, sc, sc'); EvalAllAgrees(choices, sc, sc');
    case Matches(l, _) => EvalAgrees(l, sc, sc');
    case Exists(l) => EvalAgrees(l, sc, sc');
  }
}
