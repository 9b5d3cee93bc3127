/** Syntax of the bounded-verb language (src/parser/ast.ts) and the error channel of the runtime. */
module Ast {
  import opened Values

  // ----- errors -----

  datatype ErrorCode =
    | PARSE_ERROR
    | CAPABILITY_DENIED
    | INTERPOLATION_REJECTED
    | SCOPE_MISS
    | TIMEOUT
    | SIZE_LIMIT
    | UPSTREAM_ERROR
    | CONFLICT
    | INTERNAL

  /** A value, or the code of the A2EError that was thrown instead. */
  datatype Result<+T> = Ok(value: T) | Err(code: ErrorCode) {
    predicate IsFailure() {
      Err?
    }
    function PropagateFailure<U>(): Result<U>
      requires Err?
    {
      Err(code)
    }
    function Extract(): T
      requires Ok?
    {
      value
    }
  }

  // ----- values and predicates -----

  datatype Step = Field(name: string) | Index(index: nat)

  /** `root == ""` is the implicit item of a predicate or of `merge by`. */
  datatype Path = Path(root: string, steps: seq<Step>)

  datatype Seg = Lit(text: string) | Hole(path: Path)

  datatype Expr =
    | EStr(text: string)
    | ENum(num: real)
    | EBool(flag: bool)
    | ENull
    | EDuration(ms: nat)
    | EList(items: seq<Expr>)
    | EObject(pairs: seq<Pair>)
    | EVar(name: string)
    | EPath(path: Path)
    | EInterp(segs: seq<Seg>)

  datatype Pair = Pair(key: string, value: Expr)

  datatype Cmp = Eq | Ne | Gt | Ge | Lt | Le

  datatype Pred =
    | And(left: Pred, right: Pred)
    | Or(left: Pred, right: Pred)
    | Not(inner: Pred)
    | Compare(lhs: Expr, op: Cmp, rhs: Expr)
    | In(lhs: Expr, choices: seq<Expr>)
    | Matches(lhs: Expr, regex: string)
    | Exists(lhs: Expr)

  // ----- commands and statements -----

  datatype TransformOp =
    | Pick(names: seq<string>)
    | Omit(names: seq<string>)
    | SetFields(pairs: seq<Pair>)
    | MapTo(template: seq<Pair>)

  datatype Strategy = Inner | Left | Right | Outer

  datatype Command =
    | Call(tag: string, args: seq<Expr>)
    | Wait(ms: nat)
    | Filter(target: Expr, pred: Pred)
    | Transform(target: Expr, op: TransformOp)
    | Save(target: Expr, as_: Expr, ttlMs: Option<nat>, overwrite: bool)
    | Merge(left: Expr, right: Expr, key: Path, strategy: Strategy)
    | Describe(target: Expr)
    | Head(target: Expr, n: nat)
    | Show(target: Expr)
    | Env
    | History(n: nat)
    | Help(topic: Option<string>)

  datatype OnError = Abort | Continue

  datatype Stmt =
    | Assign(target: string, rhs: Command)
    | Run(cmd: Command)
    | If(cond: Pred, thenBody: seq<Stmt>, elseBody: seq<Stmt>) // no else branch is an empty one
    | Foreach(itemVar: string, list: Expr, parallel: Option<nat>, onError: OnError, body: seq<Stmt>)
}
