/** The walks after parsing (src/parser/parse.ts) and what they guarantee about every run. */
module ParseChecks {
  import opened Values
  import opened Ast
  import opened Evaluate
  import opened Runtime

  const MAX_BLOCK_DEPTH := 4

  // ----- block depth -----

  /** `checkBlockDepth`: the top level is depth 1 and every block body one deeper. */
  predicate DepthOk(stmts: seq<Stmt>, depth: nat)
    decreases stmts
  {
    && depth <= MAX_BLOCK_DEPTH
    && forall i :: 0 <= i < |stmts| ==>
         match stmts[i]
         case If(_, thenBody, elseBody) => DepthOk(thenBody, depth + 1) && DepthOk(elseBody, depth + 1)
         case Foreach(_, _, _, _, body) => DepthOk(body, depth + 1)
         case _ => true
  }

  /** How many blocks are nested inside a statement, itself included. */
  function Nesting(st: Stmt): nat
    decreases st, 1
  {
    match st
    case If(_, thenBody, elseBody) => 1 + Max(NestingAll(thenBody), NestingAll(elseBody))
    case Foreach(_, _, _, _, body) => 1 + NestingAll(body)
    case _ => 0
  }

  function NestingAll(stmts: seq<Stmt>): nat
    decreases stmts, 0
  {
    if stmts == [] then 0 else Max(Nesting(stmts[0]), NestingAll(stmts[1..]))
  }

  lemma {:induction false} NestingMember(stmts: seq<Stmt>, i: nat)
    requires i < |stmts|
    ensures Nesting(stmts[i]) <= NestingAll(stmts)
    decreases i
  {
    if i > 0 { NestingMember(stmts[1..], i - 1); }
  }

  /** The walk rejects exactly the programs with more than three nested blocks. */
  lemma {:induction false} DepthIsNesting(stmts: seq<Stmt>, depth: nat)
    ensures DepthOk(stmts, depth) <==> depth + NestingAll(stmts) <= MAX_BLOCK_DEPTH
    decreases stmts, 1
  {
    if stmts != [] {
      forall i | 0 <= i < |stmts|
        ensures match stmts[i]
                case If(_, t, e) => (DepthOk(t, depth + 1) <==> depth + 1 + NestingAll(t) <= MAX_BLOCK_DEPTH)
                                    && (DepthOk(e, depth + 1) <==> depth + 1 + NestingAll(e) <= MAX_BLOCK_DEPTH)
                case Foreach(_, _, _, _, b) => DepthOk(b, depth + 1) <==> depth + 1 + NestingAll(b) <= MAX_BLOCK_DEPTH
                case _ => true
        ensures Nesting(stmts[i]) <= NestingAll(stmts)
      {
        NestingMember(stmts, i);
        match stmts[i]
        case If(_, t, e) => DepthIsNesting(t, depth + 1); DepthIsNesting(e, depth + 1);
        case Foreach(_, _, _, _, b) => DepthIsNesting(b, depth + 1);
        case _ =>
      }
      DepthIsNesting(stmts[1..], depth);
      assert DepthOk(stmts, depth) ==> DepthOk(stmts[1..], depth) by {
        assert forall i :: 0 <= i < |stmts[1..]| ==> stmts[1..][i] == stmts[i + 1];
      }
    }
  }

  // ----- frames on the stack -----

  ghost predicate BlockOk(st: Stmt, depth: nat) {
    match st
    case If(_, t, e) => DepthOk(t, depth + 1) && DepthOk(e, depth + 1)
    case Foreach(_, _, _, _, b) => DepthOk(b, depth + 1)
    case _ => true
  }

  lemma {:induction false} ExecPeak(st: Stmt, depth: nat, frames: seq<Frame>, s: Store, w: World)
    requires 1 <= depth <= MAX_BLOCK_DEPTH && BlockOk(st, depth) && |frames| < depth
    ensures Exec(st, frames, s, w).peak < MAX_BLOCK_DEPTH
    decreases st, 1, 0
  {
    match st
    case If(p, t, e) =>
      match EvalPred(p, Scoped(frames, s, w)) {
        case Err(_) =>
        case Ok(yes) => BodyPeak(if yes then t else e, "?", None, depth + 1, frames, s, w);
      }
    case Foreach(itemVar, list, parallel, onError, body) =>
      match Eval(list, Scoped(frames, s, w)) {
        case Err(_) =>
        case Ok(v) =>
          if v.List? {
            var loop := Loop(itemVar, onError, body, v.items, Concurrency(parallel, |v.items|) > 1);
            IterationsPeak(st, loop, 0, depth, frames, s, w);
          }
      }
    case _ =>
  }

  lemma {:induction false} BodyPeak(stmts: seq<Stmt>, verb: string, binding: Option<string>, depth: nat, frames: seq<Frame>, s: Store, w: World)
    requires 1 <= depth && DepthOk(stmts, depth) && |frames| < depth
    ensures ExecBody(stmts, verb, binding, frames, s, w).peak < MAX_BLOCK_DEPTH
    decreases stmts, 0, 0
  {
    if stmts != [] {
      var e := Exec(stmts[0], frames, s, w);
      assert BlockOk(stmts[0], depth);
      ExecPeak(stmts[0], depth, frames, s, w);
      if e.out.Responded? {
        assert forall i :: 0 <= i < |stmts[1..]| ==> stmts[1..][i] == stmts[i + 1];
        BodyPeak(stmts[1..], VerbName(stmts[0]), e.out.binding, depth, frames, Apply(s, e.delta), w);
      }
    }
  }

  lemma {:induction false} IterationsPeak(st: Stmt, loop: Loop, k: nat, depth: nat, frames: seq<Frame>, s: Store, w: World)
    requires st.Foreach? && loop.body == st.body && k <= |loop.items|
    requires 1 <= depth <= MAX_BLOCK_DEPTH && BlockOk(st, depth) && |frames| < depth
    ensures SumPeak(ExecIterations(st, loop, k, frames, s, w), |frames|) < MAX_BLOCK_DEPTH
    decreases st, 0, |loop.items| - k
  {
    if k < |loop.items| {
      var frames' := frames + [Frame(loop.itemVar, loop.items[k])];
      var e := ExecBody(st.body, "?", None, frames', s, w);
      BodyPeak(st.body, "?", None, depth + 1, frames', s, w);
      if Fails(loop.onError, e.out) {
        assert SumPeak([e], |frames|) == Max(e.peak, SumPeak([], |frames|)) by { assert [e][1..] == []; }
      } else {
        var rest := ExecIterations(st, loop, k + 1, frames, Apply(s, e.delta), w);
        assert ([e] + rest)[1..] == rest;
        IterationsPeak(st, loop, k + 1, depth, frames, Apply(s, e.delta), w);
      }
    }
  }

  /** No statement of an accepted program ever runs under more than three iteration frames. */
  lemma AcceptedProgramsStackThreeFrames(program: seq<Stmt>, i: nat, s: Store, w: World)
    requires DepthOk(program, 1) && i < |program|
    ensures Exec(program[i], [], s, w).peak <= 3
  {
    assert BlockOk(program[i], 1);
    ExecPeak(program[i], 1, [], s, w);
  }

  // ----- the reserved name -----

  /** `checkReservedAssignment`: `$_` is not an assignment target, at any depth. */
  predicate NoReservedTarget(stmts: seq<Stmt>)
    decreases stmts
  {
    forall i :: 0 <= i < |stmts| ==>
      match stmts[i]
      case Assign(target, _) => target != "_"
      case If(_, t, e) => NoReservedTarget(t) && NoReservedTarget(e)
      case Foreach(_, _, _, _, b) => NoReservedTarget(b)
      case _ => true
  }

  lemma {:induction false} ExecKeepsReserved(st: Stmt, frames: seq<Frame>, s: Store, w: World)
    requires NoReservedTarget([st])
    ensures "_" !in Exec(st, frames, s, w).delta.names
    decreases st, 1, 0
  {
    assert [st][0] == st;
    match st
    case If(p, t, e) =>
      match EvalPred(p, Scoped(frames, s, w)) {
        case Err(_) =>
        case Ok(yes) => BodyKeepsReserved(if yes then t else e, "?", None, frames, s, w);
      }
    case Foreach(itemVar, list, parallel, onError, body) =>
      match Eval(list, Scoped(frames, s, w)) {
        case Err(_) =>
        case Ok(v) =>
          if v.List? {
            var loop := Loop(itemVar, onError, body, v.items, Concurrency(parallel, |v.items|) > 1);
            IterationsKeepReserved(st, loop, 0, frames, s, w);
          }
      }
    case _ =>
  }

  lemma {:induction false} BodyKeepsReserved(stmts: seq<Stmt>, verb: string, binding: Option<string>, frames: seq<Frame>, s: Store, w: World)
    requires NoReservedTarget(stmts)
    ensures "_" !in ExecBody(stmts, verb, binding, frames, s, w).delta.names
    decreases stmts, 0, 0
  {
    if stmts != [] {
      var e := Exec(stmts[0], frames, s, w);
      assert NoReservedTarget([stmts[0]]);
      ExecKeepsReserved(stmts[0], frames, s, w);
      if e.out.Responded? {
        assert forall i :: 0 <= i < |stmts[1..]| ==> stmts[1..][i] == stmts[i + 1];
        BodyKeepsReserved(stmts[1..], VerbName(stmts[0]), e.out.binding, frames, Apply(s, e.delta), w);
      }
    }
  }

  lemma {:induction false} IterationsKeepReserved(st: Stmt, loop: Loop, k: nat, frames: seq<Frame>, s: Store, w: World)
    requires st.Foreach? && loop.body == st.body && k <= |loop.items| && NoReservedTarget(st.body)
    ensures "_" !in SumDelta(ExecIterations(st, loop, k, frames, s, w)).names
    decreases st, 0, |loop.items| - k
  {
    if k < |loop.items| {
      var frames' := frames + [Frame(loop.itemVar, loop.items[k])];
      var e := ExecBody(st.body, "?", None, frames', s, w);
      BodyKeepsReserved(st.body, "?", None, frames', s, w);
      if Fails(loop.onError, e.out) {
        assert SumDelta([e]).names == e.delta.names by { assert [e][1..] == []; }
      } else {
        var rest := ExecIterations(st, loop, k + 1, frames, Apply(s, e.delta), w);
        assert ([e] + rest)[1..] == rest;
        IterationsKeepReserved(st, loop, k + 1, frames, Apply(s, e.delta), w);
      }
    }
  }

  /** An accepted program never stores a binding under the reserved name, so `$_` is always the last result. */
  lemma AcceptedProgramsKeepReserved(program: seq<Stmt>, i: nat, s: Store, w: World)
    requires NoReservedTarget(program) && i < |program| && "_" !in s.names
    ensures "_" !in Apply(s, Exec(program[i], [], s, w).delta).names
  {
    assert NoReservedTarget([program[i]]);
    ExecKeepsReserved(program[i], [], s, w);
  }

  /** All names that a program assigns to, at any depth. */
  function AssignedNames(stmts: seq<Stmt>): set<string> {
    if stmts == [] then {}
    else
      (match stmts[0]
       case Assign(target, _) => {target}
       case If(_, t, e) => AssignedNames(t) + AssignedNames(e)
       case Foreach(_, _, _, _, b) => AssignedNames(b)
       case _ => {})
      + AssignedNames(stmts[1..])
  }

  /** The two walks accept exactly the programs with at most three nested blocks that assign to no `$_`. */
  lemma AcceptsExactly(program: seq<Stmt>)
    ensures DepthOk(program, 1) <==> NestingAll(program) <= 3
    ensures NoReservedTarget(program) <==> "_" !in AssignedNames(program)
  {
    DepthIsNesting(program, 1);
    ReservedIsAssigned(program);
  }

  lemma ReservedFirst(stmts: seq<Stmt>)
    requires stmts != []
    ensures NoReservedTarget(stmts) <==>
            NoReservedTarget(stmts[1..]) &&
            match stmts[0]
            case Assign(target, _) => target != "_"
            case If(_, t, e) => NoReservedTarget(t) && NoReservedTarget(e)
            case Foreach(_, _, _, _, b) => NoReservedTarget(b)
            case _ => true
  {
    assert forall i :: 0 <= i < |stmts[1..]| ==> stmts[1..][i] == stmts[i + 1];
    if NoReservedTarget(stmts[1..]) {
      assert forall i :: 1 <= i < |stmts| ==> stmts[i] == stmts[1..][i - 1];
    }
  }

  lemma {:induction false} ReservedIsAssigned(stmts: seq<Stmt>)
    ensures NoReservedTarget(stmts) <==> "_" !in AssignedNames(stmts)
  {
    if stmts != [] {
      ReservedFirst(stmts);
      ReservedIsAssigned(stmts[1..]);
      match stmts[0]
      case If(_, t, e) => ReservedIsAssigned(t); ReservedIsAssigned(e);
      case Foreach(_, _, _, _, b) => ReservedIsAssigned(b);
      case _ =>
    }
  }
}
