/** The list and record verbs (src/verbs/filter.ts, src/verbs/transform.ts, src/meta/head.ts). */
module Verbs {
  import opened Values
  import opened Ast
  import opened Evaluate

  // ----- filter -----

  function WithItem(sc: Scope, item: Value): Scope {
    sc.(item := Some(item))
  }

  /** The items the predicate accepts, in order; the first error aborts. */
  function Kept(items: seq<Value>, p: Pred, sc: Scope): Result<seq<Value>> {
    if items == [] then Ok([])
    else
      var front :- Kept(items[..|items| - 1], p, sc);
      var last := items[|items| - 1];
      var yes :- EvalPred(p, WithItem(sc, last));
      Ok(if yes then front + [last] else front)
  }

  /** One more item: an error stands, a verdict keeps or drops it. */
  function Extended(front: Result<seq<Value>>, yes: Result<bool>, item: Value): Result<seq<Value>> {
    match front
    case Err(c) => Err(c)
    case Ok(kept) =>
      (match yes case Err(c) => Err(c) case Ok(b) => Ok(if b then kept + [item] else kept))
  }

  lemma KeptUnfold(items: seq<Value>, p: Pred, sc: Scope)
    requires items != []
    ensures Kept(items, p, sc) ==
            Extended(Kept(items[..|items| - 1], p, sc), EvalPred(p, WithItem(sc, items[|items| - 1])), items[|items| - 1])
  {
  }

  lemma KeptAppend(front: seq<Value>, x: Value, p: Pred, sc: Scope)
    ensures Kept(front + [x], p, sc) == Extended(Kept(front, p, sc), EvalPred(p, WithItem(sc, x)), x)
  {
    assert (front + [x])[..|front|] == front;
    KeptUnfold(front + [x], p, sc);
  }

  function Filtered(target: Value, p: Pred, sc: Scope): Result<Value> {
    if !target.List? then Err(PARSE_ERROR)
    else
      var out :- Kept(target.items, p, sc);
      Ok(List(out))
  }

  method RunFilter(target: Value, p: Pred, sc: Scope) returns (r: Result<Value>)
    ensures r == Filtered(target, p, sc)
  {
    if !target.List? {
      return Err(PARSE_ERROR);
    }
    var out: seq<Value> := [];
    for i := 0 to |target.items|
      invariant Kept(target.items[..i], p, sc) == Ok(out)
    {
      var item := target.items[i];
      assert target.items[..i + 1] == target.items[..i] + [item];
      KeptAppend(target.items[..i], item, p, sc);
      var yes := EvalPred(p, WithItem(sc, item));
      if yes.Err? {
        KeptPrefixError(target.items, i + 1, p, sc);
        return Err(yes.code);
      }
      if yes.value {
        out := out + [item];
      }
    }
    assert target.items[..|target.items|] == target.items;
    return Ok(List(out));
  }

  lemma {:induction false} KeptPrefixError(items: seq<Value>, i: nat, p: Pred, sc: Scope)
    requires i <= |items| && Kept(items[..i], p, sc).Err?
    ensures Kept(items, p, sc) == Kept(items[..i], p, sc)
    decreases |items| - i
  {
    if i < |items| {
      assert items[..i + 1][..i] == items[..i];
      KeptPrefixError(items, i + 1, p, sc);
    } else {
      assert items[..i] == items;
    }
  }

  function Concatenated(xs: Result<seq<Value>>, ys: Result<seq<Value>>): Result<seq<Value>> {
    match xs
    case Err(c) => Err(c)
    case Ok(a) => (match ys case Err(c) => Err(c) case Ok(b) => Ok(a + b))
  }

  lemma ExtendedConcatenated(xs: Result<seq<Value>>, ys: Result<seq<Value>>, yes: Result<bool>, item: Value)
    ensures Extended(Concatenated(xs, ys), yes, item) == Concatenated(xs, Extended(ys, yes, item))
  {
    if xs.Ok? && ys.Ok? { assert xs.value + ys.value + [item] == xs.value + (ys.value + [item]); }
  }

  lemma NothingAfter(xs: Result<seq<Value>>)
    ensures Concatenated(xs, Ok([])) == xs
  {
    if xs.Ok? {
      var none: seq<Value> := [];
      assert xs.value + none == xs.value;
    }
  }

  lemma {:induction false} KeptSplits(xs: seq<Value>, ys: seq<Value>, p: Pred, sc: Scope)
    ensures Kept(xs + ys, p, sc) == Concatenated(Kept(xs, p, sc), Kept(ys, p, sc))
  {
    if ys == [] {
      assert xs + ys == xs;
      NothingAfter(Kept(xs, p, sc));
    } else {
      var n := |ys| - 1;
      KeptSplits(xs, ys[..n], p, sc);
      assert xs + ys == xs + ys[..n] + [ys[n]];
      KeptAppend(xs + ys[..n], ys[n], p, sc);
      KeptUnfold(ys, p, sc);
      ExtendedConcatenated(Kept(xs, p, sc), Kept(ys[..n], p, sc), EvalPred(p, WithItem(sc, ys[n])), ys[n]);
    }
  }

  // ----- transform -----

  /** The named fields of a record, and of those only the ones it has. */
  function Picked(fields: map<string, Value>, names: seq<string>): map<string, Value> {
    map k | k in fields && k in names :: fields[k]
  }

  function Omitted(fields: map<string, Value>, names: seq<string>): map<string, Value> {
    map k | k in fields && k !in names :: fields[k]
  }

  /** One record through one operation; `set` and `map` see the record as the implicit item. */
  function Applied(op: TransformOp, item: Value, sc: Scope): (r: Result<Value>)
    ensures r.Ok? ==> r.value.Rec?
  {
    if !item.Rec? then Err(PARSE_ERROR)
    else match op
      case Pick(names) => Ok(Rec(Picked(item.fields, names)))
      case Omit(names) => Ok(Rec(Omitted(item.fields, names)))
      case SetFields(pairs) =>
        var m :- EvalPairs(pairs, item.fields, WithItem(sc, item));
        Ok(Rec(m))
      case MapTo(template) =>
        var m :- EvalPairs(template, map[], WithItem(sc, item));
        Ok(Rec(m))
  }

  function AppliedAll(op: TransformOp, items: seq<Value>, sc: Scope): (r: Result<seq<Value>>)
    ensures r.Ok? ==> |r.value| == |items|
  {
    if items == [] then Ok([])
    else
      var front :- AppliedAll(op, items[..|items| - 1], sc);
      var x :- Applied(op, items[|items| - 1], sc);
      Ok(front + [x])
  }

  /** A list is transformed item by item, anything else as a single record. */
  function Transformed(target: Value, op: TransformOp, sc: Scope): Result<Value> {
    if target.List? then
      var out :- AppliedAll(op, target.items, sc);
      Ok(List(out))
    else Applied(op, target, sc)
  }

  /** `pick`: the loop over the requested names. */
  method PickFields(fields: map<string, Value>, names: seq<string>) returns (out: map<string, Value>)
    ensures out == Picked(fields, names)
  {
    out := map[];
    for i := 0 to |names|
      invariant out == Picked(fields, names[..i])
    {
      if names[i] in fields {
        out := out[names[i] := fields[names[i]]];
      }
      assert names[..i + 1] == names[..i] + [names[i]];
    }
    assert names[..|names|] == names;
  }

  /** `set` and `map`: the loop over the pairs, each evaluated against the original item. */
  method WritePairs(pairs: seq<Pair>, start: map<string, Value>, sc: Scope)
    returns (r: Result<map<string, Value>>)
    ensures r == EvalPairs(pairs, start, sc)
  {
    var out := start;
    for i := 0 to |pairs|
      invariant EvalPairs(pairs, start, sc) == EvalPairs(pairs[i..], out, sc)
    {
      var v := Eval(pairs[i].value, sc);
      assert pairs[i..][1..] == pairs[i + 1..];
      if v.Err? {
        return Err(v.code);
      }
      out := out[pairs[i].key := v.value];
    }
    return Ok(out);
  }

  /** `omit`: the loop over the record's own fields, in any order. */
  method OmitFields(fields: map<string, Value>, names: seq<string>) returns (out: map<string, Value>)
    ensures out == Omitted(fields, names)
  {
    out := map[];
    var left := fields.Keys;
    while left != {}
      invariant left <= fields.Keys
      invariant out == map k | k in fields && k !in left && k !in names :: fields[k]
    {
      var k :| k in left;
      if k !in names {
        out := out[k := fields[k]];
      }
      left := left - {k};
    }
  }

  method ApplyOp(op: TransformOp, item: Value, sc: Scope) returns (r: Result<Value>)
    ensures r == Applied(op, item, sc)
  {
    if !item.Rec? {
      return Err(PARSE_ERROR);
    }
    match op
    case Pick(names) =>
      var out := PickFields(item.fields, names);
      return Ok(Rec(out));
    case Omit(names) =>
      var out := OmitFields(item.fields, names);
      return Ok(Rec(out));
    case SetFields(pairs) =>
      var m := WritePairs(pairs, item.fields, WithItem(sc, item));
      return if m.Ok? then Ok(Rec(m.value)) else Err(m.code);
    case MapTo(template) =>
      var m := WritePairs(template, map[], WithItem(sc, item));
      return if m.Ok? then Ok(Rec(m.value)) else Err(m.code);
  }

  // ----- head -----

  function HeadOf(v: Value, n: nat): Value {
    match v
    case List(items) => List(if n < |items| then items[..n] else items)
    case Str(text) => Str(if n < |text| then text[..n] else text)
    case Bytes(data) => Bytes(if n < |data| then data[..n] else data)
    case _ => v
  }

  // ----- laws relating filter and transform -----

  /** Every implicit path of the predicate starts with one of the given fields. */
  ghost predicate ReadsOnly(p: Pred, names: seq<string>) {
    forall path :: path in PathsPred(p) && path.root == "" ==>
      path.steps != [] && path.steps[0].Field? && path.steps[0].name in names
  }

  lemma PickKeepsPath(path: Path, item: Value, names: seq<string>, sc: Scope)
    requires item.Rec?
    requires path.root == "" ==> path.steps != [] && path.steps[0].Field? && path.steps[0].name in names
    ensures PathAgrees(path, WithItem(sc, item), WithItem(sc, Rec(Picked(item.fields, names))))
  {
    var picked := Rec(Picked(item.fields, names));
    if path.root == "" {
      assert StepInto(item, path.steps[0]) == StepInto(picked, path.steps[0]);
    }
  }

  /** Such a predicate cannot tell a record from its pick, errors included. */
  lemma PickKeepsPredicate(p: Pred, item: Value, names: seq<string>, sc: Scope)
    requires item.Rec? && ReadsOnly(p, names)
    ensures EvalPred(p, WithItem(sc, item)) == EvalPred(p, WithItem(sc, Rec(Picked(item.fields, names))))
  {
    var sc1, sc2 := WithItem(sc, item), WithItem(sc, Rec(Picked(item.fields, names)));
    forall path | path in PathsPred(p)
      ensures PathAgrees(path, sc1, sc2)
    {
      PickKeepsPath(path, item, names, sc);
    }
    EvalPredAgrees(p, sc1, sc2);
  }

  ghost predicate AllRecords(items: seq<Value>) {
    forall i :: 0 <= i < |items| ==> items[i].Rec?
  }

  function PickEach(items: seq<Value>, names: seq<string>): (out: seq<Value>)
    requires AllRecords(items)
    ensures |out| == |items|
  {
    seq(|items|, i requires 0 <= i < |items| => Rec(Picked(items[i].fields, names)))
  }

  lemma {:induction false} PickNeverFails(items: seq<Value>, names: seq<string>, sc: Scope)
    requires AllRecords(items)
    ensures AppliedAll(Pick(names), items, sc) == Ok(PickEach(items, names))
  {
    if items == [] {
      assert PickEach(items, names) == [];
    } else {
      var n := |items| - 1;
      PickNeverFails(items[..n], names, sc);
      assert PickEach(items, names) == PickEach(items[..n], names) + [Rec(Picked(items[n].fields, names))];
    }
  }

  lemma {:induction false} PickThenKeep(items: seq<Value>, names: seq<string>, p: Pred, sc: Scope)
    requires AllRecords(items) && ReadsOnly(p, names)
    ensures match Kept(items, p, sc)
            case Err(c) => Kept(PickEach(items, names), p, sc) == Err(c)
            case Ok(kept) => AllRecords(kept) && Kept(PickEach(items, names), p, sc) == Ok(PickEach(kept, names))
  {
    if items == [] {
      assert PickEach(items, names) == [];
    } else {
      var n := |items| - 1;
      PickThenKeep(items[..n], names, p, sc);
      PickKeepsPredicate(p, items[n], names, sc);
      var picked := Rec(Picked(items[n].fields, names));
      var all := PickEach(items, names);
      assert all[..n] == PickEach(items[..n], names) && all[n] == picked;
      if Kept(items[..n], p, sc).Ok? {
        var front := Kept(items[..n], p, sc).value;
        assert PickEach(front + [items[n]], names) == PickEach(front, names) + [picked];
      }
    }
  }

  /** `filter (pick F xs) where p` is `pick F (filter xs where p)`, errors included. */
  lemma FilterCommutesWithPick(items: seq<Value>, names: seq<string>, p: Pred, sc: Scope)
    requires AllRecords(items) && ReadsOnly(p, names)
    ensures Transformed(List(items), Pick(names), sc).Ok?
    ensures Filtered(Transformed(List(items), Pick(names), sc).value, p, sc) ==
            match Filtered(List(items), p, sc)
            case Err(c) => Err(c)
            case Ok(kept) => Transformed(kept, Pick(names), sc)
  {
    PickNeverFails(items, names, sc);
    PickThenKeep(items, names, p, sc);
    match Kept(items, p, sc)
    case Err(_) =>
    case Ok(kept) => PickNeverFails(kept, names, sc);
  }

  lemma AndMeaning(q: Pred, p: Pred, sc: Scope)
    ensures EvalPred(And(q, p), sc) ==
            match EvalPred(q, sc)
            case Err(c) => Err(c)
            case Ok(yes) => if yes then EvalPred(p, sc) else Ok(false)
  {
  }

  lemma {:induction false} KeepTwice(items: seq<Value>, q: Pred, p: Pred, sc: Scope)
    requires Kept(items, q, sc).Ok?
    ensures Kept(Kept(items, q, sc).value, p, sc).Ok? <==> Kept(items, And(q, p), sc).Ok?
    ensures Kept(items, And(q, p), sc).Ok? ==>
              Kept(items, And(q, p), sc) == Kept(Kept(items, q, sc).value, p, sc)
  {
    if items != [] {
      var n := |items| - 1;
      var x, at := items[n], WithItem(sc, items[n]);
      KeptUnfold(items, q, sc);
      KeptUnfold(items, And(q, p), sc);
      KeepTwice(items[..n], q, p, sc);
      AndMeaning(q, p, at);
      KeptAppend(Kept(items[..n], q, sc).value, x, p, sc);
    }
  }

  lemma {:induction false} AndNeedsFirst(items: seq<Value>, q: Pred, p: Pred, sc: Scope)
    requires Kept(items, And(q, p), sc).Ok?
    ensures Kept(items, q, sc).Ok?
  {
    if items != [] {
      AndNeedsFirst(items[..|items| - 1], q, p, sc);
    }
  }

  /** Filtering by q, then by p, succeeds iff filtering by `q and p` does, with the same result. */
  lemma NestedFiltersFuse(target: Value, q: Pred, p: Pred, sc: Scope)
    ensures Filtered(target, And(q, p), sc).Ok? <==>
            Filtered(target, q, sc).Ok? && Filtered(Filtered(target, q, sc).value, p, sc).Ok?
    ensures Filtered(target, And(q, p), sc).Ok? ==>
              Filtered(target, And(q, p), sc) == Filtered(Filtered(target, q, sc).value, p, sc)
  {
    if target.List? {
      if Kept(target.items, And(q, p), sc).Ok? { AndNeedsFirst(target.items, q, p, sc); }
      if Kept(target.items, q, sc).Ok? { KeepTwice(target.items, q, p, sc); }
    }
  }
}
