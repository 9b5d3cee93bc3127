/** What predicates decide and what `filter` keeps, in terms of the values compared
    (src/runtime/evaluate.ts, src/verbs/filter.ts). */
module PredicateMeaning {
  import opened Values
  import opened Ast
  import opened Evaluate
  import opened Verbs

  // ----- equality -----

  /** Unless both are objects, equal is identical. */
  lemma ScalarsAreEqualIff(a: Value, b: Value)
    requires !IsObject(a) || !IsObject(b)
    ensures JsEq(a, b) <==> a == b
  {
  }

  lemma ListsAreEqualIff(a: seq<Value>, b: seq<Value>)
    ensures JsEq(List(a), List(b)) <==> |a| == |b| && forall i :: 0 <= i < |a| ==> JsEq(a[i], b[i])
  {
  }

  /** Records are equal when they have the same fields with equal values. */
  lemma RecordsAreEqualIff(a: map<string, Value>, b: map<string, Value>)
    ensures JsEq(Rec(a), Rec(b)) <==> a.Keys == b.Keys && forall k :: k in a && k in b ==> JsEq(a[k], b[k])
  {
    ObjectsCompareByProps(Rec(a), Rec(b));
    if SameProps(Rec(a), Rec(b)) { SamePropsKeys(Rec(a), Rec(b)); }
  }

  lemma BuffersAreEqualIff(a: seq<Byte>, b: seq<Byte>)
    ensures JsEq(Bytes(a), Bytes(b)) <==> a == b
  {
    ObjectsCompareByProps(Bytes(a), Bytes(b));
    IndexedByKeys(ByteValues(a));
    IndexedByKeys(ByteValues(b));
    if JsEq(Bytes(a), Bytes(b)) {
      forall i | 0 <= i < |a|
        ensures a[i] == b[i]
      {
        assert IndexKey(i) in Props(Bytes(a)) && IndexKey(i) in Props(Bytes(b));
        assert Props(Bytes(a))[IndexKey(i)] == ByteValues(a)[i] && Props(Bytes(b))[IndexKey(i)] == ByteValues(b)[i];
      }
    } else if a == b {
      JsEqReflexive(Bytes(a));
    }
  }

  /** A record with one of the names a buffer inherits equals every buffer of one byte. */
  lemma RecordsMeetBuffers(k: string, x: Byte)
    requires k == "length" || k == "byteLength" || k == "BYTES_PER_ELEMENT"
    ensures JsEq(Rec(map[k := Num(1.0)]), Bytes([x]))
  {
    var r, b := Rec(map[k := Num(1.0)]), Bytes([x]);
    IndexedByKeys(ByteValues([x]));
    assert |Props(r)| == 1;
    BorrowingCompares(r, b);
    assert Inherited(b, k) == Some(Num(1.0));
  }

  // ----- order -----

  /** Lexicographic order: a proper prefix, or smaller at the first difference. */
  ghost predicate Precedes(a: string, b: string) {
    || (|a| < |b| && b[..|a|] == a)
    || exists i :: 0 <= i < |a| && i < |b| && a[..i] == b[..i] && a[i] < b[i]
  }

  lemma {:induction false} FirstDifferenceDecides(a: string, b: string, i: nat)
    requires i < |a| && i < |b| && a[..i] == b[..i] && a[i] < b[i]
    ensures TextLess(a, b)
  {
    if i > 0 {
      assert a[0] == a[..i][0] && b[0] == b[..i][0];
      assert a[1..][..i - 1] == a[..i][1..] && b[1..][..i - 1] == b[..i][1..];
      FirstDifferenceDecides(a[1..], b[1..], i - 1);
    }
  }

  lemma {:induction false} PrefixIsLess(a: string, b: string)
    requires |a| < |b| && b[..|a|] == a
    ensures TextLess(a, b)
  {
    if a != [] {
      assert a[0] == b[..|a|][0];
      assert b[1..][..|a| - 1] == b[..|a|][1..];
      PrefixIsLess(a[1..], b[1..]);
    }
  }

  lemma {:induction false} LessPrecedes(a: string, b: string)
    requires TextLess(a, b)
    ensures Precedes(a, b)
  {
    if a != [] {
      if a[0] < b[0] {
        assert a[..0] == b[..0];
      } else {
        LessPrecedes(a[1..], b[1..]);
        if |a[1..]| < |b[1..]| && b[1..][..|a| - 1] == a[1..] {
          assert b[..|a|] == [b[0]] + b[1..][..|a| - 1];
        } else {
          var i :| 0 <= i < |a[1..]| && i < |b[1..]| && a[1..][..i] == b[1..][..i] && a[1..][i] < b[1..][i];
          assert a[..i + 1] == [a[0]] + a[1..][..i] && b[..i + 1] == [b[0]] + b[1..][..i];
          assert a[i + 1] < b[i + 1];
        }
      }
    }
  }

  lemma PrecedesIff(a: string, b: string)
    ensures TextLess(a, b) <==> Precedes(a, b)
  {
    if TextLess(a, b) { LessPrecedes(a, b); }
    if |a| < |b| && b[..|a|] == a { PrefixIsLess(a, b); }
    else if Precedes(a, b) {
      var i :| 0 <= i < |a| && i < |b| && a[..i] == b[..i] && a[i] < b[i];
      FirstDifferenceDecides(a, b, i);
    }
  }

  // ----- comparisons -----

  /** The arithmetic verdict. */
  ghost predicate Arithmetic(x: real, op: Cmp, y: real) {
    match op
    case Eq => x == y
    case Ne => x != y
    case Gt => y < x
    case Ge => y <= x
    case Lt => x < y
    case Le => x <= y
  }

  /** The verdict of lexicographic order. */
  ghost predicate Lexicographic(a: string, op: Cmp, b: string) {
    match op
    case Eq => a == b
    case Ne => a != b
    case Gt => Precedes(b, a)
    case Ge => Precedes(b, a) || a == b
    case Lt => Precedes(a, b)
    case Le => Precedes(a, b) || a == b
  }

  lemma NumbersCompare(l: Expr, r: Expr, x: real, y: real, op: Cmp, sc: Scope)
    requires Eval(l, sc) == Ok(Num(x)) && Eval(r, sc) == Ok(Num(y))
    ensures EvalPred(Compare(l, op, r), sc) == Ok(Arithmetic(x, op, y))
  {
  }

  lemma {:induction false} TextsAreOrdered(a: string, b: string)
    ensures TextLess(a, b) || TextLess(b, a) || a == b
    ensures !(TextLess(a, b) && TextLess(b, a)) && (a == b ==> !TextLess(a, b))
  {
    if a != [] && b != [] {
      TextsAreOrdered(a[1..], b[1..]);
      assert a == [a[0]] + a[1..] && b == [b[0]] + b[1..];
    }
  }

  lemma StringsCompare(l: Expr, r: Expr, a: string, b: string, op: Cmp, sc: Scope)
    requires Eval(l, sc) == Ok(Str(a)) && Eval(r, sc) == Ok(Str(b))
    ensures EvalPred(Compare(l, op, r), sc) == Ok(Lexicographic(a, op, b))
  {
    PrecedesIff(a, b);
    PrecedesIff(b, a);
    TextsAreOrdered(a, b);
  }

  /** Values of other kinds, or of two kinds, are not ordered. */
  lemma OthersAreNotOrdered(l: Expr, r: Expr, v: Value, u: Value, op: Cmp, sc: Scope)
    requires Eval(l, sc) == Ok(v) && Eval(r, sc) == Ok(u)
    requires !(v.Num? && u.Num?) && !(v.Str? && u.Str?)
    requires op != Eq && op != Ne
    ensures EvalPred(Compare(l, op, r), sc) == Ok(false)
  {
  }

  lemma EqualityCompares(l: Expr, r: Expr, v: Value, u: Value, sc: Scope)
    requires Eval(l, sc) == Ok(v) && Eval(r, sc) == Ok(u)
    ensures EvalPred(Compare(l, Eq, r), sc) == Ok(JsEq(v, u))
    ensures EvalPred(Compare(l, Ne, r), sc) == Ok(!JsEq(v, u))
  {
  }

  /** An operand without a value fails the comparison, the left one first. */
  lemma ComparisonFails(l: Expr, r: Expr, op: Cmp, sc: Scope)
    ensures Eval(l, sc).Err? ==> EvalPred(Compare(l, op, r), sc) == Err(Eval(l, sc).code)
    ensures Eval(l, sc).Ok? && Eval(r, sc).Err? ==> EvalPred(Compare(l, op, r), sc) == Err(Eval(r, sc).code)
  {
  }

  // ----- connectives and other atoms -----

  /** Both hold; the right side is not looked at when the left one does not hold. */
  lemma AndDecides(p: Pred, q: Pred, sc: Scope)
    ensures EvalPred(And(p, q), sc) == Ok(true) <==> EvalPred(p, sc) == Ok(true) && EvalPred(q, sc) == Ok(true)
    ensures EvalPred(And(p, q), sc) == Ok(false) <==>
            EvalPred(p, sc) == Ok(false) || (EvalPred(p, sc) == Ok(true) && EvalPred(q, sc) == Ok(false))
    ensures EvalPred(p, sc).Err? ==> EvalPred(And(p, q), sc) == EvalPred(p, sc)
    ensures EvalPred(p, sc) == Ok(true) && EvalPred(q, sc).Err? ==> EvalPred(And(p, q), sc) == EvalPred(q, sc)
  {
  }

  /** One holds; the right side is not looked at when the left one holds. */
  lemma OrDecides(p: Pred, q: Pred, sc: Scope)
    ensures EvalPred(Or(p, q), sc) == Ok(true) <==>
            EvalPred(p, sc) == Ok(true) || (EvalPred(p, sc) == Ok(false) && EvalPred(q, sc) == Ok(true))
    ensures EvalPred(Or(p, q), sc) == Ok(false) <==> EvalPred(p, sc) == Ok(false) && EvalPred(q, sc) == Ok(false)
    ensures EvalPred(p, sc).Err? ==> EvalPred(Or(p, q), sc) == EvalPred(p, sc)
    ensures EvalPred(p, sc) == Ok(false) && EvalPred(q, sc).Err? ==> EvalPred(Or(p, q), sc) == EvalPred(q, sc)
  {
  }

  /** De Morgan, errors and short circuits included. */
  lemma NotDecides(p: Pred, q: Pred, sc: Scope)
    ensures EvalPred(Not(p), sc) == Ok(true) <==> EvalPred(p, sc) == Ok(false)
    ensures EvalPred(p, sc).Err? ==> EvalPred(Not(p), sc) == EvalPred(p, sc)
    ensures EvalPred(Not(And(p, q)), sc) == EvalPred(Or(Not(p), Not(q)), sc)
    ensures EvalPred(Not(Not(p)), sc) == EvalPred(p, sc)
  {
    if EvalPred(p, sc).Ok? { OrDecides(Not(p), Not(q), sc); AndDecides(p, q, sc); }
  }

  lemma {:induction false} AllEvaluate(items: seq<Expr>, sc: Scope, vs: seq<Value>)
    requires |vs| == |items| && forall i :: 0 <= i < |items| ==> Eval(items[i], sc) == Ok(vs[i])
    ensures EvalAll(items, sc) == Ok(vs)
  {
    if items != [] {
      AllEvaluate(items[1..], sc, vs[1..]);
      assert vs == [vs[0]] + vs[1..];
    }
  }

  /** `in` asks whether some choice equals the value. */
  lemma InDecides(l: Expr, choices: seq<Expr>, v: Value, vs: seq<Value>, sc: Scope)
    requires Eval(l, sc) == Ok(v)
    requires |vs| == |choices| && forall i :: 0 <= i < |choices| ==> Eval(choices[i], sc) == Ok(vs[i])
    ensures EvalPred(In(l, choices), sc) == Ok(exists i :: 0 <= i < |vs| && JsEq(vs[i], v))
  {
    AllEvaluate(choices, sc, vs);
    assert (exists u :: u in vs && JsEq(u, v)) <==> exists i :: 0 <= i < |vs| && JsEq(vs[i], v);
  }

  /** `matches` tests strings only, and fails on a bad expression only then. */
  lemma MatchesDecides(l: Expr, regex: string, v: Value, sc: Scope)
    requires Eval(l, sc) == Ok(v)
    ensures !v.Str? ==> EvalPred(Matches(l, regex), sc) == Ok(false)
    ensures v.Str? && sc.w.regex(regex, v.text).Some? ==> EvalPred(Matches(l, regex), sc) == Ok(sc.w.regex(regex, v.text).value)
    ensures v.Str? && sc.w.regex(regex, v.text).None? ==> EvalPred(Matches(l, regex), sc) == Err(PARSE_ERROR)
  {
  }

  /** `exists` never fails for a name or field that is not there, and hides no other error. */
  lemma ExistsDecides(l: Expr, sc: Scope)
    ensures EvalPred(Exists(l), sc) == Ok(true) <==> Eval(l, sc).Ok?
    ensures EvalPred(Exists(l), sc) == Ok(false) <==> Eval(l, sc) == Err(SCOPE_MISS)
    ensures EvalPred(Exists(l), sc).Err? ==> EvalPred(Exists(l), sc) == Err(Eval(l, sc).code)
  {
  }

  // ----- filter -----

  lemma {:induction false} KeptPositions(items: seq<Value>, p: Pred, keep: seq<bool>, sc: Scope) returns (out: seq<Value>, at: seq<nat>)
    requires |keep| == |items| && forall i :: 0 <= i < |items| ==> EvalPred(p, WithItem(sc, items[i])) == Ok(keep[i])
    ensures Kept(items, p, sc) == Ok(out) && |at| == |out| && Positions(at, keep)
    ensures forall j :: 0 <= j < |out| ==> at[j] < |items| && out[j] == items[at[j]]
  {
    out, at := [], [];
    if items != [] {
      var n := |items| - 1;
      out, at := KeptPositions(items[..n], p, keep[..n], sc);
      PositionsGrow(at, keep[..n], keep[n]);
      assert keep[..n] + [keep[n]] == keep;
      KeptUnfold(items, p, sc);
      if keep[n] { out, at := out + [items[n]], at + [n]; }
    }
  }

  /** `filter` answers, in order, exactly the items for which the predicate holds. */
  lemma FilterKeepsExactly(items: seq<Value>, p: Pred, keep: seq<bool>, sc: Scope) returns (out: seq<Value>, at: seq<nat>)
    requires |keep| == |items| && forall i :: 0 <= i < |items| ==> EvalPred(p, WithItem(sc, items[i])) == Ok(keep[i])
    ensures Filtered(List(items), p, sc) == Ok(List(out)) && |at| == |out| && Positions(at, keep)
    ensures forall j :: 0 <= j < |out| ==> at[j] < |items| && out[j] == items[at[j]]
  {
    out, at := KeptPositions(items, p, keep, sc);
  }

  /** The first item for which the predicate fails decides the error. */
  lemma FilterFailsFirst(items: seq<Value>, p: Pred, keep: seq<bool>, code: ErrorCode, sc: Scope)
    requires |keep| < |items| && forall i :: 0 <= i < |keep| ==> EvalPred(p, WithItem(sc, items[i])) == Ok(keep[i])
    requires EvalPred(p, WithItem(sc, items[|keep|])) == Err(code)
    ensures Filtered(List(items), p, sc) == Err(code)
  {
    var n := |keep|;
    var out, at := KeptPositions(items[..n], p, keep, sc);
    assert items[..n + 1] == items[..n] + [items[n]];
    KeptAppend(items[..n], items[n], p, sc);
    KeptPrefixError(items, n + 1, p, sc);
  }

  lemma FilterWantsList(v: Value, p: Pred, sc: Scope)
    requires !v.List?
    ensures Filtered(v, p, sc) == Err(PARSE_ERROR)
  {
  }

  /** `filter xs where .field <op> bound` keeps exactly the items on that side of a number. */
  lemma FilterByNumber(items: seq<Value>, path: Path, xs: seq<real>, op: Cmp, bound: real, sc: Scope)
    returns (out: seq<Value>, at: seq<nat>)
    requires |xs| == |items| && forall i :: 0 <= i < |items| ==> Resolve(path, WithItem(sc, items[i])) == Ok(Num(xs[i]))
    ensures Filtered(List(items), Compare(EPath(path), op, ENum(bound)), sc) == Ok(List(out)) && |at| == |out|
    ensures forall j :: 0 <= j < |out| ==> at[j] < |items| && out[j] == items[at[j]]
    ensures Positions(at, seq(|xs|, i requires 0 <= i < |xs| => Arithmetic(xs[i], op, bound)))
  {
    var p, keep := Compare(EPath(path), op, ENum(bound)), seq(|xs|, i requires 0 <= i < |xs| => Arithmetic(xs[i], op, bound));
    forall i | 0 <= i < |items|
      ensures EvalPred(p, WithItem(sc, items[i])) == Ok(keep[i])
    {
      NumbersCompare(EPath(path), ENum(bound), xs[i], bound, op, WithItem(sc, items[i]));
    }
    out, at := FilterKeepsExactly(items, p, keep, sc);
  }

  /** And on that side of a string. */
  lemma FilterByText(items: seq<Value>, path: Path, xs: seq<string>, op: Cmp, bound: string, sc: Scope)
    returns (out: seq<Value>, at: seq<nat>)
    requires |xs| == |items| && forall i :: 0 <= i < |items| ==> Resolve(path, WithItem(sc, items[i])) == Ok(Str(xs[i]))
    ensures Filtered(List(items), Compare(EPath(path), op, EStr(bound)), sc) == Ok(List(out)) && |at| == |out|
    ensures forall j :: 0 <= j < |out| ==> at[j] < |items| && out[j] == items[at[j]]
    ensures Positions(at, seq(|xs|, i requires 0 <= i < |xs| => Lexicographic(xs[i], op, bound)))
  {
    var p, keep := Compare(EPath(path), op, EStr(bound)), seq(|xs|, i requires 0 <= i < |xs| => Lexicographic(xs[i], op, bound));
    forall i | 0 <= i < |items|
      ensures EvalPred(p, WithItem(sc, items[i])) == Ok(keep[i])
    {
      StringsCompare(EPath(path), EStr(bound), xs[i], bound, op, WithItem(sc, items[i]));
    }
    out, at := FilterKeepsExactly(items, p, keep, sc);
  }
}
