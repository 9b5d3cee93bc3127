/** What names, paths, literals and interpolated strings stand for (src/runtime/evaluate.ts), and what `transform`
    and `head` make of a value (src/verbs/transform.ts, src/meta/head.ts). */
module ValueMeaning {
  import opened Values
  import opened Ast
  import opened Evaluate
  import opened Verbs
  import opened PredicateMeaning

  // ----- names -----

  ghost predicate Framed(frames: seq<Frame>, name: string) {
    exists i :: 0 <= i < |frames| && frames[i].name == name
  }

  lemma {:induction false} InnermostFrame(frames: seq<Frame>, name: string, i: nat)
    requires i < |frames| && frames[i].name == name && forall j :: i < j < |frames| ==> frames[j].name != name
    ensures FrameLookup(frames, name) == Some(frames[i].item)
    decreases |frames|
  {
    if i < |frames| - 1 { InnermostFrame(frames[..|frames| - 1], name, i); }
  }

  lemma {:induction false} NoFrame(frames: seq<Frame>, name: string)
    requires !Framed(frames, name)
    ensures FrameLookup(frames, name) == None
    decreases |frames|
  {
    if frames != [] {
      var n := |frames| - 1;
      assert frames[n].name != name;
      assert forall i :: 0 <= i < n ==> frames[..n][i] == frames[i];
      NoFrame(frames[..n], name);
    }
  }

  /** The innermost frame that binds the name decides, whatever the session holds. */
  lemma InnermostFrameWins(sc: Scope, name: string, i: nat)
    requires i < |sc.frames| && sc.frames[i].name == name && forall j :: i < j < |sc.frames| ==> sc.frames[j].name != name
    ensures Eval(EVar(name), sc) == Ok(sc.frames[i].item)
  {
    InnermostFrame(sc.frames, name, i);
  }

  /** Outside frames `$_` is the last result, and any other name the session binding unless its deadline has come. */
  lemma SessionNames(sc: Scope, name: string)
    requires !Framed(sc.frames, name)
    ensures name == "_" ==> Eval(EVar(name), sc) == (if sc.store.last.Some? then Ok(sc.store.last.value.value) else Err(SCOPE_MISS))
    ensures name != "_" && name !in sc.store.names ==> Eval(EVar(name), sc) == Err(SCOPE_MISS)
    ensures name != "_" && name in sc.store.names ==>
              var b := sc.store.names[name];
              && (b.ttlDeadlineMs.None? ==> Eval(EVar(name), sc) == Ok(b.value))
              && (b.ttlDeadlineMs.Some? && sc.w.now < b.ttlDeadlineMs.value ==> Eval(EVar(name), sc) == Ok(b.value))
              && (b.ttlDeadlineMs.Some? && b.ttlDeadlineMs.value <= sc.w.now ==> Eval(EVar(name), sc) == Err(SCOPE_MISS))
  {
    NoFrame(sc.frames, name);
  }

  // ----- paths -----

  lemma {:induction false} WalkFurther(v: Value, steps: seq<Step>, more: seq<Step>)
    ensures Walk(v, steps).Ok? ==> Walk(v, steps + more) == Walk(Walk(v, steps).value, more)
    ensures Walk(v, steps).Err? ==> Walk(v, steps + more) == Walk(v, steps)
    decreases |steps|
  {
    if steps == [] {
      assert steps + more == more;
    } else {
      assert (steps + more)[1..] == steps[1..] + more;
      if StepInto(v, steps[0]).Ok? { WalkFurther(StepInto(v, steps[0]).value, steps[1..], more); }
    }
  }

  /** A path without steps is its root: the implicit item, or the name. */
  lemma PathStarts(root: string, sc: Scope)
    ensures root != "" ==> Resolve(Path(root, []), sc) == Eval(EVar(root), sc)
    ensures root == "" && sc.item.Some? ==> Resolve(Path(root, []), sc) == Ok(sc.item.value)
    ensures root == "" && sc.item.None? ==> Resolve(Path(root, []), sc) == Err(SCOPE_MISS)
  {
  }

  lemma PathGoesOn(root: string, steps: seq<Step>, step: Step, v: Value, sc: Scope)
    requires Resolve(Path(root, steps), sc) == Ok(v)
    ensures Resolve(Path(root, steps + [step]), sc) == Walk(v, [step])
  {
    WalkFurther(Root(Path(root, steps), sc).value, steps, [step]);
  }

  /** A field step enters a record that has the field, and nothing else. */
  lemma FieldStep(root: string, steps: seq<Step>, name: string, v: Value, sc: Scope)
    requires Resolve(Path(root, steps), sc) == Ok(v)
    ensures v.Rec? && name in v.fields ==> Resolve(Path(root, steps + [Field(name)]), sc) == Ok(v.fields[name])
    ensures !(v.Rec? && name in v.fields) ==> Resolve(Path(root, steps + [Field(name)]), sc) == Err(SCOPE_MISS)
  {
    PathGoesOn(root, steps, Field(name), v, sc);
  }

  /** An index step enters a list that is long enough, and nothing else. */
  lemma IndexStep(root: string, steps: seq<Step>, i: nat, v: Value, sc: Scope)
    requires Resolve(Path(root, steps), sc) == Ok(v)
    ensures v.List? && i < |v.items| ==> Resolve(Path(root, steps + [Index(i)]), sc) == Ok(v.items[i])
    ensures !(v.List? && i < |v.items|) ==> Resolve(Path(root, steps + [Index(i)]), sc) == Err(SCOPE_MISS)
  {
    PathGoesOn(root, steps, Index(i), v, sc);
  }

  /** A path that fails is not healed by further steps. */
  lemma FailedPathStays(root: string, steps: seq<Step>, step: Step, sc: Scope)
    requires Resolve(Path(root, steps), sc).Err?
    ensures Resolve(Path(root, steps + [step]), sc) == Resolve(Path(root, steps), sc)
  {
    var p := Path(root, steps);
    if Root(p, sc).Some? { WalkFurther(Root(p, sc).value, steps, [step]); }
  }

  // ----- literals -----

  lemma ScalarsAreThemselves(text: string, num: real, flag: bool, ms: nat, sc: Scope)
    ensures Eval(EStr(text), sc) == Ok(Str(text))
    ensures Eval(ENum(num), sc) == Ok(Num(num))
    ensures Eval(EBool(flag), sc) == Ok(Bool(flag))
    ensures Eval(ENull, sc) == Ok(Null)
    ensures Eval(EDuration(ms), sc) == Ok(Num(ms as real))
  {
  }

  lemma ListLiteral(items: seq<Expr>, vs: seq<Value>, sc: Scope)
    requires |vs| == |items| && forall i :: 0 <= i < |items| ==> Eval(items[i], sc) == Ok(vs[i])
    ensures Eval(EList(items), sc) == Ok(List(vs))
  {
    AllEvaluate(items, sc, vs);
  }

  lemma {:induction false} AllFailFirst(items: seq<Expr>, i: nat, code: ErrorCode, sc: Scope)
    requires i < |items| && Eval(items[i], sc) == Err(code) && forall j :: 0 <= j < i ==> Eval(items[j], sc).Ok?
    ensures EvalAll(items, sc) == Err(code)
    decreases i
  {
    if i > 0 {
      assert Eval(items[0], sc).Ok?;
      AllFailFirst(items[1..], i - 1, code, sc);
    }
  }

  lemma ListLiteralFails(items: seq<Expr>, i: nat, code: ErrorCode, sc: Scope)
    requires i < |items| && Eval(items[i], sc) == Err(code) && forall j :: 0 <= j < i ==> Eval(items[j], sc).Ok?
    ensures Eval(EList(items), sc) == Err(code)
  {
    AllFailFirst(items, i, code, sc);
  }

  // ----- records written pair by pair -----

  /** i is the last pair with this key. */
  ghost predicate LastPair(pairs: seq<Pair>, key: string, i: nat) {
    i < |pairs| && pairs[i].key == key && forall j :: i < j < |pairs| ==> pairs[j].key != key
  }

  ghost predicate HasKey(pairs: seq<Pair>, key: string) {
    exists i :: 0 <= i < |pairs| && pairs[i].key == key
  }

  /** The fields of `start` and of the pairs, the last pair with a key deciding its value. */
  ghost predicate WrittenOver(m: map<string, Value>, start: map<string, Value>, pairs: seq<Pair>, vs: seq<Value>)
    requires |vs| == |pairs|
  {
    && (forall k :: k in m <==> k in start || HasKey(pairs, k))
    && (forall i: nat :: i < |pairs| && LastPair(pairs, pairs[i].key, i) && pairs[i].key in m ==> m[pairs[i].key] == vs[i])
    && (forall k :: k in start && k in m && !HasKey(pairs, k) ==> m[k] == start[k])
  }

  lemma HasKeyUnfolds(pairs: seq<Pair>, k: string)
    requires pairs != []
    ensures HasKey(pairs, k) <==> pairs[0].key == k || HasKey(pairs[1..], k)
  {
    if HasKey(pairs, k) && pairs[0].key != k {
      var i :| 0 <= i < |pairs| && pairs[i].key == k;
      assert pairs[1..][i - 1].key == k;
    }
  }

  lemma WrittenFirst(m: map<string, Value>, start: map<string, Value>, pairs: seq<Pair>, vs: seq<Value>)
    requires |vs| == |pairs| && pairs != [] && WrittenOver(m, start[pairs[0].key := vs[0]], pairs[1..], vs[1..])
    ensures WrittenOver(m, start, pairs, vs)
  {
    forall k
      ensures k in m <==> k in start || HasKey(pairs, k)
      ensures k in start && k in m && !HasKey(pairs, k) ==> m[k] == start[k]
    {
      HasKeyUnfolds(pairs, k);
    }
    forall i: nat | i < |pairs| && LastPair(pairs, pairs[i].key, i) && pairs[i].key in m
      ensures m[pairs[i].key] == vs[i]
    {
      if i == 0 {
        NotAgain(pairs);
      } else {
        assert pairs[1..][i - 1] == pairs[i] && vs[1..][i - 1] == vs[i];
        assert LastPair(pairs[1..], pairs[i].key, i - 1);
      }
    }
  }

  lemma NotAgain(pairs: seq<Pair>)
    requires pairs != [] && LastPair(pairs, pairs[0].key, 0)
    ensures !HasKey(pairs[1..], pairs[0].key)
  {
    forall i | 0 <= i < |pairs[1..]|
      ensures pairs[1..][i].key != pairs[0].key
    {
      assert pairs[1..][i] == pairs[i + 1];
    }
  }

  lemma {:induction false} PairsAreWritten(pairs: seq<Pair>, vs: seq<Value>, start: map<string, Value>, sc: Scope)
    returns (m: map<string, Value>)
    requires |vs| == |pairs| && forall i :: 0 <= i < |pairs| ==> Eval(pairs[i].value, sc) == Ok(vs[i])
    ensures EvalPairs(pairs, start, sc) == Ok(m) && WrittenOver(m, start, pairs, vs)
    decreases |pairs|
  {
    if pairs == [] {
      m := start;
    } else {
      m := PairsAreWritten(pairs[1..], vs[1..], start[pairs[0].key := vs[0]], sc);
      WrittenFirst(m, start, pairs, vs);
    }
  }

  lemma {:induction false} PairsFailFirst(pairs: seq<Pair>, i: nat, code: ErrorCode, start: map<string, Value>, sc: Scope)
    requires i < |pairs| && Eval(pairs[i].value, sc) == Err(code) && forall j :: 0 <= j < i ==> Eval(pairs[j].value, sc).Ok?
    ensures EvalPairs(pairs, start, sc) == Err(code)
    decreases i
  {
    if i > 0 {
      assert Eval(pairs[0].value, sc).Ok?;
      PairsFailFirst(pairs[1..], i - 1, code, start[pairs[0].key := Eval(pairs[0].value, sc).value], sc);
    }
  }

  lemma ObjectLiteral(pairs: seq<Pair>, vs: seq<Value>, sc: Scope) returns (m: map<string, Value>)
    requires |vs| == |pairs| && forall i :: 0 <= i < |pairs| ==> Eval(pairs[i].value, sc) == Ok(vs[i])
    ensures Eval(EObject(pairs), sc) == Ok(Rec(m)) && WrittenOver(m, map[], pairs, vs)
  {
    m := PairsAreWritten(pairs, vs, map[], sc);
  }

  // ----- interpolation -----

  lemma InterpolationStarts(sc: Scope)
    ensures Eval(EInterp([]), sc) == Ok(Str(""))
  {
  }

  /** The text of one more segment is appended; null and booleans are spelled out, strings stand for themselves,
      lists and records are written as JSON, and bytes are refused. */
  lemma InterpolationAppends(segs: seq<Seg>, text: string, v: Value, path: Path, sc: Scope)
    requires Eval(EInterp(segs), sc) == Ok(Str(text)) && Resolve(path, sc) == Ok(v)
    ensures var r := Eval(EInterp(segs + [Hole(path)]), sc);
            && (v.Null? ==> r == Ok(Str(text + "null")))
            && (v.Bool? ==> r == Ok(Str(text + if v.flag then "true" else "false")))
            && (v.Num? ==> r == Ok(Str(text + sc.w.numText(v.num))))
            && (v.Str? ==> r == Ok(Str(text + v.text)))
            && (v.List? || v.Rec? ==> r == Ok(Str(text + sc.w.json(v))))
            && (v.Bytes? ==> r == Err(INTERPOLATION_REJECTED))
  {
    assert (segs + [Hole(path)])[..|segs|] == segs;
  }

  lemma InterpolationAppendsText(segs: seq<Seg>, text: string, more: string, sc: Scope)
    requires Eval(EInterp(segs), sc) == Ok(Str(text))
    ensures Eval(EInterp(segs + [Lit(more)]), sc) == Ok(Str(text + more))
  {
    assert (segs + [Lit(more)])[..|segs|] == segs;
  }

  /** An error stands, and so does that of the first path without a value. */
  lemma InterpolationFails(segs: seq<Seg>, seg: Seg, sc: Scope)
    ensures Eval(EInterp(segs), sc).Err? ==> Eval(EInterp(segs + [seg]), sc) == Eval(EInterp(segs), sc)
    ensures Eval(EInterp(segs), sc).Ok? && seg.Hole? && Resolve(seg.path, sc).Err? ==>
              Eval(EInterp(segs + [seg]), sc) == Err(Resolve(seg.path, sc).code)
  {
    assert (segs + [seg])[..|segs|] == segs;
  }

  // ----- transform -----

  /** `pick` keeps exactly the named fields the record has, `omit` exactly the others. */
  lemma PickAndOmitMean(fields: map<string, Value>, names: seq<string>, sc: Scope)
    returns (picked: map<string, Value>, omitted: map<string, Value>)
    ensures Transformed(Rec(fields), Pick(names), sc) == Ok(Rec(picked))
    ensures Transformed(Rec(fields), Omit(names), sc) == Ok(Rec(omitted))
    ensures forall k :: k in picked <==> k in fields && k in names
    ensures forall k :: k in omitted <==> k in fields && k !in names
    ensures (forall k :: k in picked ==> picked[k] == fields[k]) && forall k :: k in omitted ==> omitted[k] == fields[k]
  {
    picked, omitted := Picked(fields, names), Omitted(fields, names);
  }

  /** `set` writes its fields over those of the record, which its values see unchanged. */
  lemma SetMeans(fields: map<string, Value>, pairs: seq<Pair>, vs: seq<Value>, sc: Scope) returns (m: map<string, Value>)
    requires |vs| == |pairs| && forall i :: 0 <= i < |pairs| ==> Eval(pairs[i].value, WithItem(sc, Rec(fields))) == Ok(vs[i])
    ensures Transformed(Rec(fields), SetFields(pairs), sc) == Ok(Rec(m)) && WrittenOver(m, fields, pairs, vs)
  {
    m := PairsAreWritten(pairs, vs, fields, WithItem(sc, Rec(fields)));
  }

  /** `map` writes the fields of its template and no other. */
  lemma MapMeans(fields: map<string, Value>, pairs: seq<Pair>, vs: seq<Value>, sc: Scope) returns (m: map<string, Value>)
    requires |vs| == |pairs| && forall i :: 0 <= i < |pairs| ==> Eval(pairs[i].value, WithItem(sc, Rec(fields))) == Ok(vs[i])
    ensures Transformed(Rec(fields), MapTo(pairs), sc) == Ok(Rec(m)) && WrittenOver(m, map[], pairs, vs)
  {
    m := PairsAreWritten(pairs, vs, map[], WithItem(sc, Rec(fields)));
  }

  /** The first value of `set` or `map` that fails is the error. */
  lemma SetAndMapFailFirst(fields: map<string, Value>, pairs: seq<Pair>, i: nat, code: ErrorCode, sc: Scope)
    requires i < |pairs| && Eval(pairs[i].value, WithItem(sc, Rec(fields))) == Err(code)
    requires forall j :: 0 <= j < i ==> Eval(pairs[j].value, WithItem(sc, Rec(fields))).Ok?
    ensures Transformed(Rec(fields), SetFields(pairs), sc) == Err(code)
    ensures Transformed(Rec(fields), MapTo(pairs), sc) == Err(code)
  {
    PairsFailFirst(pairs, i, code, fields, WithItem(sc, Rec(fields)));
    PairsFailFirst(pairs, i, code, map[], WithItem(sc, Rec(fields)));
  }

  lemma TransformWantsRecords(v: Value, op: TransformOp, sc: Scope)
    requires !v.Rec? && !v.List?
    ensures Transformed(v, op, sc) == Err(PARSE_ERROR)
  {
  }

  lemma {:induction false} AppliedEach(op: TransformOp, items: seq<Value>, out: seq<Value>, sc: Scope)
    requires |out| == |items| && forall i :: 0 <= i < |items| ==> items[i].Rec? && Transformed(items[i], op, sc) == Ok(out[i])
    ensures AppliedAll(op, items, sc) == Ok(out)
  {
    if items != [] {
      var n := |items| - 1;
      AppliedEach(op, items[..n], out[..n], sc);
      assert items[n].Rec?;
      assert out == out[..n] + [out[n]];
    }
  }

  /** A list of records is transformed record by record. */
  lemma ListTransforms(op: TransformOp, items: seq<Value>, out: seq<Value>, sc: Scope)
    requires |out| == |items| && forall i :: 0 <= i < |items| ==> items[i].Rec? && Transformed(items[i], op, sc) == Ok(out[i])
    ensures Transformed(List(items), op, sc) == Ok(List(out))
  {
    AppliedEach(op, items, out, sc);
  }

  lemma {:induction false} AppliedPrefixError(op: TransformOp, items: seq<Value>, i: nat, sc: Scope)
    requires i <= |items| && AppliedAll(op, items[..i], sc).Err?
    ensures AppliedAll(op, items, sc) == AppliedAll(op, items[..i], sc)
    decreases |items| - i
  {
    if i < |items| {
      assert items[..i + 1][..i] == items[..i];
      AppliedPrefixError(op, items, i + 1, sc);
    } else {
      assert items[..i] == items;
    }
  }

  /** The first item that cannot be transformed decides the error; a list inside the list is one. */
  lemma ListTransformFailsFirst(op: TransformOp, items: seq<Value>, out: seq<Value>, code: ErrorCode, sc: Scope)
    requires |out| < |items| && forall i :: 0 <= i < |out| ==> items[i].Rec? && Transformed(items[i], op, sc) == Ok(out[i])
    requires var x := items[|out|]; if x.Rec? then Transformed(x, op, sc) == Err(code) else code == PARSE_ERROR
    ensures Transformed(List(items), op, sc) == Err(code)
  {
    var n := |out|;
    AppliedEach(op, items[..n], out, sc);
    assert items[..n + 1][..n] == items[..n];
    AppliedPrefixError(op, items, n + 1, sc);
  }

  // ----- head -----

  /** The first n elements of what has elements, all of it when there are no more, anything else as it is. */
  lemma HeadMeans(v: Value, n: nat)
    ensures v.List? ==> HeadOf(v, n).List? && HeadOf(v, n).items <= v.items && |HeadOf(v, n).items| == Min(n, |v.items|)
    ensures v.Str? ==> HeadOf(v, n).Str? && HeadOf(v, n).text <= v.text && |HeadOf(v, n).text| == Min(n, |v.text|)
    ensures v.Bytes? ==> HeadOf(v, n).Bytes? && HeadOf(v, n).data <= v.data && |HeadOf(v, n).data| == Min(n, |v.data|)
    ensures !v.List? && !v.Str? && !v.Bytes? ==> HeadOf(v, n) == v
  {
  }
}
