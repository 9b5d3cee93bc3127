/** What `merge` answers, field by field and row by row, whatever loops compute it (src/verbs/merge.ts). */
module JoinMeaning {
  import opened Values
  import opened Ast
  import opened Evaluate
  import opened Verbs
  import opened Join

  // ----- when rows match -----

  /** The key of every row: its value at the by-path, as text. */
  ghost predicate Keyed(rows: seq<Value>, keys: seq<string>, keyPath: Path, sc: Scope) {
    && |keys| == |rows|
    && forall i :: 0 <= i < |rows| ==>
         Resolve(keyPath, WithItem(sc, rows[i])).Ok? && keys[i] == StableKey(Resolve(keyPath, WithItem(sc, rows[i])).value, sc.w)
  }

  lemma KeyedRows(v: Value, keys: seq<string>, keyPath: Path, sc: Scope)
    requires RecordList(v) && Keyed(v.items, keys, keyPath, sc)
    ensures RowKeys(RowsOf(v), keyPath, sc) == Ok(keys)
  {
    var rows := RowsOf(v);
    KeysAre(rows, keys, keyPath, sc);
  }

  lemma {:induction false} KeysAre(rows: seq<Row>, keys: seq<string>, keyPath: Path, sc: Scope)
    requires |keys| == |rows| && forall i :: 0 <= i < |rows| ==> RowKey(rows[i], keyPath, sc) == Ok(keys[i])
    ensures RowKeys(rows, keyPath, sc) == Ok(keys)
  {
    if rows != [] {
      var n := |rows| - 1;
      KeysAre(rows[..n], keys[..n], keyPath, sc);
      assert keys == keys[..n] + [keys[n]];
    }
  }

  /** Scalars have the same key exactly when they are the same value, if different numbers print differently. */
  lemma ScalarsMatchIff(v: Value, u: Value, w: World)
    requires !IsObject(v) && !IsObject(u)
    requires forall x, y :: w.numText(x) == w.numText(y) ==> x == y
    ensures StableKey(v, w) == StableKey(u, w) <==> v == u
  {
    var a, b := StableKey(v, w), StableKey(u, w);
    if a == b && v.Str? && u.Str? {
      assert a[7..] == v.text && b[7..] == u.text;
    } else if a == b && v.Num? && u.Num? {
      assert a[7..] == w.numText(v.num) && b[7..] == w.numText(u.num);
    } else if a == b && v != u {
      KeyStarts(v, w);
      KeyStarts(u, w);
      assert false;
    }
  }

  /** Kinds of scalars are told apart by the first letters of their keys. */
  lemma KeyStarts(v: Value, w: World)
    requires !IsObject(v)
    ensures |StableKey(v, w)| >= 4
    ensures var k := StableKey(v, w);
            match v
            case Null => k == "null"
            case Str(_) => k[0] == 's'
            case Num(_) => k[0] == 'n' && k[2] == 'm'
            case Bool(b) => k == if b then "boolean:true" else "boolean:false"
            case _ => true
  {
  }

  /** Lists, records and buffers match by their JSON text, and no scalar matches one of them. */
  lemma ObjectsMatchIff(v: Value, u: Value, w: World)
    requires IsObject(v)
    ensures StableKey(v, w) == StableKey(u, w) <==> IsObject(u) && w.json(v) == w.json(u)
  {
    var a, b := StableKey(v, w), StableKey(u, w);
    assert a[0] == 'j' && a[5..] == w.json(v);
    if IsObject(u) { assert b[5..] == w.json(u); } else { KeyStarts(u, w); }
  }

  /** j is the last place with this key. */
  ghost predicate Last(keys: seq<string>, key: string, j: nat) {
    j < |keys| && keys[j] == key && forall i :: j < i < |keys| ==> keys[i] != key
  }

  lemma LastIsLastMatch(keys: seq<string>, key: string, j: nat)
    requires Last(keys, key, j)
    ensures LastMatch(keys, key) == Some(j)
  {
    assert key in keys;
  }

  // ----- one row of the result -----

  /** Exactly the fields of both rows, with the value of `over` wherever it has the field. */
  ghost predicate Laid(out: Value, under: Value, over: Value) {
    && under.Rec? && over.Rec? && out.Rec?
    && (forall f :: f in out.fields <==> f in under.fields || f in over.fields)
    && (forall f :: f in over.fields ==> out.fields[f] == over.fields[f])
    && (forall f :: f in under.fields && f !in over.fields ==> out.fields[f] == under.fields[f])
  }

  /** A left row in the result: the last right row with its key laid over it, or unchanged. */
  ghost predicate LeftInResult(out: Value, row: Value, key: string, r: seq<Value>, rk: seq<string>)
    requires |r| == |rk|
  {
    && (forall j: nat :: Last(rk, key, j) ==> Laid(out, row, r[j]))
    && (key !in rk ==> out == row)
  }

  /** A right row in the result: laid over the last left row with its key, or unchanged. */
  ghost predicate RightInResult(out: Value, row: Value, key: string, l: seq<Value>, lk: seq<string>)
    requires |l| == |lk|
  {
    && (forall i: nat :: Last(lk, key, i) ==> Laid(out, l[i], row))
    && (key !in lk ==> out == row)
  }

  lemma LeftRowLaid(left: Value, lk: seq<string>, right: Value, rk: seq<string>, i: nat)
    requires RecordList(left) && RecordList(right) && |lk| == |left.items| && |rk| == |right.items| && i < |lk|
    ensures LeftInResult(Rec(LeftRow(RowsOf(left)[i], lk[i], RowsOf(right), rk)), left.items[i], lk[i], right.items, rk)
  {
    forall j: nat | Last(rk, lk[i], j)
      ensures Laid(Rec(LeftRow(RowsOf(left)[i], lk[i], RowsOf(right), rk)), left.items[i], right.items[j])
    {
      LastIsLastMatch(rk, lk[i], j);
    }
  }

  lemma RightRowLaid(left: Value, lk: seq<string>, right: Value, rk: seq<string>, j: nat)
    requires RecordList(left) && RecordList(right) && |lk| == |left.items| && |rk| == |right.items| && j < |rk|
    ensures RightInResult(Rec(RightRow(RowsOf(right)[j], rk[j], RowsOf(left), lk)), right.items[j], rk[j], left.items, lk)
  {
    forall i: nat | Last(lk, rk[j], i)
      ensures Laid(Rec(RightRow(RowsOf(right)[j], rk[j], RowsOf(left), lk)), left.items[i], right.items[j])
    {
      LastIsLastMatch(lk, rk[j], i);
    }
  }

  // ----- whole results -----

  /** Where the selected elements stand. */
  lemma {:induction false} SelectPositions<T>(xs: seq<T>, keep: seq<bool>) returns (at: seq<nat>)
    requires |xs| == |keep|
    ensures Positions(at, keep) && |at| == |Select(xs, keep)|
    ensures forall j :: 0 <= j < |at| ==> at[j] < |xs| && Select(xs, keep)[j] == xs[at[j]]
  {
    at := [];
    if xs != [] {
      var n := |xs| - 1;
      at := SelectPositions(xs[..n], keep[..n]);
      PositionsGrow(at, keep[..n], keep[n]);
      assert keep[..n] + [keep[n]] == keep;
      at := at + if keep[n] then [n] else [];
    }
  }

  ghost predicate AllLeft(out: seq<Value>, l: seq<Value>, lk: seq<string>, r: seq<Value>, rk: seq<string>)
    requires |l| == |lk| && |r| == |rk|
  {
    |out| == |l| && forall i :: 0 <= i < |l| ==> LeftInResult(out[i], l[i], lk[i], r, rk)
  }

  /** Both operands are lists of records in which the by-path has values, the rows' keys being lk and rk. */
  ghost predicate Operands(left: Value, lk: seq<string>, right: Value, rk: seq<string>, keyPath: Path, sc: Scope) {
    RecordList(left) && RecordList(right) && Keyed(left.items, lk, keyPath, sc) && Keyed(right.items, rk, keyPath, sc)
  }

  lemma MergedIs(left: Value, lk: seq<string>, right: Value, rk: seq<string>, keyPath: Path, strategy: Strategy, sc: Scope)
    requires Operands(left, lk, right, rk, keyPath, sc)
    ensures Merged(left, right, keyPath, strategy, sc) == Ok(ToValue(Joined(strategy, RowsOf(left), lk, RowsOf(right), rk)))
  {
    KeyedRows(left, lk, keyPath, sc);
    KeyedRows(right, rk, keyPath, sc);
  }

  /** `left`: every left row in its place. */
  lemma LeftMeans(left: Value, lk: seq<string>, right: Value, rk: seq<string>, keyPath: Path, sc: Scope) returns (out: seq<Value>)
    requires Operands(left, lk, right, rk, keyPath, sc)
    ensures Merged(left, right, keyPath, Left, sc) == Ok(List(out)) && AllLeft(out, left.items, lk, right.items, rk)
  {
    MergedIs(left, lk, right, rk, keyPath, Left, sc);
    out := ToValue(LeftJoin(RowsOf(left), lk, RowsOf(right), rk)).items;
    forall i | 0 <= i < |lk|
      ensures LeftInResult(out[i], left.items[i], lk[i], right.items, rk)
    {
      LeftRowLaid(left, lk, right, rk, i);
    }
  }

  /** `right`: every right row in its place. */
  lemma RightMeans(left: Value, lk: seq<string>, right: Value, rk: seq<string>, keyPath: Path, sc: Scope) returns (out: seq<Value>)
    requires Operands(left, lk, right, rk, keyPath, sc)
    ensures Merged(left, right, keyPath, Right, sc) == Ok(List(out)) && |out| == |right.items|
    ensures forall j :: 0 <= j < |out| ==> RightInResult(out[j], right.items[j], rk[j], left.items, lk)
  {
    MergedIs(left, lk, right, rk, keyPath, Right, sc);
    out := ToValue(RightJoin(RowsOf(left), lk, RowsOf(right), rk)).items;
    forall j | 0 <= j < |rk|
      ensures RightInResult(out[j], right.items[j], rk[j], left.items, lk)
    {
      RightRowLaid(left, lk, right, rk, j);
    }
  }

  /** `inner`: in order, exactly the left rows whose key some right row has. */
  lemma InnerMeans(left: Value, lk: seq<string>, right: Value, rk: seq<string>, keyPath: Path, sc: Scope)
    returns (out: seq<Value>, at: seq<nat>)
    requires Operands(left, lk, right, rk, keyPath, sc)
    ensures Merged(left, right, keyPath, Inner, sc) == Ok(List(out))
    ensures |at| == |out| && Positions(at, seq(|lk|, i requires 0 <= i < |lk| => lk[i] in rk))
    ensures forall j :: 0 <= j < |out| ==>
              at[j] < |lk| && LeftInResult(out[j], left.items[at[j]], lk[at[j]], right.items, rk)
  {
    MergedIs(left, lk, right, rk, keyPath, Inner, sc);
    var rows, keep := LeftJoin(RowsOf(left), lk, RowsOf(right), rk), Found(lk, rk);
    at := SelectPositions(rows, keep);
    assert keep == seq(|lk|, i requires 0 <= i < |lk| => lk[i] in rk);
    out := ToValue(Select(rows, keep)).items;
    forall j | 0 <= j < |out|
      ensures LeftInResult(out[j], left.items[at[j]], lk[at[j]], right.items, rk)
    {
      LeftRowLaid(left, lk, right, rk, at[j]);
    }
  }

  lemma Unseen(right: Value, rk: seq<string>, lk: seq<string>) returns (added: seq<Value>, at: seq<nat>)
    requires RecordList(right) && |rk| == |right.items|
    ensures added == ToValue(Select(RowsOf(right), Missing(rk, lk))).items
    ensures |at| == |added| && Positions(at, seq(|rk|, j requires 0 <= j < |rk| => rk[j] !in lk))
    ensures forall j :: 0 <= j < |added| ==> at[j] < |rk| && added[j] == right.items[at[j]]
  {
    var rows, keep := RowsOf(right), Missing(rk, lk);
    at := SelectPositions(rows, keep);
    assert keep == seq(|rk|, j requires 0 <= j < |rk| => rk[j] !in lk);
    added := ToValue(Select(rows, keep)).items;
  }

  lemma ToValueOfBoth(a: seq<Row>, b: seq<Row>)
    ensures ToValue(a + b) == List(ToValue(a).items + ToValue(b).items)
  {
    assert ToValue(a + b).items == ToValue(a).items + ToValue(b).items;
  }

  lemma OuterExtendsLeft(left: Value, lk: seq<string>, right: Value, rk: seq<string>, keyPath: Path, out: seq<Value>, sc: Scope)
    requires Operands(left, lk, right, rk, keyPath, sc) && Merged(left, right, keyPath, Left, sc) == Ok(List(out))
    ensures Merged(left, right, keyPath, Outer, sc) == Ok(List(out + ToValue(Select(RowsOf(right), Missing(rk, lk))).items))
  {
    MergedIs(left, lk, right, rk, keyPath, Left, sc);
    MergedIs(left, lk, right, rk, keyPath, Outer, sc);
    ToValueOfBoth(LeftJoin(RowsOf(left), lk, RowsOf(right), rk), Select(RowsOf(right), Missing(rk, lk)));
  }

  /** `outer`: what `left` answers, then in order exactly the right rows whose key no left row has, unchanged. */
  lemma OuterMeans(left: Value, lk: seq<string>, right: Value, rk: seq<string>, keyPath: Path, sc: Scope)
    returns (out: seq<Value>, added: seq<Value>, at: seq<nat>)
    requires Operands(left, lk, right, rk, keyPath, sc)
    ensures Merged(left, right, keyPath, Outer, sc) == Ok(List(out + added)) && AllLeft(out, left.items, lk, right.items, rk)
    ensures |at| == |added| && Positions(at, seq(|rk|, j requires 0 <= j < |rk| => rk[j] !in lk))
    ensures forall j :: 0 <= j < |added| ==> at[j] < |rk| && added[j] == right.items[at[j]]
  {
    out := LeftMeans(left, lk, right, rk, keyPath, sc);
    added, at := Unseen(right, rk, lk);
    OuterExtendsLeft(left, lk, right, rk, keyPath, out, sc);
  }

  // ----- errors -----

  /** One row without a value at the by-path fails the merge. */
  lemma MissingKeyFails(left: Value, right: Value, row: Value, keyPath: Path, strategy: Strategy, sc: Scope)
    requires RecordList(left) && RecordList(right) && (row in left.items || row in right.items)
    requires Resolve(keyPath, WithItem(sc, row)).Err?
    ensures Merged(left, right, keyPath, strategy, sc) == Err(SCOPE_MISS)
  {
    var side := if row in left.items then left else right;
    var i :| 0 <= i < |side.items| && side.items[i] == row;
    assert RowKey(RowsOf(side)[i], keyPath, sc).Err?;
    RowKeysAt(RowsOf(side), i, keyPath, sc);
    if |right.items| > 0 { RowKeysAt(RowsOf(right), 0, keyPath, sc); }
  }

  /** So does an operand that is no list, or holds anything but records. */
  lemma NotRecordsFails(left: Value, right: Value, row: Value, keyPath: Path, strategy: Strategy, sc: Scope)
    requires !left.List? || !right.List? || (!row.Rec? && (row in left.items || row in right.items))
    ensures Merged(left, right, keyPath, strategy, sc) == Err(PARSE_ERROR)
  {
    if left.List? && right.List? {
      var items := if row in left.items then left.items else right.items;
      var i :| 0 <= i < |items| && items[i] == row;
    }
  }
}
