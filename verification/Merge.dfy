/** `merge`: the hash join (src/verbs/merge.ts) against a nested-loop join. */
module Join {
  import opened Values
  import opened Ast
  import opened Evaluate
  import opened Verbs

  type Row = map<string, Value>

  // ----- join keys -----

  function StableKey(v: Value, w: World): string {
    match v
    case Null => "null"
    case Str(s) => "string:" + s
    case Num(n) => "number:" + w.numText(n)
    case Bool(b) => if b then "boolean:true" else "boolean:false"
    case _ => "json:" + w.json(v)
  }

  /** The key of one row: the by-path resolved in that row, made a string. */
  function RowKey(row: Row, keyPath: Path, sc: Scope): Result<string> {
    var v :- Resolve(keyPath, WithItem(sc, Rec(row)));
    Ok(StableKey(v, sc.w))
  }

  function RowKeys(rows: seq<Row>, keyPath: Path, sc: Scope): (r: Result<seq<string>>)
    ensures r.Ok? ==> |r.value| == |rows|
    ensures r.Ok? ==> forall i :: 0 <= i < |rows| ==> RowKey(rows[i], keyPath, sc) == Ok(r.value[i])
  {
    if rows == [] then Ok([])
    else
      var front :- RowKeys(rows[..|rows| - 1], keyPath, sc);
      var k :- RowKey(rows[|rows| - 1], keyPath, sc);
      Ok(front + [k])
  }

  lemma {:induction false} RowKeysAt(rows: seq<Row>, i: nat, keyPath: Path, sc: Scope)
    requires i < |rows|
    ensures RowKey(rows[i], keyPath, sc).Err? ==> RowKeys(rows, keyPath, sc) == Err(SCOPE_MISS)
    ensures RowKeys(rows, keyPath, sc).Err? ==> RowKeys(rows, keyPath, sc) == Err(SCOPE_MISS)
  {
    var n := |rows| - 1;
    KeyErrorIsScopeMiss(rows[n], keyPath, sc);
    KeyErrorIsScopeMiss(rows[i], keyPath, sc);
    if n > 0 { RowKeysAt(rows[..n], if i < n then i else 0, keyPath, sc); }
  }

  lemma {:induction false} KeyErrorIsScopeMiss(row: Row, keyPath: Path, sc: Scope)
    ensures RowKey(row, keyPath, sc).Err? ==> RowKey(row, keyPath, sc).code == SCOPE_MISS
  {
    var root := Root(keyPath, WithItem(sc, Rec(row)));
    if root.Some? { WalkErrorIsScopeMiss(root.value, keyPath.steps); }
  }

  lemma {:induction false} WalkErrorIsScopeMiss(v: Value, steps: seq<Step>)
    ensures Walk(v, steps).Err? ==> Walk(v, steps).code == SCOPE_MISS
    decreases |steps|
  {
    if steps != [] && StepInto(v, steps[0]).Ok? {
      WalkErrorIsScopeMiss(StepInto(v, steps[0]).value, steps[1..]);
    }
  }

  // ----- the reference: a nested loop in which the last equal key wins -----

  function LastMatch(keys: seq<string>, k: string): (r: Option<nat>)
    ensures r.None? <==> k !in keys
    ensures r.Some? ==> r.value < |keys| && keys[r.value] == k && forall j :: r.value < j < |keys| ==> keys[j] != k
  {
    if keys == [] then None
    else if keys[|keys| - 1] == k then Some(|keys| - 1)
    else LastMatch(keys[..|keys| - 1], k)
  }

  function Select<T>(xs: seq<T>, keep: seq<bool>): seq<T>
    requires |xs| == |keep|
  {
    if xs == [] then []
    else
      var n := |xs| - 1;
      Select(xs[..n], keep[..n]) + if keep[n] then [xs[n]] else []
  }

  lemma SelectNext<T>(xs: seq<T>, keep: seq<bool>, j: nat)
    requires |xs| == |keep| && j < |xs|
    ensures Select(xs[..j + 1], keep[..j + 1]) == Select(xs[..j], keep[..j]) + if keep[j] then [xs[j]] else []
  {
    assert xs[..j + 1][..j] == xs[..j] && keep[..j + 1][..j] == keep[..j];
  }

  /** Which keys occur on the other side. */
  function Found(keys: seq<string>, other: seq<string>): (r: seq<bool>)
    ensures |r| == |keys|
  {
    seq(|keys|, i requires 0 <= i < |keys| => keys[i] in other)
  }

  function Missing(keys: seq<string>, other: seq<string>): (r: seq<bool>)
    ensures |r| == |keys|
  {
    seq(|keys|, i requires 0 <= i < |keys| => keys[i] !in other)
  }

  /** A left row with the fields of its match laid over it. */
  function LeftRow(row: Row, key: string, r: seq<Row>, rk: seq<string>): Row
    requires |r| == |rk|
  {
    match LastMatch(rk, key) case Some(j) => row + r[j] case None => row
  }

  function RightRow(row: Row, key: string, l: seq<Row>, lk: seq<string>): Row
    requires |l| == |lk|
  {
    match LastMatch(lk, key) case Some(i) => l[i] + row case None => row
  }

  function LeftJoin(l: seq<Row>, lk: seq<string>, r: seq<Row>, rk: seq<string>): (out: seq<Row>)
    requires |l| == |lk| && |r| == |rk|
    ensures |out| == |l|
  {
    seq(|l|, i requires 0 <= i < |l| => LeftRow(l[i], lk[i], r, rk))
  }

  function RightJoin(l: seq<Row>, lk: seq<string>, r: seq<Row>, rk: seq<string>): (out: seq<Row>)
    requires |l| == |lk| && |r| == |rk|
    ensures |out| == |r|
  {
    seq(|r|, j requires 0 <= j < |r| => RightRow(r[j], rk[j], l, lk))
  }

  /** Inner is left restricted to the matched rows; outer is left followed by the unmatched right rows. */
  function Joined(strategy: Strategy, l: seq<Row>, lk: seq<string>, r: seq<Row>, rk: seq<string>): seq<Row>
    requires |l| == |lk| && |r| == |rk|
  {
    match strategy
    case Inner => Select(LeftJoin(l, lk, r, rk), Found(lk, rk))
    case Left => LeftJoin(l, lk, r, rk)
    case Right => RightJoin(l, lk, r, rk)
    case Outer => LeftJoin(l, lk, r, rk) + Select(r, Missing(rk, lk))
  }

  predicate RecordList(v: Value) {
    v.List? && forall i :: 0 <= i < |v.items| ==> v.items[i].Rec?
  }

  function RowsOf(v: Value): (rows: seq<Row>)
    requires RecordList(v)
    ensures |rows| == |v.items|
  {
    seq(|v.items|, i requires 0 <= i < |v.items| => v.items[i].fields)
  }

  function ToValue(rows: seq<Row>): (v: Value)
    ensures RecordList(v) && RowsOf(v) == rows
  {
    List(seq(|rows|, i requires 0 <= i < |rows| => Rec(rows[i])))
  }

  function Merged(left: Value, right: Value, keyPath: Path, strategy: Strategy, sc: Scope): Result<Value> {
    if !RecordList(left) || !RecordList(right) then Err(PARSE_ERROR)
    else
      var rk :- RowKeys(RowsOf(right), keyPath, sc);
      var lk :- RowKeys(RowsOf(left), keyPath, sc);
      Ok(ToValue(Joined(strategy, RowsOf(left), lk, RowsOf(right), rk)))
  }

  // ----- the hash join -----

  /** m maps every key to the last row that has it. */
  ghost predicate Indexes(m: map<string, Row>, rows: seq<Row>, keys: seq<string>)
    requires |rows| == |keys|
  {
    forall k :: match LastMatch(keys, k) case Some(i) => k in m && m[k] == rows[i] case None => k !in m
  }

  method IndexRows(rows: seq<Row>, keyPath: Path, sc: Scope) returns (r: Result<map<string, Row>>)
    ensures match RowKeys(rows, keyPath, sc) case Ok(keys) => r.Ok? && Indexes(r.value, rows, keys) case Err(c) => r == Err(c)
  {
    var m: map<string, Row> := map[];
    ghost var keys: seq<string> := [];
    for i := 0 to |rows|
      invariant RowKeys(rows[..i], keyPath, sc) == Ok(keys)
      invariant Indexes(m, rows[..i], keys)
    {
      assert rows[..i + 1][..i] == rows[..i];
      var k := RowKey(rows[i], keyPath, sc);
      if k.Err? {
        KeyErrorIsScopeMiss(rows[i], keyPath, sc);
        RowKeysAt(rows, i, keyPath, sc);
        return Err(k.code);
      }
      IndexGrows(m, rows[..i], keys, rows[i], k.value);
      assert rows[..i + 1] == rows[..i] + [rows[i]];
      m := m[k.value := rows[i]];
      keys := keys + [k.value];
    }
    assert rows[..|rows|] == rows;
    return Ok(m);
  }

  lemma IndexGrows(m: map<string, Row>, rows: seq<Row>, keys: seq<string>, row: Row, key: string)
    requires |rows| == |keys| && Indexes(m, rows, keys)
    ensures Indexes(m[key := row], rows + [row], keys + [key])
  {
    var keys' := keys + [key];
    assert keys'[..|keys'| - 1] == keys;
    forall k
      ensures match LastMatch(keys', k)
              case Some(i) => k in m[key := row] && m[key := row][k] == (rows + [row])[i]
              case None => k !in m[key := row]
    {
      assert match LastMatch(keys, k) case Some(i) => k in m && m[k] == rows[i] case None => k !in m;
    }
  }

  /** `Map.get`. */
  function Match(rowByKey: map<string, Row>, key: string): (m: Option<Row>)
    ensures m.Some? <==> key in rowByKey
    ensures m.Some? ==> m.value == rowByKey[key]
  {
    if key in rowByKey then Some(rowByKey[key]) else None
  }

  function LaidOver(m: Option<Row>, row: Row): Row {
    match m case Some(below) => below + row case None => row
  }

  /** The index finds the last row with the key. */
  lemma MatchIsLast(rowByKey: map<string, Row>, rows: seq<Row>, keys: seq<string>, key: string)
    requires |rows| == |keys| && Indexes(rowByKey, rows, keys)
    ensures Match(rowByKey, key).Some? <==> key in keys
    ensures match LastMatch(keys, key)
            case Some(j) => Match(rowByKey, key) == Some(rows[j])
            case None => Match(rowByKey, key) == None
  {
  }

  /** The left rows with their matches laid over them; `all` keeps the unmatched ones too. */
  method OverlayLeft(l: seq<Row>, rightByKey: map<string, Row>, all: bool, keyPath: Path, sc: Scope,
                     ghost r: seq<Row>, ghost rk: seq<string>)
    returns (out: Result<seq<Row>>, seen: set<string>)
    requires |r| == |rk| && Indexes(rightByKey, r, rk)
    ensures match RowKeys(l, keyPath, sc)
            case Ok(lk) => out == Ok(Joined(if all then Left else Inner, l, lk, r, rk)) && forall k :: k in seen <==> k in lk
            case Err(c) => out == Err(c)
  {
    var rows: seq<Row> := [];
    ghost var lk: seq<string> := [];
    seen := {};
    for i := 0 to |l|
      invariant RowKeys(l[..i], keyPath, sc) == Ok(lk)
      invariant rows == Joined(if all then Left else Inner, l[..i], lk, r, rk)
      invariant forall k :: k in seen <==> k in lk
    {
      assert l[..i + 1][..i] == l[..i];
      var k := RowKey(l[i], keyPath, sc);
      if k.Err? {
        KeyErrorIsScopeMiss(l[i], keyPath, sc);
        RowKeysAt(l, i, keyPath, sc);
        return Err(k.code), seen;
      }
      MatchIsLast(rightByKey, r, rk, k.value);
      var m := Match(rightByKey, k.value);
      JoinGrows(all, l[..i], lk, r, rk, l[i], k.value);
      assert l[..i + 1] == l[..i] + [l[i]];
      seen := seen + {k.value};
      if m.Some? {
        rows := rows + [l[i] + m.value];
      } else if all {
        rows := rows + [l[i]];
      }
      lk := lk + [k.value];
    }
    assert l[..|l|] == l;
    return Ok(rows), seen;
  }

  lemma JoinGrows(all: bool, l: seq<Row>, lk: seq<string>, r: seq<Row>, rk: seq<string>, row: Row, key: string)
    requires |l| == |lk| && |r| == |rk|
    ensures Joined(if all then Left else Inner, l + [row], lk + [key], r, rk) ==
            Joined(if all then Left else Inner, l, lk, r, rk) +
            (if all || key in rk then [LeftRow(row, key, r, rk)] else [])
  {
    var big, small := LeftJoin(l + [row], lk + [key], r, rk), LeftJoin(l, lk, r, rk);
    assert big[..|l|] == small;
    var f := Found(lk + [key], rk);
    assert f[..|l|] == Found(lk, rk);
    assert big == small + [LeftRow(row, key, r, rk)];
  }

  method OverlayRight(r: seq<Row>, leftByKey: map<string, Row>, keyPath: Path, sc: Scope,
                      ghost l: seq<Row>, ghost lk: seq<string>)
    returns (out: Result<seq<Row>>)
    requires |l| == |lk| && Indexes(leftByKey, l, lk)
    ensures match RowKeys(r, keyPath, sc)
            case Ok(rk) => out == Ok(RightJoin(l, lk, r, rk))
            case Err(c) => out == Err(c)
  {
    var rows: seq<Row> := [];
    ghost var rk: seq<string> := [];
    for i := 0 to |r|
      invariant RowKeys(r[..i], keyPath, sc) == Ok(rk)
      invariant rows == RightJoin(l, lk, r[..i], rk)
    {
      assert r[..i + 1][..i] == r[..i];
      var k := RowKey(r[i], keyPath, sc);
      if k.Err? {
        KeyErrorIsScopeMiss(r[i], keyPath, sc);
        RowKeysAt(r, i, keyPath, sc);
        return Err(k.code);
      }
      MatchIsLast(leftByKey, l, lk, k.value);
      RightGrows(l, lk, r[..i], rk, r[i], k.value);
      assert r[..i + 1] == r[..i] + [r[i]];
      rows := rows + [LaidOver(Match(leftByKey, k.value), r[i])];
      rk := rk + [k.value];
    }
    assert r[..|r|] == r;
    return Ok(rows);
  }

  lemma RightGrows(l: seq<Row>, lk: seq<string>, r: seq<Row>, rk: seq<string>, row: Row, key: string)
    requires |l| == |lk| && |r| == |rk|
    ensures RightJoin(l, lk, r + [row], rk + [key]) == RightJoin(l, lk, r, rk) + [RightRow(row, key, l, lk)]
  {
  }

  lemma SelectMissing(r: seq<Row>, rk: seq<string>, lk: seq<string>, j: nat)
    requires |r| == |rk| && j < |r|
    ensures var keep := Missing(rk, lk);
            Select(r[..j + 1], keep[..j + 1]) == Select(r[..j], keep[..j]) + if rk[j] in lk then [] else [r[j]]
  {
    SelectNext(r, Missing(rk, lk), j);
  }

  /** The second loop of `outer`: right rows whose key no left row had. */
  method AppendUnseen(start: seq<Row>, r: seq<Row>, seen: set<string>, leftByKey: map<string, Row>, keyPath: Path,
                      sc: Scope, ghost rk: seq<string>, ghost lk: seq<string>)
    returns (out: seq<Row>)
    requires RowKeys(r, keyPath, sc) == Ok(rk)
    requires forall k :: k in seen <==> k in lk
    requires forall k :: k in leftByKey <==> k in lk
    ensures out == start + Select(r, Missing(rk, lk))
  {
    out := start;
    ghost var keep := Missing(rk, lk);
    for j := 0 to |r|
      invariant out == start + Select(r[..j], keep[..j])
    {
      var k := RowKey(r[j], keyPath, sc);
      SelectMissing(r, rk, lk, j);
      var key, row := k.value, r[j];
      assert key == rk[j];
      if key !in seen {
        out := out + [LaidOver(Match(leftByKey, key), row)];
      }
    }
    assert r[..|r|] == r && keep[..|r|] == keep;
  }

  method RunMerge(left: Value, right: Value, keyPath: Path, strategy: Strategy, sc: Scope)
    returns (result: Result<Value>)
    ensures result == Merged(left, right, keyPath, strategy, sc)
  {
    if !RecordList(left) || !RecordList(right) {
      return Err(PARSE_ERROR);
    }
    var l, r := RowsOf(left), RowsOf(right);
    var rightByKey := IndexRows(r, keyPath, sc);
    if rightByKey.Err? {
      return Err(rightByKey.code);
    }
    ghost var rk := RowKeys(r, keyPath, sc).value;
    var out: Result<seq<Row>>;
    var seen: set<string>;
    match strategy {
      case Inner =>
        out, seen := OverlayLeft(l, rightByKey.value, false, keyPath, sc, r, rk);
      case Left =>
        out, seen := OverlayLeft(l, rightByKey.value, true, keyPath, sc, r, rk);
      case Right =>
        var leftByKey := IndexRows(l, keyPath, sc);
        if leftByKey.Err? {
          return Err(leftByKey.code);
        }
        out := OverlayRight(r, leftByKey.value, keyPath, sc, l, RowKeys(l, keyPath, sc).value);
      case Outer =>
        var leftByKey := IndexRows(l, keyPath, sc);
        if leftByKey.Err? {
          return Err(leftByKey.code);
        }
        ghost var lk := RowKeys(l, keyPath, sc).value;
        out, seen := OverlayLeft(l, rightByKey.value, true, keyPath, sc, r, rk);
        forall k
          ensures k in leftByKey.value <==> k in lk
        {
          assert match LastMatch(lk, k) case Some(i) => k in leftByKey.value case None => k !in leftByKey.value;
        }
        var rows := AppendUnseen(out.value, r, seen, leftByKey.value, keyPath, sc, rk, lk);
        out := Ok(rows);
    }
    if out.Err? {
      return Err(out.code);
    }
    return Ok(ToValue(out.value));
  }

  // ----- every output row still carries the key of the rows it came from -----

  /** Right fields win, so a merged row resolves the by-path as its right part does. */
  lemma OverlayKeepsKey(a: Row, b: Row, keyPath: Path, sc: Scope)
    requires keyPath.root == "" && keyPath.steps != []
    requires RowKey(b, keyPath, sc).Ok?
    ensures RowKey(a + b, keyPath, sc) == RowKey(b, keyPath, sc)
  {
    assert StepInto(Rec(a + b), keyPath.steps[0]) == StepInto(Rec(b), keyPath.steps[0]);
  }

  lemma {:induction false} RowKeysFrom(rows: seq<Row>, keys: seq<string>, keyPath: Path, sc: Scope)
    requires |rows| == |keys| && forall i :: 0 <= i < |rows| ==> RowKey(rows[i], keyPath, sc) == Ok(keys[i])
    ensures RowKeys(rows, keyPath, sc) == Ok(keys)
  {
    if rows != [] {
      var n := |rows| - 1;
      RowKeysFrom(rows[..n], keys[..n], keyPath, sc);
      assert keys == keys[..n] + [keys[n]];
    }
  }

  lemma {:induction false} RowKeysOfConcat(xs: seq<Row>, xk: seq<string>, ys: seq<Row>, yk: seq<string>, keyPath: Path, sc: Scope)
    requires RowKeys(xs, keyPath, sc) == Ok(xk)
    requires |ys| == |yk| && forall i :: 0 <= i < |ys| ==> RowKey(ys[i], keyPath, sc) == Ok(yk[i])
    ensures RowKeys(xs + ys, keyPath, sc) == Ok(xk + yk)
  {
    RowKeysFrom(xs + ys, xk + yk, keyPath, sc);
  }

  lemma {:induction false} RowKeysOfSelection(rows: seq<Row>, keys: seq<string>, keep: seq<bool>, keyPath: Path, sc: Scope)
    requires |rows| == |keys| == |keep| && RowKeys(rows, keyPath, sc) == Ok(keys)
    ensures RowKeys(Select(rows, keep), keyPath, sc) == Ok(Select(keys, keep))
  {
    if rows != [] {
      var n := |rows| - 1;
      assert keys[..n] == RowKeys(rows[..n], keyPath, sc).value;
      RowKeysOfSelection(rows[..n], keys[..n], keep[..n], keyPath, sc);
      var front, frontKeys := Select(rows[..n], keep[..n]), Select(keys[..n], keep[..n]);
      if keep[n] {
        RowKeysOfConcat(front, frontKeys, [rows[n]], [keys[n]], keyPath, sc);
      } else {
        assert front + [] == front && frontKeys + [] == frontKeys;
      }
    }
  }

  /** The key sequence of the result, for each strategy. */
  function JoinedKeys(strategy: Strategy, lk: seq<string>, rk: seq<string>): seq<string> {
    match strategy
    case Inner => Select(lk, Found(lk, rk))
    case Left => lk
    case Right => rk
    case Outer => lk + Select(rk, Missing(rk, lk))
  }

  lemma MergeKeepsKeys(strategy: Strategy, l: seq<Row>, lk: seq<string>, r: seq<Row>, rk: seq<string>, keyPath: Path, sc: Scope)
    requires keyPath.root == "" && keyPath.steps != []
    requires RowKeys(l, keyPath, sc) == Ok(lk) && RowKeys(r, keyPath, sc) == Ok(rk)
    ensures RowKeys(Joined(strategy, l, lk, r, rk), keyPath, sc) == Ok(JoinedKeys(strategy, lk, rk))
  {
    var left, right := LeftJoin(l, lk, r, rk), RightJoin(l, lk, r, rk);
    forall i | 0 <= i < |l|
      ensures RowKey(left[i], keyPath, sc) == Ok(lk[i])
    {
      match LastMatch(rk, lk[i])
      case Some(j) => OverlayKeepsKey(l[i], r[j], keyPath, sc);
      case None =>
    }
    forall j | 0 <= j < |r|
      ensures RowKey(right[j], keyPath, sc) == Ok(rk[j])
    {
      match LastMatch(lk, rk[j])
      case Some(i) => OverlayKeepsKey(l[i], r[j], keyPath, sc);
      case None =>
    }
    RowKeysFrom(left, lk, keyPath, sc);
    RowKeysFrom(right, rk, keyPath, sc);
    RowKeysOfSelection(left, lk, Found(lk, rk), keyPath, sc);
    RowKeysOfSelection(r, rk, Missing(rk, lk), keyPath, sc);
    RowKeysOfConcat(left, lk, Select(r, Missing(rk, lk)), Select(rk, Missing(rk, lk)), keyPath, sc);
  }

  lemma {:induction false} SelectMembers<T>(xs: seq<T>, keep: seq<bool>)
    requires |xs| == |keep|
    ensures forall x :: x in Select(xs, keep) <==> exists i :: 0 <= i < |xs| && keep[i] && xs[i] == x
  {
    if xs != [] {
      var n := |xs| - 1;
      SelectMembers(xs[..n], keep[..n]);
      forall x
        ensures x in Select(xs, keep) <==> exists i :: 0 <= i < |xs| && keep[i] && xs[i] == x
      {
        if i :| 0 <= i < |xs| && keep[i] && xs[i] == x {
          if i < n { assert xs[..n][i] == x && keep[..n][i]; }
        }
      }
    }
  }

  /** Inner joins the common keys, outer all of them, and no key of one side is lost by its own join. */
  lemma JoinedKeySets(lk: seq<string>, rk: seq<string>, k: string)
    ensures k in JoinedKeys(Inner, lk, rk) <==> k in lk && k in rk
    ensures k in JoinedKeys(Outer, lk, rk) <==> k in lk || k in rk
  {
    SelectMembers(lk, Found(lk, rk));
    SelectMembers(rk, Missing(rk, lk));
    if k in lk && k in rk {
      var i :| 0 <= i < |lk| && lk[i] == k;
      assert Found(lk, rk)[i];
    }
    if k in rk && k !in lk {
      var j :| 0 <= j < |rk| && rk[j] == k;
      assert Missing(rk, lk)[j];
    }
  }
}
