/** Runtime values (src/runtime/session.ts) and the loose equality `jsEq` (src/runtime/evaluate.ts). */
module Values {

  datatype Option<+T> = None | Some(value: T)

  function Max(a: nat, b: nat): nat {
    if a < b then b else a
  }

  function Min(a: nat, b: nat): nat {
    if a < b then a else b
  }

  /** `at` lists, in increasing order, exactly the positions at which `keep` holds. */
  ghost predicate Positions(at: seq<nat>, keep: seq<bool>) {
    && (forall j, k :: 0 <= j < k < |at| ==> at[j] < at[k])
    && (forall i: nat :: i in at <==> i < |keep| && keep[i])
  }

  lemma PositionsGrow(at: seq<nat>, keep: seq<bool>, b: bool)
    requires Positions(at, keep)
    ensures Positions(at + if b then [|keep|] else [], keep + [b])
  {
    var at', keep' := at + (if b then [|keep|] else []), keep + [b];
    forall i: nat
      ensures i in at' <==> i < |keep'| && keep'[i]
    {
      assert i in at' <==> i in at || (b && i == |keep|);
    }
    forall j | 0 <= j < |at|
      ensures at[j] < |keep|
    {
      assert at[j] in at;
    }
  }

  type Byte = b: int | 0 <= b < 256

  /** Records are finite maps: property order and prototype keys are not represented. */
  datatype Value =
    | Null
    | Bool(flag: bool)
    | Num(num: real)
    | Str(text: string)
    | Bytes(data: seq<Byte>)
    | List(items: seq<Value>)
    | Rec(fields: map<string, Value>)

  /** `typeof v === "object"` for a non-null value. */
  predicate IsObject(v: Value) {
    v.Bytes? || v.List? || v.Rec?
  }

  // ----- property keys of lists and byte buffers -----

  function Digit(d: nat): char
    requires d < 10
  {
    ['0', '1', '2', '3', '4', '5', '6', '7', '8', '9'][d]
  }

  function Decimal(n: nat): string
    decreases n
  {
    if n < 10 then [Digit(n)] else Decimal(n / 10) + [Digit(n % 10)]
  }

  /** Decimal text of an index, the property key JavaScript uses for it. */
  function IndexKey(n: nat): string {
    Decimal(n)
  }

  lemma DigitInjective(d: nat, e: nat)
    requires d < 10 && e < 10 && Digit(d) == Digit(e)
    ensures d == e
  {
  }

  lemma {:induction false} DecimalInjective(m: nat, n: nat)
    requires Decimal(m) == Decimal(n)
    ensures m == n
    decreases m
  {
    var a, b := Decimal(m), Decimal(n);
    assert a[|a| - 1] == Digit(m % 10) && b[|b| - 1] == Digit(n % 10);
    DigitInjective(m % 10, n % 10);
    DecimalLength(m);
    DecimalLength(n);
    if m >= 10 && n >= 10 {
      assert a[..|a| - 1] == Decimal(m / 10) && b[..|b| - 1] == Decimal(n / 10);
      DecimalInjective(m / 10, n / 10);
    }
  }

  lemma DecimalLength(n: nat)
    ensures |Decimal(n)| >= 1
    ensures n >= 10 ==> |Decimal(n)| >= 2
  {
  }

  lemma IndexKeyInjective(m: nat, n: nat)
    requires IndexKey(m) == IndexKey(n)
    ensures m == n
  {
    DecimalInjective(m, n);
  }

  /** The numbers a list or buffer has without owning a property for them. */
  predicate InheritedName(k: string) {
    k == "length" || k == "byteLength" || k == "BYTES_PER_ELEMENT"
  }

  lemma IndexKeyIsNotInherited(n: nat)
    ensures !InheritedName(IndexKey(n))
  {
    var k := IndexKey(n);
    assert k[|k| - 1] == Digit(n % 10);
    assert "length"[5] == 'h' && "byteLength"[9] == 'h' && "BYTES_PER_ELEMENT"[16] == 'T';
  }

  ghost predicate IsIndexed(m: map<string, Value>, items: seq<Value>) {
    && |m| == |items|
    && (forall i :: 0 <= i < |items| ==> IndexKey(i) in m && m[IndexKey(i)] == items[i])
    && forall k :: k in m ==> IsIndexBelow(k, |items|)
  }

  ghost predicate IsIndexBelow(k: string, n: nat) {
    exists i :: 0 <= i < n && k == IndexKey(i)
  }

  lemma IndexKeyIsNew(n: nat)
    ensures !IsIndexBelow(IndexKey(n), n)
    ensures forall i :: 0 <= i < n ==> IndexKey(i) != IndexKey(n)
  {
    forall i | 0 <= i < n
      ensures IndexKey(i) != IndexKey(n)
    {
      if IndexKey(i) == IndexKey(n) { IndexKeyInjective(i, n); }
    }
  }

  lemma IndexedStep(rest: map<string, Value>, items: seq<Value>, n: nat)
    requires n + 1 == |items| && IsIndexed(rest, items[..n])
    ensures IsIndexed(rest[IndexKey(n) := items[n]], items)
  {
    IndexKeyIsNew(n);
    assert IndexKey(n) !in rest;
    forall k | IsIndexBelow(k, n) || k == IndexKey(n)
      ensures IsIndexBelow(k, n + 1)
    {
    }
  }

  /** Own enumerable properties (`Object.keys`) of a list whose elements are `items`. */
  function Indexed(items: seq<Value>): map<string, Value> {
    if items == [] then map[]
    else
      var n := |items| - 1;
      Indexed(items[..n])[IndexKey(n) := items[n]]
  }

  lemma {:induction false} IndexedByKeys(items: seq<Value>)
    ensures IsIndexed(Indexed(items), items)
  {
    if items != [] {
      var n := |items| - 1;
      IndexedByKeys(items[..n]);
      IndexedStep(Indexed(items[..n]), items, n);
    }
  }

  function ByteValues(data: seq<Byte>): (vs: seq<Value>)
    ensures |vs| == |data|
  {
    seq(|data|, i requires 0 <= i < |data| => Num(data[i] as real))
  }

  /** `Object.keys` with the values found there. */
  function Props(v: Value): map<string, Value> {
    match v
    case List(items) => Indexed(items)
    case Bytes(data) => Indexed(ByteValues(data))
    case Rec(fields) => fields
    case _ => map[]
  }

  /** What a list or buffer answers to a name it inherits. */
  function Inherited(v: Value, k: string): (r: Option<Value>)
    ensures r.Some? ==> InheritedName(k) && r.value.Num? && (v.List? || v.Bytes?)
  {
    if v.List? && k == "length" then Some(Num(|v.items| as real))
    else if v.Bytes? && (k == "length" || k == "byteLength") then Some(Num(|v.data| as real))
    else if v.Bytes? && k == "BYTES_PER_ELEMENT" then Some(Num(1.0))
    else None
  }

  /** `v[k]`: an own property, or an inherited one; None is `undefined`. */
  function Peek(v: Value, k: string): Option<Value> {
    var own := Props(v);
    if k in own then Some(own[k]) else Inherited(v, k)
  }

  // ----- jsEq -----

  lemma {:induction false} PropsBelow(v: Value, k: string)
    requires IsObject(v) && k in Props(v)
    ensures if v.Bytes? then Props(v)[k].Num? else Props(v)[k] < v
  {
    if v.List? {
      IndexedByKeys(v.items);
      var i :| 0 <= i < |v.items| && k == IndexKey(i);
    } else if v.Bytes? {
      IndexedByKeys(ByteValues(v.data));
      var i :| 0 <= i < |v.data| && k == IndexKey(i);
    }
  }

  /** The loose equality of predicates. Only two lists are compared positionally; every other
      pair of objects is compared through the keys of the FIRST one. */
  predicate JsEq(a: Value, b: Value)
    decreases a
  {
    if !IsObject(a) || !IsObject(b) then a == b
    else if a.List? && b.List? then
      |a.items| == |b.items| && forall i | 0 <= i < |a.items| :: JsEq(a.items[i], b.items[i])
    else
      && |Props(a)| == |Props(b)|
      && forall k | k in Props(a) :: Peek(b, k).Some? && EqProp(a, k, Peek(b, k).value)
  }

  /** `jsEq(a[k], y)`: the properties of a byte buffer are numbers, so `===` decides there. */
  predicate EqProp(a: Value, k: string, y: Value)
    requires IsObject(a) && k in Props(a)
    decreases a, 0
  {
    PropsBelow(a, k);
    if a.Bytes? then Props(a)[k] == y else JsEq(Props(a)[k], y)
  }

  lemma {:induction false} EqPropIsJsEq(a: Value, k: string, y: Value)
    requires IsObject(a) && k in Props(a)
    ensures EqProp(a, k, y) == JsEq(Props(a)[k], y)
  {
    PropsBelow(a, k);
  }

  /** The keys of a list or buffer are indices, never inherited names. */
  lemma {:induction false} IndexProps(v: Value, k: string)
    requires (v.List? || v.Bytes?) && k in Props(v)
    ensures !InheritedName(k)
  {
    if v.List? {
      IndexedByKeys(v.items);
      var i :| 0 <= i < |v.items| && k == IndexKey(i);
      IndexKeyIsNotInherited(i);
    } else {
      IndexedByKeys(ByteValues(v.data));
      var i :| 0 <= i < |v.data| && k == IndexKey(i);
      IndexKeyIsNotInherited(i);
    }
  }

  /** Equality of objects as equality of their own property maps. */
  ghost predicate SameProps(a: Value, b: Value) {
    && |Props(a)| == |Props(b)|
    && forall k | k in Props(a) :: k in Props(b) && JsEq(Props(a)[k], Props(b)[k])
  }

  lemma ListsGiveProps(a: Value, b: Value)
    requires a.List? && b.List? && JsEq(a, b)
    ensures SameProps(a, b)
  {
    IndexedByKeys(a.items);
    IndexedByKeys(b.items);
    forall k | k in Props(a)
      ensures k in Props(b) && JsEq(Props(a)[k], Props(b)[k])
    {
      var i :| 0 <= i < |a.items| && k == IndexKey(i);
      assert Props(b)[IndexKey(i)] == b.items[i];
    }
  }

  lemma PropsGiveLists(a: Value, b: Value)
    requires a.List? && b.List? && SameProps(a, b)
    ensures JsEq(a, b)
  {
    IndexedByKeys(a.items);
    IndexedByKeys(b.items);
    forall i | 0 <= i < |a.items|
      ensures JsEq(a.items[i], b.items[i])
    {
      assert Props(a)[IndexKey(i)] == a.items[i] && Props(b)[IndexKey(i)] == b.items[i];
    }
  }

  lemma ListsCompareByProps(a: Value, b: Value)
    requires a.List? && b.List?
    ensures JsEq(a, b) == SameProps(a, b)
  {
    if JsEq(a, b) { ListsGiveProps(a, b); }
    if SameProps(a, b) { PropsGiveLists(a, b); }
  }

  /** A record with a key that the list or buffer it meets answers to without owning it. */
  predicate Borrows(a: Value, b: Value) {
    a.Rec? && exists k | k in a.fields :: Inherited(b, k).Some?
  }

  /** But for that case objects are compared by their own properties. */
  lemma {:induction false} ObjectsCompareByProps(a: Value, b: Value)
    requires IsObject(a) && IsObject(b) && !Borrows(a, b)
    ensures JsEq(a, b) == SameProps(a, b)
  {
    if a.List? && b.List? {
      ListsCompareByProps(a, b);
    } else {
      forall k | k in Props(a)
        ensures (Peek(b, k).Some? && EqProp(a, k, Peek(b, k).value)) == (k in Props(b) && JsEq(Props(a)[k], Props(b)[k]))
      {
        if !a.Rec? { IndexProps(a, k); }
        if k in Props(b) { EqPropIsJsEq(a, k, Props(b)[k]); }
      }
    }
  }

  /** In that case through the keys of the record, the inherited ones among them. */
  lemma {:induction false} BorrowingCompares(a: Value, b: Value)
    requires a.Rec? && (b.List? || b.Bytes?)
    ensures JsEq(a, b) <==> |Props(a)| == |Props(b)| && forall k | k in Props(a) :: AnswersAlike(a, b, k)
  {
    forall k | k in Props(a)
      ensures (Peek(b, k).Some? && EqProp(a, k, Peek(b, k).value)) == AnswersAlike(a, b, k)
    {
      if k in Props(b) {
        IndexProps(b, k);
        EqPropIsJsEq(a, k, Props(b)[k]);
      } else if Inherited(b, k).Some? {
        EqPropIsJsEq(a, k, Inherited(b, k).value);
      }
    }
  }

  /** The record's property at k is the number that b inherits there, or equal to b's own property. */
  ghost predicate AnswersAlike(a: Value, b: Value, k: string)
    requires k in Props(a)
  {
    if Inherited(b, k).Some? then Props(a)[k] == Inherited(b, k).value
    else k in Props(b) && JsEq(Props(a)[k], Props(b)[k])
  }

  /** A list and a buffer, or two of a kind, with as many elements inherit the same number where both do. */
  lemma {:induction false} InheritedAlike(b: Value, c: Value, k: string)
    requires (b.List? || b.Bytes?) && |Props(b)| == |Props(c)|
    requires Inherited(b, k).Some? && Inherited(c, k).Some?
    ensures Inherited(b, k) == Inherited(c, k)
  {
    if b.List? { IndexedByKeys(b.items); } else { IndexedByKeys(ByteValues(b.data)); }
    if c.List? { IndexedByKeys(c.items); } else { IndexedByKeys(ByteValues(c.data)); }
  }

  /** A finite key set contained in another of the same size is that set. */
  lemma SubsetOfSameSize<T>(x: set<T>, y: set<T>)
    requires x <= y && |x| == |y|
    ensures x == y
  {
    assert |y - x| == |y| - |x|;
  }

  lemma {:induction false} SamePropsKeys(a: Value, b: Value)
    requires SameProps(a, b)
    ensures Props(a).Keys == Props(b).Keys
  {
    SubsetOfSameSize(Props(a).Keys, Props(b).Keys);
  }

  lemma {:induction false} JsEqReflexive(a: Value)
    ensures JsEq(a, a)
    decreases a
  {
    if a.List? {
      forall i | 0 <= i < |a.items| { JsEqReflexive(a.items[i]); }
    } else if a.Rec? {
      forall k | k in a.fields { JsEqReflexive(a.fields[k]); }
    }
  }

  // ----- exactly when equality is symmetric -----

  /** Somewhere, at the same place of both values, a record with such a key meets a list or buffer. */
  predicate Clash(a: Value, b: Value)
    decreases a
  {
    Borrows(a, b) || (IsObject(a) && exists k | k in Props(a) :: k in Props(b) && ClashAt(a, k, Props(b)[k]))
  }

  predicate ClashAt(a: Value, k: string, y: Value)
    requires IsObject(a) && k in Props(a)
    decreases a, 0
  {
    PropsBelow(a, k);
    !a.Bytes? && Clash(Props(a)[k], y)
  }

  lemma {:induction false} ClashUnfolds(a: Value, b: Value)
    requires IsObject(a) && !Borrows(a, b)
    ensures Clash(a, b) <==> exists k :: k in Props(a) && k in Props(b) && Clash(Props(a)[k], Props(b)[k])
  {
    forall k | k in Props(a) && k in Props(b)
      ensures ClashAt(a, k, Props(b)[k]) == Clash(Props(a)[k], Props(b)[k])
    {
      PropsBelow(a, k);
    }
  }

  lemma {:induction false} BorrowingIsOneWay(a: Value, b: Value)
    requires Borrows(a, b)
    ensures !JsEq(b, a)
  {
    ObjectsCompareByProps(b, a);
    if SameProps(b, a) {
      SamePropsKeys(b, a);
      var k :| k in a.fields && Inherited(b, k).Some?;
      IndexProps(b, k);
    }
  }

  lemma {:induction false} OwnIsNotInherited(a: Value, b: Value)
    requires Props(a).Keys == Props(b).Keys
    ensures !Borrows(a, b)
  {
    if b.List? || b.Bytes? {
      forall k | k in Props(a)
        ensures Inherited(b, k).None?
      {
        IndexProps(b, k);
      }
    }
  }

  lemma {:induction false} SamePropsBorrowNothing(a: Value, b: Value)
    requires SameProps(a, b)
    ensures !Borrows(a, b) && !Borrows(b, a)
  {
    SamePropsKeys(a, b);
    OwnIsNotInherited(a, b);
    OwnIsNotInherited(b, a);
  }

  /** Equal values are equal the other way round exactly when they do not clash. */
  lemma {:induction false} SymmetryIff(a: Value, b: Value)
    requires JsEq(a, b)
    ensures JsEq(b, a) <==> !Clash(a, b)
    decreases a
  {
    if IsObject(a) {
      if Borrows(a, b) {
        BorrowingIsOneWay(a, b);
      } else {
        ObjectsCompareByProps(a, b);
        SamePropsKeys(a, b);
        SamePropsBorrowNothing(a, b);
        ObjectsCompareByProps(b, a);
        ClashUnfolds(a, b);
        forall k | k in Props(a)
          ensures JsEq(Props(b)[k], Props(a)[k]) <==> !Clash(Props(a)[k], Props(b)[k])
        {
          PropsBelow(a, k);
          if !a.Bytes? { SymmetryIff(Props(a)[k], Props(b)[k]); }
        }
      }
    }
  }

  /** No record inside v has a key that lists or buffers inherit. */
  predicate NoInheritedKey(v: Value)
    decreases v
  {
    match v
    case List(items) => forall i | 0 <= i < |items| :: NoInheritedKey(items[i])
    case Rec(fields) => (forall k | k in fields :: !InheritedName(k)) && forall k | k in fields :: NoInheritedKey(fields[k])
    case _ => true
  }

  lemma {:induction false} NoInheritedProp(v: Value, k: string)
    requires IsObject(v) && NoInheritedKey(v) && k in Props(v)
    ensures NoInheritedKey(Props(v)[k])
  {
    if v.List? {
      IndexedByKeys(v.items);
      var i :| 0 <= i < |v.items| && k == IndexKey(i);
    } else if v.Bytes? {
      IndexedByKeys(ByteValues(v.data));
      var i :| 0 <= i < |v.data| && k == IndexKey(i);
    }
  }

  lemma {:induction false} NoBorrowingNoClash(a: Value, b: Value)
    requires NoInheritedKey(a)
    ensures !Clash(a, b)
    decreases a
  {
    if IsObject(a) {
      ClashUnfolds(a, b);
      forall k | k in Props(a) && k in Props(b)
        ensures !Clash(Props(a)[k], Props(b)[k])
      {
        PropsBelow(a, k);
        NoInheritedProp(a, k);
        if !a.Bytes? { NoBorrowingNoClash(Props(a)[k], Props(b)[k]); }
      }
    }
  }

  /** In particular when the first value has no inherited name as a key anywhere. */
  lemma JsEqSymmetric(a: Value, b: Value)
    requires NoInheritedKey(a) && JsEq(a, b)
    ensures JsEq(b, a)
  {
    SymmetryIff(a, b);
    NoBorrowingNoClash(a, b);
  }

  // ----- exactly when equality is transitive -----

  /** Somewhere, at the same place of all three, a record has a key that the second value answers to without
      owning it and the third does not. */
  predicate Clash3(a: Value, b: Value, c: Value)
    decreases a
  {
    || BorrowedDropped(a, b, c)
    || (IsObject(a) && exists k | k in Props(a) :: k in Props(b) && k in Props(c) && Clash3At(a, k, Props(b)[k], Props(c)[k]))
  }

  predicate BorrowedDropped(a: Value, b: Value, c: Value) {
    a.Rec? && exists k | k in a.fields :: Inherited(b, k).Some? && Inherited(c, k).None?
  }

  predicate Clash3At(a: Value, k: string, y: Value, z: Value)
    requires IsObject(a) && k in Props(a)
    decreases a, 0
  {
    PropsBelow(a, k);
    !a.Bytes? && Clash3(Props(a)[k], y, z)
  }

  lemma {:induction false} Clash3Unfolds(a: Value, b: Value, c: Value)
    requires IsObject(a) && !BorrowedDropped(a, b, c)
    ensures Clash3(a, b, c) <==>
            exists k :: k in Props(a) && k in Props(b) && k in Props(c) && Clash3(Props(a)[k], Props(b)[k], Props(c)[k])
  {
    forall k | k in Props(a) && k in Props(b) && k in Props(c)
      ensures Clash3At(a, k, Props(b)[k], Props(c)[k]) == Clash3(Props(a)[k], Props(b)[k], Props(c)[k])
    {
      PropsBelow(a, k);
    }
  }

  /** What the three comparisons come to at the keys that all three values have. */
  ghost predicate TransitiveBelow(a: Value, b: Value, c: Value) {
    forall k | k in Props(a) && k in Props(b) && k in Props(c) && JsEq(Props(a)[k], Props(b)[k]) && JsEq(Props(b)[k], Props(c)[k]) ::
      JsEq(Props(a)[k], Props(c)[k]) <==> !Clash3(Props(a)[k], Props(b)[k], Props(c)[k])
  }

  lemma {:induction false} TransitiveFromBorrowing(a: Value, b: Value, c: Value)
    requires Borrows(a, b) && IsObject(c) && JsEq(a, b) && JsEq(b, c) && TransitiveBelow(a, b, c)
    ensures JsEq(a, c) <==> !Clash3(a, b, c)
  {
    ObjectsCompareByProps(b, c);
    SamePropsKeys(b, c);
    BorrowingCompares(a, b);
    if BorrowedDropped(a, b, c) {
      var k :| k in a.fields && Inherited(b, k).Some? && Inherited(c, k).None?;
      NoAnswer(a, b, c, k);
    } else {
      var k :| k in a.fields && Inherited(b, k).Some?;
      assert c.List? || c.Bytes?;
      BorrowingCompares(a, c);
      Clash3Unfolds(a, b, c);
      forall k | k in Props(a)
        ensures Inherited(b, k) == Inherited(c, k)
      {
        SameInherited(a, b, c, k);
      }
    }
  }

  /** A key that c neither owns nor inherits tells a and c apart. */
  lemma {:induction false} NoAnswer(a: Value, b: Value, c: Value, k: string)
    requires a.Rec? && k in a.fields && (b.List? || b.Bytes?) && IsObject(c) && Props(b).Keys == Props(c).Keys
    requires InheritedName(k) && Inherited(c, k).None?
    ensures !JsEq(a, c)
  {
    if k in Props(b) { IndexProps(b, k); }
    assert Peek(c, k).None?;
    if c.List? || c.Bytes? { BorrowingCompares(a, c); } else { ObjectsCompareByProps(a, c); }
  }

  lemma {:induction false} SameInherited(a: Value, b: Value, c: Value, k: string)
    requires a.Rec? && k in a.fields && (b.List? || b.Bytes?) && (c.List? || c.Bytes?) && Props(b).Keys == Props(c).Keys
    requires |Props(b)| == |Props(c)| && AnswersAlike(a, b, k)
    requires Inherited(b, k).Some? ==> Inherited(c, k).Some?
    ensures Inherited(b, k) == Inherited(c, k)
  {
    if Inherited(b, k).Some? {
      InheritedAlike(b, c, k);
    } else if Inherited(c, k).Some? {
      IndexProps(b, k);
    }
  }

  /** One key of two equal records against a list or buffer that the second equals. */
  lemma {:induction false} AnswersThrough(a: Value, b: Value, c: Value, k: string)
    requires a.Rec? && b.Rec? && (c.List? || c.Bytes?) && k in a.fields && k in b.fields
    requires JsEq(a.fields[k], b.fields[k]) && AnswersAlike(b, c, k) && TransitiveBelow(a, b, c)
    ensures AnswersAlike(a, c, k) <==> !(k in Props(c) && Clash3(a.fields[k], b.fields[k], Props(c)[k]))
  {
    if k in Props(c) { IndexProps(c, k); }
    if Inherited(c, k).Some? { assert b.fields[k].Num?; }
  }

  lemma {:induction false} TransitiveToBorrowing(a: Value, b: Value, c: Value)
    requires IsObject(a) && !Borrows(a, b) && Borrows(b, c) && JsEq(a, b) && JsEq(b, c) && TransitiveBelow(a, b, c)
    ensures JsEq(a, c) <==> !Clash3(a, b, c)
  {
    ObjectsCompareByProps(a, b);
    SamePropsKeys(a, b);
    BorrowingCompares(b, c);
    var n :| n in b.fields && Inherited(c, n).Some?;
    if !a.Rec? { IndexProps(a, n); }
    BorrowingCompares(a, c);
    Clash3Unfolds(a, b, c);
    forall k | k in a.fields
      ensures AnswersAlike(a, c, k) <==> !(k in Props(c) && Clash3(a.fields[k], b.fields[k], Props(c)[k]))
    {
      AnswersThrough(a, b, c, k);
    }
  }

  lemma {:induction false} TransitiveByProps(a: Value, b: Value, c: Value)
    requires IsObject(a) && IsObject(b) && IsObject(c)
    requires !Borrows(a, b) && !Borrows(b, c) && JsEq(a, b) && JsEq(b, c) && TransitiveBelow(a, b, c)
    ensures JsEq(a, c) <==> !Clash3(a, b, c)
  {
    ObjectsCompareByProps(a, b);
    ObjectsCompareByProps(b, c);
    SamePropsKeys(a, b);
    SamePropsKeys(b, c);
    OwnIsNotInherited(a, c);
    ObjectsCompareByProps(a, c);
    Clash3Unfolds(a, b, c);
  }

  /** Two equalities in a row compose exactly when the three values do not clash. */
  lemma {:induction false} TransitivityIff(a: Value, b: Value, c: Value)
    requires JsEq(a, b) && JsEq(b, c)
    ensures JsEq(a, c) <==> !Clash3(a, b, c)
    decreases a
  {
    if IsObject(a) {
      forall k | k in Props(a) && k in Props(b) && k in Props(c) && JsEq(Props(a)[k], Props(b)[k]) && JsEq(Props(b)[k], Props(c)[k])
        ensures JsEq(Props(a)[k], Props(c)[k]) <==> !Clash3(Props(a)[k], Props(b)[k], Props(c)[k])
      {
        PropsBelow(a, k);
        if !a.Bytes? { TransitivityIff(Props(a)[k], Props(b)[k], Props(c)[k]); }
      }
      if Borrows(a, b) {
        TransitiveFromBorrowing(a, b, c);
      } else if Borrows(b, c) {
        TransitiveToBorrowing(a, b, c);
      } else {
        TransitiveByProps(a, b, c);
      }
    }
  }

  lemma {:induction false} NoBorrowingNoClash3(a: Value, b: Value, c: Value)
    requires NoInheritedKey(a)
    ensures !Clash3(a, b, c)
    decreases a
  {
    if IsObject(a) {
      Clash3Unfolds(a, b, c);
      forall k | k in Props(a) && k in Props(b) && k in Props(c)
        ensures !Clash3(Props(a)[k], Props(b)[k], Props(c)[k])
      {
        PropsBelow(a, k);
        NoInheritedProp(a, k);
        if !a.Bytes? { NoBorrowingNoClash3(Props(a)[k], Props(b)[k], Props(c)[k]); }
      }
    }
  }

  /** In particular when the first value has no inherited name as a key anywhere. */
  lemma JsEqTransitive(a: Value, b: Value, c: Value)
    requires NoInheritedKey(a) && JsEq(a, b) && JsEq(b, c)
    ensures JsEq(a, c)
  {
    TransitivityIff(a, b, c);
    NoBorrowingNoClash3(a, b, c);
  }

  // ----- both do fail -----

  lemma OneItem()
    ensures var l := List([Num(7.0)]); Props(l) == map["0" := Num(7.0)]
  {
    var items := [Num(7.0)];
    assert items[..0] == [];
    assert IndexKey(0) == "0";
  }

  /** `{length: 1}` equals `[7]`, but not the other way round. */
  lemma LengthKeyBreaksSymmetry()
    ensures JsEq(Rec(map["length" := Num(1.0)]), List([Num(7.0)]))
    ensures !JsEq(List([Num(7.0)]), Rec(map["length" := Num(1.0)]))
  {
    var r, l := Rec(map["length" := Num(1.0)]), List([Num(7.0)]);
    OneItem();
    BorrowingCompares(r, l);
    assert Inherited(l, "length") == Some(Num(1.0));
    BorrowingIsOneWay(r, l);
  }

  /** So do the other inherited names: `{byteLength: 1}` equals a buffer of one byte, but not the other way round. */
  lemma ByteLengthBreaksSymmetry(x: Byte)
    ensures JsEq(Rec(map["byteLength" := Num(1.0)]), Bytes([x]))
    ensures !JsEq(Bytes([x]), Rec(map["byteLength" := Num(1.0)]))
  {
    var r, b := Rec(map["byteLength" := Num(1.0)]), Bytes([x]);
    IndexedByKeys(ByteValues([x]));
    assert |Props(r)| == 1;
    BorrowingCompares(r, b);
    assert Inherited(b, "byteLength") == Some(Num(1.0));
    BorrowingIsOneWay(r, b);
  }

  /** `{length: 1}` equals `[7]`, which equals `{"0": 7}`, which `{length: 1}` does not equal. */
  lemma LengthKeyBreaksTransitivity()
    ensures var a, b, c := Rec(map["length" := Num(1.0)]), List([Num(7.0)]), Rec(map["0" := Num(7.0)]);
            JsEq(a, b) && JsEq(b, c) && !JsEq(a, c)
  {
    var a, b, c := Rec(map["length" := Num(1.0)]), List([Num(7.0)]), Rec(map["0" := Num(7.0)]);
    OneItem();
    LengthKeyBreaksSymmetry();
    assert JsEq(Num(7.0), Num(7.0));
    ObjectsCompareByProps(b, c);
    TransitivityIff(a, b, c);
  }
}
