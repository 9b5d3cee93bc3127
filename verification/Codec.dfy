/** Persistence of a bounded session (src/runtime/persist.ts), up to the JSON text and the disk. */
module Codec {
  import opened Values
  import opened Base64
  import opened Evaluate
  import opened BindingTtl

  datatype Json =
    | JNull
    | JBool(flag: bool)
    | JNum(num: real)
    | JStr(text: string)
    | JList(items: seq<Json>)
    | JObj(fields: map<string, Json>)

  const BUFFER := "__buffer__"

  // ----- values -----

  function Encode(v: Value): Json {
    match v
    case Null => JNull
    case Bool(b) => JBool(b)
    case Num(n) => JNum(n)
    case Str(s) => JStr(s)
    case Bytes(data) => JObj(map[BUFFER := JStr(Encode64(data))])
    case List(items) => JList(seq(|items|, i requires 0 <= i < |items| => Encode(items[i])))
    case Rec(fields) => JObj(map k | k in fields :: Encode(fields[k]))
  }

  function Decode(j: Json): Value {
    match j
    case JNull => Null
    case JBool(b) => Bool(b)
    case JNum(n) => Num(n)
    case JStr(s) => Str(s)
    case JList(items) => List(seq(|items|, i requires 0 <= i < |items| => Decode(items[i])))
    case JObj(fields) =>
      if BUFFER in fields && fields[BUFFER].JStr? then Bytes(Decode64(fields[BUFFER].text))
      else Rec(map k | k in fields :: Decode(fields[k]))
  }

  /** No record anywhere inside has a string where the encoding of bytes has one. */
  predicate Unambiguous(v: Value) {
    match v
    case List(items) => forall i :: 0 <= i < |items| ==> Unambiguous(items[i])
    case Rec(fields) => !(BUFFER in fields && fields[BUFFER].Str?) && forall k :: k in fields ==> Unambiguous(fields[k])
    case _ => true
  }

  /** Decoding gives a value back exactly when nothing in it looks like encoded bytes. */
  lemma {:induction false} RoundTripIff(v: Value)
    ensures Decode(Encode(v)) == v <==> Unambiguous(v)
    decreases v, 1
  {
    match v
    case Bytes(data) => RoundTrip64(data);
    case List(items) => ListRoundTrip(v);
    case Rec(fields) =>
      if BUFFER in fields && fields[BUFFER].Str? {
        assert Encode(v).fields[BUFFER] == JStr(fields[BUFFER].text);
      } else {
        RecordRoundTrip(v);
      }
    case _ =>
  }

  lemma {:induction false} ListRoundTrip(v: Value)
    requires v.List?
    ensures Decode(Encode(v)) == v <==> forall i :: 0 <= i < |v.items| ==> Unambiguous(v.items[i])
    decreases v, 0
  {
    var back := Decode(Encode(v)).items;
    assert |back| == |v.items|;
    forall i | 0 <= i < |v.items|
      ensures back[i] == v.items[i] <==> Unambiguous(v.items[i])
    {
      RoundTripIff(v.items[i]);
    }
  }

  lemma EncodesToString(v: Value)
    ensures Encode(v).JStr? <==> v.Str?
  {
  }

  lemma {:induction false} RecordRoundTrip(v: Value)
    requires v.Rec? && !(BUFFER in v.fields && v.fields[BUFFER].Str?)
    ensures Decode(Encode(v)) == v <==> forall k :: k in v.fields ==> Unambiguous(v.fields[k])
    decreases v, 0
  {
    if BUFFER in v.fields { EncodesToString(v.fields[BUFFER]); }
    var back := Decode(Encode(v)).fields;
    assert back.Keys == v.fields.Keys;
    forall k | k in v.fields
      ensures back[k] == v.fields[k] <==> Unambiguous(v.fields[k])
    {
      RoundTripIff(v.fields[k]);
    }
  }

  /** A record that looks like encoded bytes comes back as bytes: the other fields are gone. */
  lemma AmbiguousRecordDecays(fields: map<string, Value>)
    requires BUFFER in fields && fields[BUFFER].Str?
    ensures Decode(Encode(Rec(fields))) == Bytes(Decode64(fields[BUFFER].text))
  {
    assert Encode(Rec(fields)).fields[BUFFER] == JStr(fields[BUFFER].text);
  }

  /** So different values have different encodings, unless one of them is ambiguous. */
  lemma EncodeInjective(v: Value, u: Value)
    requires Unambiguous(v) && Unambiguous(u) && Encode(v) == Encode(u)
    ensures v == u
  {
    RoundTripIff(v);
    RoundTripIff(u);
  }

  // ----- encoding once more -----

  /** Every record inside that looks like encoded bytes is exactly what encoding those bytes gives. */
  predicate Reencodes(v: Value) {
    match v
    case List(items) => forall i :: 0 <= i < |items| ==> Reencodes(items[i])
    case Rec(fields) =>
      if BUFFER in fields && fields[BUFFER].Str? then
        fields.Keys == {BUFFER} && Encode64(Decode64(fields[BUFFER].text)) == fields[BUFFER].text
      else forall k :: k in fields ==> Reencodes(fields[k])
    case _ => true
  }

  /** What was decoded encodes to the same again exactly when that is so. */
  lemma {:induction false} ReencodesIff(v: Value)
    ensures Encode(Decode(Encode(v))) == Encode(v) <==> Reencodes(v)
    decreases v, 1
  {
    match v
    case Bytes(data) => RoundTrip64(data);
    case List(items) => ListReencodes(v);
    case Rec(fields) =>
      if BUFFER in fields && fields[BUFFER].Str? {
        AmbiguousReencodes(fields);
      } else {
        RecordReencodes(v);
      }
    case _ =>
  }

  lemma AmbiguousReencodes(fields: map<string, Value>)
    requires BUFFER in fields && fields[BUFFER].Str?
    ensures Encode(Decode(Encode(Rec(fields)))) == Encode(Rec(fields)) <==> Reencodes(Rec(fields))
  {
    var coded := Encode(Rec(fields)).fields;
    var again := Encode(Decode(Encode(Rec(fields)))).fields;
    AmbiguousRecordDecays(fields);
    assert coded.Keys == fields.Keys && coded[BUFFER] == JStr(fields[BUFFER].text);
    assert again == map[BUFFER := JStr(Encode64(Decode64(fields[BUFFER].text)))];
    if Reencodes(Rec(fields)) {
      assert coded == again;
    } else if fields.Keys == {BUFFER} {
      assert coded[BUFFER] != again[BUFFER];
    } else {
      assert coded.Keys != again.Keys;
    }
  }

  lemma {:induction false} ListReencodes(v: Value)
    requires v.List?
    ensures Encode(Decode(Encode(v))) == Encode(v) <==> forall i :: 0 <= i < |v.items| ==> Reencodes(v.items[i])
    decreases v, 0
  {
    var coded, again := Encode(v).items, Encode(Decode(Encode(v))).items;
    assert |coded| == |again| == |v.items|;
    forall i | 0 <= i < |v.items|
      ensures again[i] == coded[i] <==> Reencodes(v.items[i])
    {
      ReencodesIff(v.items[i]);
    }
  }

  lemma {:induction false} RecordReencodes(v: Value)
    requires v.Rec? && !(BUFFER in v.fields && v.fields[BUFFER].Str?)
    ensures Encode(Decode(Encode(v))) == Encode(v) <==> forall k :: k in v.fields ==> Reencodes(v.fields[k])
    decreases v, 0
  {
    if BUFFER in v.fields { EncodesToString(v.fields[BUFFER]); }
    var coded := Encode(v).fields;
    var again := Encode(Decode(JObj(coded))).fields;
    assert again.Keys == coded.Keys == v.fields.Keys;
    forall k | k in v.fields
      ensures again[k] == coded[k] <==> Reencodes(v.fields[k])
    {
      ReencodesIff(v.fields[k]);
    }
  }

  /** A failing value: the padding that was missing is there the second time. */
  lemma PaddingAppears()
    ensures var v := Rec(map[BUFFER := Str("Zg")]);
            !Reencodes(v) && Encode(Decode(Encode(v))) == JObj(map[BUFFER := JStr("Zg==")])
  {
    var fields: map<string, Value> := map[BUFFER := Str("Zg")];
    assert Digits("Zg") == [25] + Digits("g") && Digits("g") == [32] + Digits("");
    assert Decode64("Zg") == [102];
    RfcVectors();
    AmbiguousRecordDecays(fields);
  }

  // ----- sessions -----

  datatype SerializedBinding = SerializedBinding(encoded: Json, createdAtMs: int, ttlDeadlineMs: Option<int>)

  datatype SerializedEntry = SerializedEntry(t: nat, command: string, status_line: string, binding: Option<string>,
                                             error: Option<(string, string)>, duration_ms: nat)

  datatype Blob = Blob(schema_version: int, session_id: string, bindings: map<string, SerializedBinding>,
                       last: Option<SerializedBinding>, transcript: seq<SerializedEntry>, turn_counter: nat)

  const SCHEMA_VERSION := 1

  function EncodeBinding(b: Binding): SerializedBinding {
    SerializedBinding(Encode(b.value), b.createdAtMs, b.ttlDeadlineMs)
  }

  function DecodeBinding(b: SerializedBinding): Binding {
    Binding(Decode(b.encoded), b.createdAtMs, b.ttlDeadlineMs)
  }

  function SerializeEntry(e: Entry): SerializedEntry {
    SerializedEntry(e.t, e.command, e.statusLine, e.binding, e.error, e.durationMs)
  }

  function DeserializeEntry(e: SerializedEntry): Entry {
    Entry(e.t, e.command, None, e.status_line, e.binding, e.error, e.duration_ms)
  }

  function Serialized(s: Snapshot): Blob {
    Blob(SCHEMA_VERSION, s.id,
         map name | name in s.bindings :: EncodeBinding(s.bindings[name]),
         if s.last.Some? then Some(EncodeBinding(s.last.value)) else None,
         seq(|s.transcript|, i requires 0 <= i < |s.transcript| => SerializeEntry(s.transcript[i])),
         s.turnCounter)
  }

  function Restored(b: Blob): Snapshot {
    Snapshot(b.session_id,
             map name | name in b.bindings :: DecodeBinding(b.bindings[name]),
             if b.last.Some? then Some(DecodeBinding(b.last.value)) else None,
             seq(|b.transcript|, i requires 0 <= i < |b.transcript| => DeserializeEntry(b.transcript[i])),
             b.turn_counter)
  }

  method Serialize(rt: BoundedSession) returns (blob: Blob)
    ensures blob == Serialized(rt.Whole())
  {
    var coded: map<string, SerializedBinding> := map[];
    var left := rt.bindings.Keys;
    while left != {}
      invariant left <= rt.bindings.Keys
      invariant coded == map name | name in rt.bindings && name !in left :: EncodeBinding(rt.bindings[name])
      decreases |left|
    {
      var name :| name in left;
      coded := coded[name := EncodeBinding(rt.bindings[name])];
      left := left - {name};
    }
    var entries := rt.transcript;
    blob := Blob(SCHEMA_VERSION, rt.id, coded, if rt.last.Some? then Some(EncodeBinding(rt.last.value)) else None,
                 seq(|entries|, i requires 0 <= i < |entries| => SerializeEntry(entries[i])), rt.turnCounter);
  }

  /** A blob of another schema is refused; otherwise a new session is filled from it. */
  method Deserialize(blob: Blob) returns (rt: Option<BoundedSession>)
    ensures rt.None? <==> blob.schema_version != SCHEMA_VERSION
    ensures rt.Some? ==> fresh(rt.value) && rt.value.Whole() == Restored(blob)
  {
    if blob.schema_version != SCHEMA_VERSION {
      return None;
    }
    var s := new BoundedSession(blob.session_id);
    var left := blob.bindings.Keys;
    while left != {}
      invariant left <= blob.bindings.Keys
      invariant s.bindings == map name | name in blob.bindings && name !in left :: DecodeBinding(blob.bindings[name])
      invariant s.transcript == []
      decreases |left|
    {
      var name :| name in left;
      s.bindings := s.bindings[name := DecodeBinding(blob.bindings[name])];
      left := left - {name};
    }
    s.last := if blob.last.Some? then Some(DecodeBinding(blob.last.value)) else None;
    s.turnCounter := blob.turn_counter;
    for i := 0 to |blob.transcript|
      invariant s.Whole() == Restored(blob).(transcript := Restored(blob).transcript[..i])
    {
      s.transcript := s.transcript + [DeserializeEntry(blob.transcript[i])];
    }
    return Some(s);
  }

  predicate UnambiguousSession(s: Snapshot) {
    && (forall name :: name in s.bindings ==> Unambiguous(s.bindings[name].value))
    && (s.last.Some? ==> Unambiguous(s.last.value.value))
  }

  /** The session without the parsed statements of its transcript. */
  function Unparsed(s: Snapshot): Snapshot {
    s.(transcript := seq(|s.transcript|, i requires 0 <= i < |s.transcript| => s.transcript[i].(stmt := None)))
  }

  lemma BindingRoundTrip(b: Binding)
    ensures DecodeBinding(EncodeBinding(b)) == b <==> Unambiguous(b.value)
  {
    RoundTripIff(b.value);
  }

  /** A session is restored, but for the parsed statements, exactly when all its values are unambiguous. */
  lemma SessionRoundTripIff(s: Snapshot)
    ensures Restored(Serialized(s)) == Unparsed(s) <==> UnambiguousSession(s)
  {
    var r := Restored(Serialized(s));
    assert r.transcript == Unparsed(s).transcript;
    assert r.bindings.Keys == s.bindings.Keys;
    forall name | name in s.bindings
      ensures r.bindings[name] == s.bindings[name] <==> Unambiguous(s.bindings[name].value)
    {
      BindingRoundTrip(s.bindings[name]);
    }
    if s.last.Some? { BindingRoundTrip(s.last.value); }
  }

  predicate ReencodesSession(s: Snapshot) {
    && (forall name :: name in s.bindings ==> Reencodes(s.bindings[name].value))
    && (s.last.Some? ==> Reencodes(s.last.value.value))
  }

  lemma BindingReencodes(b: Binding)
    ensures EncodeBinding(DecodeBinding(EncodeBinding(b))) == EncodeBinding(b) <==> Reencodes(b.value)
  {
    ReencodesIff(b.value);
  }

  /** Serialising the restored session gives the same blob exactly when each of its values reencodes. */
  lemma SerializeAgainIff(s: Snapshot)
    ensures Serialized(Restored(Serialized(s))) == Serialized(s) <==> ReencodesSession(s)
  {
    var first, again := Serialized(s), Serialized(Restored(Serialized(s)));
    assert again.transcript == first.transcript;
    assert again.bindings.Keys == first.bindings.Keys == s.bindings.Keys;
    forall name | name in s.bindings
      ensures again.bindings[name] == first.bindings[name] <==> Reencodes(s.bindings[name].value)
    {
      BindingReencodes(s.bindings[name]);
    }
    if s.last.Some? { BindingReencodes(s.last.value); }
  }

  lemma {:induction false} UnambiguousReencodes(v: Value)
    requires Unambiguous(v)
    ensures Reencodes(v)
  {
    RoundTripIff(v);
    ReencodesIff(v);
  }

  /** In particular when all its values are unambiguous. */
  lemma SerializeAgain(s: Snapshot)
    requires UnambiguousSession(s)
    ensures Serialized(Restored(Serialized(s))) == Serialized(s)
  {
    SerializeAgainIff(s);
    forall name | name in s.bindings { UnambiguousReencodes(s.bindings[name].value); }
    if s.last.Some? { UnambiguousReencodes(s.last.value.value); }
  }

  // ----- what is written -----

  /** Scalars are written as they are, bytes as a record of one field, lists and records element by element. */
  lemma EncodingIs(flag: bool, num: real, text: string, data: seq<Byte>, items: seq<Value>, fields: map<string, Value>)
    ensures Encode(Null) == JNull && Encode(Bool(flag)) == JBool(flag) && Encode(Num(num)) == JNum(num) && Encode(Str(text)) == JStr(text)
    ensures Encode(Bytes(data)) == JObj(map["__buffer__" := JStr(Encode64(data))])
    ensures var j := Encode(List(items));
            j.JList? && |j.items| == |items| && forall i :: 0 <= i < |items| ==> j.items[i] == Encode(items[i])
    ensures var j := Encode(Rec(fields));
            j.JObj? && j.fields.Keys == fields.Keys && forall k :: k in fields ==> j.fields[k] == Encode(fields[k])
  {
  }

  /** A file of the session holds all of it but the parsed statements, each thing under its own name. */
  lemma BlobHolds(s: Snapshot)
    ensures var b := Serialized(s);
            && b.schema_version == 1 && b.session_id == s.id && b.turn_counter == s.turnCounter
            && b.bindings.Keys == s.bindings.Keys
            && (forall n :: n in s.bindings ==> Written(b.bindings[n], s.bindings[n]))
            && (b.last.Some? <==> s.last.Some?) && (s.last.Some? ==> Written(b.last.value, s.last.value))
            && |b.transcript| == |s.transcript|
            && forall i :: 0 <= i < |s.transcript| ==> EntryWritten(b.transcript[i], s.transcript[i])
  {
  }

  ghost predicate Written(w: SerializedBinding, b: Binding) {
    w.encoded == Encode(b.value) && w.createdAtMs == b.createdAtMs && w.ttlDeadlineMs == b.ttlDeadlineMs
  }

  ghost predicate EntryWritten(w: SerializedEntry, e: Entry) {
    && w.t == e.t && w.command == e.command && w.status_line == e.statusLine && w.binding == e.binding && w.error == e.error
    && w.duration_ms == e.durationMs
  }
}
