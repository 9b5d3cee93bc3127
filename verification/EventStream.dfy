/** The event-stream parser (src/mcp/sse.ts) beside sections 9.2.5 and 9.2.6 of the WHATWG HTML Standard: the
    standard's lines and dispatch of `data` fields, and when the parser yields the same payloads. */
module EventStream {
  import opened Values
  import opened Text
  import opened Sse

  // ----- the standard -----

  datatype Cut = Cut(lines: seq<string>, rest: string)

  predicate IsEnd(c: char) {
    c == '\r' || c == '\n'
  }

  function EndOfLine(text: string, from: nat): (r: Option<nat>)
    ensures r.Some? ==> from <= r.value < |text| && IsEnd(text[r.value]) && forall j :: from <= j < r.value ==> !IsEnd(text[j])
    ensures r.None? ==> forall j :: from <= j < |text| ==> !IsEnd(text[j])
    decreases |text| - from
  {
    if from >= |text| then None else if IsEnd(text[from]) then Some(from) else EndOfLine(text, from + 1)
  }

  function EndLength(text: string, i: nat): nat
    requires i < |text|
  {
    if text[i] == '\r' && i + 1 < |text| && text[i + 1] == '\n' then 2 else 1
  }

  /** Lines end with CRLF, LF or CR; what is not ended is left over. */
  function CutLines(text: string): Cut
    decreases |text|
  {
    match EndOfLine(text, 0)
    case None => Cut([], text)
    case Some(i) =>
      var more := CutLines(text[i + EndLength(text, i)..]);
      Cut([text[..i]] + more.lines, more.rest)
  }

  function WithoutSpace(v: string): string {
    if StartsWith(v, " ") then v[1..] else v
  }

  /** The value of a `data` field; a line without a colon is a field name with the empty value. */
  function FieldValue(line: string): Option<string> {
    if StartsWith(line, ":") then None
    else
      match IndexOf(line, ":", 0)
      case None => if line == "data" then Some("") else None
      case Some(i) => if line[..i] == "data" then Some(WithoutSpace(line[i + 1..])) else None
  }

  /** What a line adds to the data buffer. */
  function Grown(line: string): string {
    match FieldValue(line) case None => "" case Some(v) => v + "\n"
  }

  /** The data buffer grows by a value and a LF; a blank line dispatches it without its last LF, if there is one. */
  function Dispatched(lines: seq<string>, data: string): seq<string>
    decreases |lines|
  {
    if lines == [] then []
    else if lines[0] == "" then (if data == "" then [] else [data[..|data| - 1]]) + Dispatched(lines[1..], "")
    else Dispatched(lines[1..], data + Grown(lines[0]))
  }

  function Standard(text: string): seq<string> {
    Dispatched(CutLines(text).lines, "")
  }

  // ----- the parser's payloads -----

  function Payload(event: string): seq<string> {
    match DataField(event) case None => [] case Some(data) => [data]
  }

  function Payloads(events: seq<string>): seq<string> {
    if events == [] then [] else Payload(events[0]) + Payloads(events[1..])
  }

  lemma {:induction false} ParsedPayloads<V>(events: seq<string>, json: string -> Option<V>)
    ensures Messages(events, json) == ParsedAll(Payloads(events), json)
  {
    if events != [] {
      ParsedPayloads(events[1..], json);
      assert events == [events[0]] + events[1..];
      MessagesOfConcat([events[0]], events[1..], json);
      MessagesOfOne(events[0], json);
      ParsedConcat(Payload(events[0]), Payloads(events[1..]), json);
      ParsedOne(events[0], json);
    }
  }

  lemma MessagesOfOne<V>(event: string, json: string -> Option<V>)
    ensures Messages([event], json) == Message(event, json)
  {
    var one := [event];
    assert one[..0] == [];
  }

  lemma ParsedOne<V>(event: string, json: string -> Option<V>)
    ensures ParsedAll(Payload(event), json) == Message(event, json)
  {
    var p := Payload(event);
    if p != [] { assert p[..0] == []; }
  }

  lemma {:induction false} ParsedConcat<V>(a: seq<string>, b: seq<string>, json: string -> Option<V>)
    ensures ParsedAll(a + b, json) == ParsedAll(a, json) + ParsedAll(b, json)
    decreases |b|
  {
    if b == [] {
      assert a + b == a;
    } else {
      var n := |b| - 1;
      ParsedConcat(a, b[..n], json);
      assert (a + b)[..|a + b| - 1] == a + b[..n];
    }
  }

  // ----- data lines -----

  lemma FieldValueIs(line: string)
    ensures line != "data" ==> FieldValue(line) == DataValue(line)
    ensures line == "data" ==> FieldValue(line) == Some("") && DataValue(line) == None
  {
    var colon := IndexOf(line, ":", 0);
    if colon.Some? && line[..colon.value] == "data" { DataBeforeColon(line); }
    if StartsWith(line, "data:") { ColonAfterData(line); }
    if line == "data" { NoColon(line); }
  }

  lemma DataBeforeColon(line: string)
    requires IndexOf(line, ":", 0).Some? && line[..IndexOf(line, ":", 0).value] == "data"
    ensures StartsWith(line, "data:")
  {
    var i := IndexOf(line, ":", 0).value;
    OccursChar(line, ":", i, 0);
    assert line[0..5] == line[..i] + [line[i]];
  }

  lemma ColonAfterData(line: string)
    requires StartsWith(line, "data:")
    ensures IndexOf(line, ":", 0) == Some(4) && line[..4] == "data" && !StartsWith(line, ":")
  {
    forall j | 0 <= j < 4
      ensures !OccursAt(line, ":", j)
    {
      OccursChar(line, "data:", 0, j);
      assert line[j] == "data:"[j] && line[j..j + 1] == [line[j]];
    }
    OccursChar(line, "data:", 0, 4);
    OccursFromChars(line, ":", 4);
    FirstOccurrence(line, ":", 4);
    assert line[..4] == line[0..5][..4];
  }

  lemma NoColon(line: string)
    requires line == "data"
    ensures IndexOf(line, ":", 0).None? && !StartsWith(line, ":") && !StartsWith(line, "data:")
  {
    forall j | 0 <= j < 4
      ensures !OccursAt(line, ":", j)
    {
      assert line[j] != ':' && line[j..j + 1] == [line[j]];
    }
  }

  function DataText(lines: seq<string>): string {
    if lines == [] then ""
    else DataText(lines[..|lines| - 1]) + Grown(lines[|lines| - 1])
  }

  lemma Regroup<T>(a: seq<T>, b: seq<T>, c: seq<T>)
    ensures a + b + c == a + (b + c)
  {
  }

  /** Lines that are not blank only collect data. */
  lemma {:induction false} BlockDispatch(lines: seq<string>, more: seq<string>, data: string)
    requires forall k :: 0 <= k < |lines| ==> lines[k] != ""
    ensures Dispatched(lines + more, data) == Dispatched(more, data + DataText(lines))
    decreases |lines|
  {
    if lines == [] {
      assert lines + more == more && data + "" == data;
    } else {
      var n := |lines| - 1;
      var x, before := [lines[n]] + more, DataText(lines[..n]);
      BlockDispatch(lines[..n], x, data);
      LastFirst(lines, more);
      Regroup(data, before, Grown(lines[n]));
      assert Dispatched(x, data + before) == Dispatched(more, data + before + Grown(lines[n]));
    }
  }

  lemma LastFirst(lines: seq<string>, more: seq<string>)
    requires lines != []
    ensures var n := |lines| - 1; lines + more == lines[..n] + ([lines[n]] + more) && ([lines[n]] + more)[1..] == more
  {
  }

  lemma {:induction false} JoinedAppend(vs: seq<string>, v: string)
    ensures Joined(vs + [v], "\n") == if vs == [] then v else Joined(vs, "\n") + "\n" + v
  {
    if vs == [] {
      assert vs + [v] == [v];
    } else {
      JoinedAppend(vs[1..], v);
      assert (vs + [v])[1..] == vs[1..] + [v];
      if |vs| > 1 { assert Joined(vs, "\n") == vs[0] + "\n" + Joined(vs[1..], "\n"); }
    }
  }

  /** No complete line is the bare word `data`, which the standard takes for an empty value. */
  predicate NoBareData(lines: seq<string>) {
    forall k :: 0 <= k < |lines| ==> lines[k] != "data"
  }

  function Ended(vs: seq<string>): string {
    if vs == [] then "" else Joined(vs, "\n") + "\n"
  }

  /** Without a bare `data` line the collected text is the joined values and a LF. */
  lemma {:induction false} DataTextIsJoined(lines: seq<string>)
    requires NoBareData(lines)
    ensures DataText(lines) == Ended(DataValues(lines))
  {
    if lines != [] {
      var front, line := lines[..|lines| - 1], lines[|lines| - 1];
      NoBareFront(lines);
      DataTextIsJoined(front);
      LineGrows(DataValues(front), line);
      ValuesLast(lines);
    }
  }

  lemma NoBareFront(lines: seq<string>)
    requires lines != [] && NoBareData(lines)
    ensures NoBareData(lines[..|lines| - 1]) && lines[|lines| - 1] != "data"
  {
  }

  lemma ValuesLast(lines: seq<string>)
    requires lines != []
    ensures var front, value := DataValues(lines[..|lines| - 1]), DataValue(lines[|lines| - 1]);
            DataValues(lines) == if value.Some? then front + [value.value] else front + []
  {
  }

  lemma LineGrows(vs: seq<string>, line: string)
    requires line != "data"
    ensures Ended(vs) + Grown(line) == Ended(if DataValue(line).Some? then vs + [DataValue(line).value] else vs + [])
  {
    FieldValueIs(line);
    if DataValue(line).Some? {
      OneMoreValue(vs, DataValue(line).value);
    } else {
      assert vs + [] == vs && Ended(vs) + "" == Ended(vs);
    }
  }

  lemma OneMoreValue(vs: seq<string>, v: string)
    ensures Ended(vs) + (v + "\n") == Ended(vs + [v])
  {
    JoinedAppend(vs, v);
    if vs == [] {
      assert "" + (v + "\n") == v + "\n";
    } else {
      Regroup(Joined(vs, "\n") + "\n", v, "\n");
    }
  }

  // ----- lines of texts without CR -----

  predicate NoCr(text: string) {
    forall k :: 0 <= k < |text| ==> text[k] != '\r'
  }

  lemma NewlineIsEnd(text: string)
    requires NoCr(text)
    ensures IndexOf(text, "\n", 0) == EndOfLine(text, 0)
  {
    forall j | 0 <= j < |text|
      ensures OccursAt(text, "\n", j) <==> text[j] == '\n'
    {
      assert text[j..j + 1] == [text[j]];
    }
    match EndOfLine(text, 0)
    case None => assert forall j :: 0 <= j ==> !OccursAt(text, "\n", j);
    case Some(i) => FirstOccurrence(text, "\n", i);
  }

  lemma FirstEnd(text: string, i: nat)
    requires i < |text| && IsEnd(text[i]) && forall j :: 0 <= j < i ==> !IsEnd(text[j])
    ensures EndOfLine(text, 0) == Some(i)
  {
  }

  lemma CutUnfold(text: string, i: nat)
    requires EndOfLine(text, 0) == Some(i)
    ensures var more := CutLines(text[i + EndLength(text, i)..]);
            CutLines(text) == Cut([text[..i]] + more.lines, more.rest)
  {
  }

  lemma CutFirst(text: string, i: nat)
    requires i < |text| && text[i] == '\n' && forall j :: 0 <= j < i ==> !IsEnd(text[j])
    ensures CutLines(text) == Cut([text[..i]] + CutLines(text[i + 1..]).lines, CutLines(text[i + 1..]).rest)
  {
    FirstEnd(text, i);
    CutUnfold(text, i);
  }

  lemma SplitAt(u: string, v: string, i: nat)
    requires i < |u|
    ensures var text := u + "\n" + v;
            text[..i] == u[..i] && text[i + 1..] == u[i + 1..] + "\n" + v && text[i] == u[i] && forall j :: 0 <= j < i ==> text[j] == u[j]
  {
  }

  lemma SplitAfter(u: string, v: string)
    ensures var text := u + "\n" + v;
            text[..|u|] == u && text[|u| + 1..] == v && text[|u|] == '\n' && forall j :: 0 <= j < |u| ==> text[j] == u[j]
  {
  }

  /** The complete lines of a text that a LF ends, and of what follows. */
  lemma {:induction false} CutAfterLf(u: string, v: string)
    requires NoCr(u)
    ensures CutLines(u + "\n" + v) == Cut(Lines(u) + CutLines(v).lines, CutLines(v).rest)
    decreases |u|
  {
    NewlineIsEnd(u);
    if EndOfLine(u, 0).None? {
      SplitAfter(u, v);
      CutFirst(u + "\n" + v, |u|);
    } else {
      var i := EndOfLine(u, 0).value;
      SplitAt(u, v, i);
      CutFirst(u + "\n" + v, i);
      CutAfterLf(u[i + 1..], v);
      Regroup([u[..i]], Lines(u[i + 1..]), CutLines(v).lines);
    }
  }

  /** Without two LFs in a row no line but the first is blank. */
  lemma {:induction false} CutNotBlank(text: string)
    requires NoCr(text) && forall j :: 0 <= j ==> !LfLfAt(text, j)
    ensures forall k :: 1 <= k < |CutLines(text).lines| ==> CutLines(text).lines[k] != ""
    decreases |text|
  {
    if EndOfLine(text, 0).Some? {
      var i := EndOfLine(text, 0).value;
      var v := text[i + 1..];
      forall j | 0 <= j
        ensures !LfLfAt(v, j)
      {
        assert !LfLfAt(text, i + 1 + j);
      }
      assert !LfLfAt(text, i);
      CutNotBlank(v);
      if CutLines(v).lines != [] { FirstOfCut(v); }
    }
  }

  lemma FirstOfCut(v: string)
    requires NoCr(v) && CutLines(v).lines != [] && v[0] != '\n'
    ensures CutLines(v).lines[0] != ""
  {
  }

  lemma {:induction false} LinesNotBlank(u: string)
    requires NoCr(u) && (forall j :: 0 <= j ==> !LfLfAt(u, j)) && (u != "" ==> u[|u| - 1] != '\n')
    ensures forall k :: 1 <= k < |Lines(u)| ==> Lines(u)[k] != ""
    ensures u != "" && u[0] != '\n' ==> Lines(u)[0] != ""
    decreases |u|
  {
    NewlineIsEnd(u);
    if EndOfLine(u, 0).Some? {
      var i := EndOfLine(u, 0).value;
      var v := u[i + 1..];
      forall j | 0 <= j
        ensures !LfLfAt(v, j)
      {
        assert !LfLfAt(u, i + 1 + j);
      }
      assert !LfLfAt(u, i);
      LinesNotBlank(v);
    }
  }

  // ----- agreement for LF -----

  /** What the standard dispatches for the lines before a blank line. */
  function StandardOf(lines: seq<string>): seq<string> {
    var data := DataText(lines);
    if data == "" then [] else [data[..|data| - 1]]
  }

  function StandardAll(events: seq<string>): seq<string> {
    if events == [] then [] else StandardOf(Lines(events[0])) + StandardAll(events[1..])
  }

  lemma EventDispatch(lines: seq<string>, more: seq<string>)
    requires lines != [] && forall k :: 1 <= k < |lines| ==> lines[k] != ""
    ensures Dispatched(lines + ([""] + more), "") == StandardOf(lines) + Dispatched(more, "")
  {
    AllButFirst(lines, [""] + more);
    BlankDispatch(more, DataText(lines));
  }

  lemma BlankDispatch(more: seq<string>, data: string)
    ensures Dispatched([""] + more, data) == (if data == "" then [] else [data[..|data| - 1]]) + Dispatched(more, "")
  {
    var end := [""] + more;
    assert end[1..] == more;
  }

  lemma AllButFirst(lines: seq<string>, more: seq<string>)
    requires lines != [] && forall k :: 1 <= k < |lines| ==> lines[k] != ""
    ensures Dispatched(lines + more, "") == Dispatched(more, DataText(lines))
  {
    if lines[0] == "" {
      var rest := lines[1..];
      assert (lines + more)[1..] == rest + more;
      assert [] + Dispatched(rest + more, "") == Dispatched(rest + more, "");
      BlockDispatch(rest, more, "");
      assert "" + DataText(rest) == DataText(rest);
      DropBlank(lines);
    } else {
      BlockDispatch(lines, more, "");
      assert "" + DataText(lines) == DataText(lines);
    }
  }

  lemma {:induction false} DataTextConcat(a: seq<string>, b: seq<string>)
    ensures DataText(a + b) == DataText(a) + DataText(b)
    decreases |b|
  {
    if b == [] {
      assert a + b == a && DataText(a) + "" == DataText(a);
    } else {
      var n := |b| - 1;
      DataTextConcat(a, b[..n]);
      FrontOfConcat(a, b);
      Regroup(DataText(a), DataText(b[..n]), Grown(b[n]));
    }
  }

  lemma FrontOfConcat(a: seq<string>, b: seq<string>)
    requires b != []
    ensures (a + b)[..|a + b| - 1] == a + b[..|b| - 1] && (a + b)[|a + b| - 1] == b[|b| - 1]
  {
  }

  lemma BlankAddsNothing()
    ensures DataText([""]) == ""
  {
    FieldValueIs("");
    assert DataValue("") == None;
    var one := [""];
    assert one[..0] == [];
  }

  lemma DropBlank(lines: seq<string>)
    requires lines != [] && lines[0] == ""
    ensures DataText(lines) == DataText(lines[1..])
  {
    assert lines == [""] + lines[1..];
    DataTextConcat([""], lines[1..]);
    BlankAddsNothing();
    assert "" + DataText(lines[1..]) == DataText(lines[1..]);
  }

  lemma AroundBlank(text: string, i: nat)
    requires FirstBlank(text, i, 2)
    ensures text == text[..i] + "\n" + ("" + "\n" + text[i + 2..])
    ensures forall j :: 0 <= j ==> !LfLfAt(text[..i], j)
    ensures i > 0 ==> text[i - 1] != '\n'
  {
    forall j | 0 <= j
      ensures !LfLfAt(text[..i], j)
    {
      if LfLfAt(text[..i], j) { assert LfLfAt(text, j); }
    }
    if i > 0 { assert !LfLfAt(text, i - 1); }
  }

  lemma LinesOfEvent(text: string, i: nat)
    requires NoCr(text) && FirstBlank(text, i, 2)
    ensures var e, more := text[..i], text[i + 2..];
            && CutLines(text).lines == Lines(e) + ([""] + CutLines(more).lines)
            && Lines(e) != [] && forall k :: 1 <= k < |Lines(e)| ==> Lines(e)[k] != ""
  {
    var e, more := text[..i], text[i + 2..];
    AroundBlank(text, i);
    CutAfterLf(e, "" + "\n" + more);
    CutAfterLf("", more);
    assert Lines("") == [""];
    LinesNotBlank(e);
  }

  /** The standard dispatches for a text whose lines all end with LF what it does for the parser's complete events. */
  lemma {:induction false} StandardPerEvent(text: string)
    requires NoCr(text)
    ensures Standard(text) == StandardAll(Events(text).events)
    decreases |text|
  {
    BoundaryIsFirst(text);
    if FindEventBoundary(text).None? {
      CutNotBlank(text);
      NothingDispatched(CutLines(text).lines);
    } else {
      var i := FindEventBoundary(text).value;
      var e, more := text[..i], text[i + 2..];
      LinesOfEvent(text, i);
      EventsUnfold(text, i, 2);
      EventDispatch(Lines(e), CutLines(more).lines);
      StandardPerEvent(more);
      FirstStandard(e, Events(more).events);
    }
  }

  lemma FirstStandard(e: string, more: seq<string>)
    ensures StandardAll([e] + more) == StandardOf(Lines(e)) + StandardAll(more)
  {
    assert ([e] + more)[1..] == more;
  }

  lemma NothingDispatched(lines: seq<string>)
    requires forall k :: 1 <= k < |lines| ==> lines[k] != ""
    ensures Dispatched(lines, "") == []
  {
    if lines != [] {
      AllButFirst(lines, []);
      assert lines + [] == lines;
    }
  }

  // ----- how many data lines a payload comes from -----

  function Lfs(text: string): nat {
    if text == "" then 0 else (if text[0] == '\n' then 1 else 0) + Lfs(text[1..])
  }

  lemma {:induction false} LfsOfConcat(a: string, b: string)
    ensures Lfs(a + b) == Lfs(a) + Lfs(b)
  {
    if a == "" {
      assert a + b == b;
    } else {
      LfsOfConcat(a[1..], b);
      assert (a + b)[1..] == a[1..] + b;
    }
  }

  predicate NoLf(text: string) {
    forall k :: 0 <= k < |text| ==> text[k] != '\n'
  }

  lemma {:induction false} NoLfs(text: string)
    requires NoLf(text)
    ensures Lfs(text) == 0
  {
    if text != "" { NoLfs(text[1..]); }
  }

  lemma {:induction false} LinesHaveNoLf(text: string)
    ensures forall k :: 0 <= k < |Lines(text)| ==> NoLf(Lines(text)[k])
    decreases |text|
  {
    match IndexOf(text, "\n", 0)
    case None =>
      forall j | 0 <= j < |text|
        ensures text[j] != '\n'
      {
        assert !OccursAt(text, "\n", j);
        assert text[j..j + 1] == [text[j]];
      }
    case Some(i) =>
      forall j | 0 <= j < i
        ensures text[j] != '\n'
      {
        assert !OccursAt(text, "\n", j);
        assert text[j..j + 1] == [text[j]];
      }
      LinesHaveNoLf(text[i + 1..]);
  }

  lemma ValueHasNoLf(line: string)
    requires NoLf(line)
    ensures FieldValue(line).Some? ==> NoLf(FieldValue(line).value)
    ensures DataValue(line).Some? ==> NoLf(DataValue(line).value)
  {
  }

  lemma EndedValue(v: string)
    requires NoLf(v)
    ensures Lfs(v + "\n") == 1
  {
    LfsOfConcat(v, "\n");
    NoLfs(v);
    assert "\n"[1..] == "";
  }

  /** Lines with a data field for the standard, and for the parser. */
  function DataLines(lines: seq<string>): nat {
    if lines == [] then 0 else DataLines(lines[..|lines| - 1]) + if FieldValue(lines[|lines| - 1]).Some? then 1 else 0
  }

  predicate AllNoLf(lines: seq<string>) {
    forall k :: 0 <= k < |lines| ==> NoLf(lines[k])
  }

  lemma {:induction false} LfsOfDataText(lines: seq<string>)
    requires AllNoLf(lines)
    ensures Lfs(DataText(lines)) == DataLines(lines)
    ensures DataText(lines) != "" ==> DataText(lines)[|DataText(lines)| - 1] == '\n'
  {
    if lines != [] {
      var n := |lines| - 1;
      LfsOfDataText(lines[..n]);
      ValueHasNoLf(lines[n]);
      LfsOfConcat(DataText(lines[..n]), Grown(lines[n]));
      if FieldValue(lines[n]).Some? { EndedValue(FieldValue(lines[n]).value); }
    }
  }

  lemma {:induction false} LfsOfValues(lines: seq<string>)
    requires AllNoLf(lines)
    ensures Lfs(Ended(DataValues(lines))) == |DataValues(lines)|
  {
    if lines != [] {
      var front, line := lines[..|lines| - 1], lines[|lines| - 1];
      LfsOfValues(front);
      ValuesLast(lines);
      if DataValue(line).Some? {
        var v := DataValue(line).value;
        ValueHasNoLf(line);
        OneMoreValue(DataValues(front), v);
        LfsOfConcat(Ended(DataValues(front)), v + "\n");
        EndedValue(v);
      } else {
        assert DataValues(front) + [] == DataValues(front);
      }
    }
  }

  /** The parser sees the data lines that are not bare. */
  lemma {:induction false} BareMakesTheDifference(lines: seq<string>)
    ensures |DataValues(lines)| <= DataLines(lines)
    ensures |DataValues(lines)| == DataLines(lines) <==> NoBareData(lines)
  {
    if lines != [] {
      var n := |lines| - 1;
      BareMakesTheDifference(lines[..n]);
      FieldValueIs(lines[n]);
      ValuesLast(lines);
      assert NoBareData(lines) <==> NoBareData(lines[..n]) && lines[n] != "data" by {
        assert forall k :: 0 <= k < n ==> lines[..n][k] == lines[k];
      }
    }
  }

  /** One for each payload and one for each LF in it: the data lines they come from. */
  function Weight(payloads: seq<string>): nat {
    if payloads == [] then 0 else 1 + Lfs(payloads[0]) + Weight(payloads[1..])
  }

  lemma {:induction false} WeightOfConcat(a: seq<string>, b: seq<string>)
    ensures Weight(a + b) == Weight(a) + Weight(b)
  {
    if a == [] {
      assert a + b == b;
    } else {
      WeightOfConcat(a[1..], b);
      assert (a + b)[1..] == a[1..] + b;
    }
  }

  lemma WeightOfOne(p: string)
    ensures Weight([p]) == Lfs(p + "\n")
  {
    LfsOfConcat(p, "\n");
    assert "\n"[1..] == "";
    var one := [p];
    assert one[1..] == [];
  }

  lemma WeightOfStandard(lines: seq<string>)
    requires AllNoLf(lines)
    ensures Weight(StandardOf(lines)) == DataLines(lines)
  {
    LfsOfDataText(lines);
    var data := DataText(lines);
    if data != "" {
      assert data == data[..|data| - 1] + "\n";
      WeightOfOne(data[..|data| - 1]);
    }
  }

  lemma WeightOfPayload(event: string)
    ensures Weight(Payload(event)) == |DataValues(Lines(event))|
  {
    LinesHaveNoLf(event);
    LfsOfValues(Lines(event));
    if DataValues(Lines(event)) != [] { WeightOfOne(Joined(DataValues(Lines(event)), "\n")); }
  }

  // ----- agreement -----

  /** No line of a complete event is the bare word `data`. */
  predicate NoBareEvents(events: seq<string>) {
    forall i :: 0 <= i < |events| ==> NoBareData(Lines(events[i]))
  }

  lemma EventAgrees(event: string)
    requires NoBareData(Lines(event))
    ensures StandardOf(Lines(event)) == Payload(event)
  {
    var values := DataValues(Lines(event));
    DataTextIsJoined(Lines(event));
    if values != [] {
      assert (Joined(values, "\n") + "\n")[..|Joined(values, "\n")|] == Joined(values, "\n");
    }
  }

  lemma {:induction false} EventsAgree(events: seq<string>)
    requires NoBareEvents(events)
    ensures StandardAll(events) == Payloads(events)
  {
    if events != [] {
      assert NoBareData(Lines(events[0]));
      EventAgrees(events[0]);
      assert forall i :: 0 <= i < |events[1..]| ==> events[1..][i] == events[i + 1];
      EventsAgree(events[1..]);
    }
  }

  lemma {:induction false} WeightsDiffer(events: seq<string>)
    ensures Weight(Payloads(events)) <= Weight(StandardAll(events))
    ensures Weight(Payloads(events)) == Weight(StandardAll(events)) ==> NoBareEvents(events)
  {
    if events != [] {
      var e, more := events[0], events[1..];
      WeightsDiffer(more);
      LinesHaveNoLf(e);
      WeightOfStandard(Lines(e));
      WeightOfPayload(e);
      BareMakesTheDifference(Lines(e));
      WeightOfConcat(Payload(e), Payloads(more));
      WeightOfConcat(StandardOf(Lines(e)), StandardAll(more));
      assert forall i :: 1 <= i < |events| ==> events[i] == more[i - 1];
    }
  }

  /** For texts whose lines all end with LF: the parser's complete events carry exactly the payloads that the
      standard dispatches iff no line in them is a bare `data`. */
  lemma LfAgreesIff(text: string)
    requires NoCr(text)
    ensures Standard(text) == Payloads(Events(text).events) <==> NoBareEvents(Events(text).events)
  {
    var events := Events(text).events;
    StandardPerEvent(text);
    WeightsDiffer(events);
    if NoBareEvents(events) { EventsAgree(events); }
  }

  // ----- the same text with CRLF -----

  function Crlf(text: string): string {
    if text == "" then "" else (if text[0] == '\n' then "\r\n" else [text[0]]) + Crlf(text[1..])
  }

  lemma {:induction false} CrlfConcat(a: string, b: string)
    ensures Crlf(a + b) == Crlf(a) + Crlf(b)
  {
    if a == "" {
      assert a + b == b;
    } else {
      CrlfConcat(a[1..], b);
      assert (a + b)[1..] == a[1..] + b;
      Regroup(if a[0] == '\n' then "\r\n" else [a[0]], Crlf(a[1..]), Crlf(b));
    }
  }

  lemma {:induction false} CrlfPlain(text: string)
    requires NoLf(text)
    ensures Crlf(text) == text
  {
    if text != "" {
      CrlfPlain(text[1..]);
      assert text == [text[0]] + text[1..];
    }
  }

  /** A line and its end. */
  lemma CrlfLine(line: string, more: string)
    requires NoLf(line)
    ensures Crlf(line + "\n" + more) == line + "\r\n" + Crlf(more)
  {
    CrlfConcat(line + "\n", more);
    CrlfConcat(line, "\n");
    CrlfPlain(line);
    assert "\n"[1..] == "" && "\r\n" + "" == "\r\n";
  }

  lemma EndParts(text: string)
    requires NoCr(text) && EndOfLine(text, 0).Some?
    ensures var i := EndOfLine(text, 0).value;
            text == text[..i] + "\n" + text[i + 1..] && NoLf(text[..i]) && NoCr(text[..i]) && NoCr(text[i + 1..])
  {
  }

  lemma CutCrlf(line: string, more: string)
    requires NoLf(line) && NoCr(line)
    ensures CutLines(line + "\r\n" + more) == Cut([line] + CutLines(more).lines, CutLines(more).rest)
  {
    var text, i := line + "\r\n" + more, |line|;
    assert text[i] == '\r' && text[i + 1] == '\n' && forall j :: 0 <= j < i ==> text[j] == line[j];
    FirstEnd(text, i);
    CutUnfold(text, i);
    assert text[..i] == line && text[i + 2..] == more;
  }

  /** The standard sees the same lines. */
  lemma {:induction false} SameLines(text: string)
    requires NoCr(text)
    ensures CutLines(Crlf(text)) == CutLines(text)
    decreases |text|
  {
    if EndOfLine(text, 0).None? {
      CrlfPlain(text);
    } else {
      var i := EndOfLine(text, 0).value;
      EndParts(text);
      SameLines(text[i + 1..]);
      CrlfLine(text[..i], text[i + 1..]);
      CutCrlf(text[..i], Crlf(text[i + 1..]));
    }
  }

  lemma LinesCrlf(line: string, more: string)
    requires NoLf(line) && NoCr(line)
    ensures Lines(line + "\r\n" + more) == [line] + Lines(more)
  {
    var text, i := line + "\r\n" + more, |line| + 1;
    forall j | 0 <= j < i
      ensures !OccursAt(text, "\n", j)
    {
      assert text[j..j + 1] == [text[j]];
      if j < |line| { assert text[j] == line[j]; }
    }
    assert text[i..i + 1] == "\n";
    FirstOccurrence(text, "\n", i);
    assert text[i - 1] == '\r' && text[..i - 1] == line && text[i + 1..] == more;
  }

  /** So does the parser within an event. */
  lemma {:induction false} SameEventLines(text: string)
    requires NoCr(text)
    ensures Lines(Crlf(text)) == Lines(text)
    decreases |text|
  {
    NewlineIsEnd(text);
    if EndOfLine(text, 0).None? {
      CrlfPlain(text);
    } else {
      var i := EndOfLine(text, 0).value;
      EndParts(text);
      SameEventLines(text[i + 1..]);
      CrlfLine(text[..i], text[i + 1..]);
      LinesCrlf(text[..i], Crlf(text[i + 1..]));
    }
  }

  /** Where a text has its k-th character after the change. */
  lemma {:induction false} CrlfChar(text: string, j: int)
    requires NoCr(text) && 0 <= j < |Crlf(text)|
    ensures Crlf(text)[j] == '\n' ==> j > 0 && Crlf(text)[j - 1] == '\r'
    ensures Crlf(text)[j] == '\r' ==> j + 1 < |Crlf(text)| && Crlf(text)[j + 1] == '\n'
  {
    var head := if text[0] == '\n' then "\r\n" else [text[0]];
    assert Crlf(text) == head + Crlf(text[1..]);
    if j >= |head| { CrlfChar(text[1..], j - |head|); }
  }

  /** The first blank line is where it was. */
  lemma {:induction false} CrlfBlank(text: string, i: nat)
    requires NoCr(text) && FirstBlank(text, i, 2)
    ensures FirstBlank(Crlf(text), |Crlf(text[..i])|, 4)
  {
    var whole := Crlf(text);
    AroundTwo(text, i);
    var before, after := Crlf(text[..i]), Crlf(text[i + 2..]);
    CrlfConcat(text[..i], "\n\n" + text[i + 2..]);
    TwoEnds(text[i + 2..]);
    assert whole == before + ("\r\n\r\n" + after);
    assert CrLfAt(whole, |before|);
    forall j | 0 <= j < |before|
      ensures !LfLfAt(whole, j) && !CrLfAt(whole, j)
    {
      NoEarlierBlank(text, i, j);
    }
  }

  lemma AroundTwo(text: string, i: nat)
    requires FirstBlank(text, i, 2)
    ensures text == text[..i] + ("\n\n" + text[i + 2..])
  {
  }

  lemma TwoEnds(more: string)
    ensures Crlf("\n\n" + more) == "\r\n\r\n" + Crlf(more)
  {
    CrlfLine("", "\n" + more);
    CrlfLine("", more);
    assert "" + "\n" + ("\n" + more) == "\n\n" + more && "" + "\n" + more == "\n" + more;
    assert "" + "\r\n" + ("" + "\r\n" + Crlf(more)) == "\r\n\r\n" + Crlf(more);
  }

  /** A blank line after the change comes from two LFs before it. */
  lemma {:induction false} BlankComesFrom(text: string, j: int)
    requires NoCr(text) && CrLfAt(Crlf(text), j)
    ensures exists k :: LfLfAt(text, k) && |Crlf(text[..k])| == j
  {
    var head := if text[0] == '\n' then "\r\n" else [text[0]];
    var more := text[1..];
    assert Crlf(text) == head + Crlf(more);
    assert |head| == 2 ==> Crlf(text)[1] == '\n';
    if j == 0 {
      assert head == "\r\n" && Crlf(text)[2] == Crlf(more)[0];
      CrlfHead(more);
      assert LfLfAt(text, 0) && |Crlf(text[..0])| == 0;
    } else if j >= |head| {
      assert CrLfAt(Crlf(more), j - |head|);
      BlankComesFrom(more, j - |head|);
      var k :| LfLfAt(more, k) && |Crlf(more[..k])| == j - |head|;
      assert LfLfAt(text, k + 1);
      assert text[..k + 1][1..] == more[..k];
    }
  }

  lemma CrlfHead(text: string)
    requires NoCr(text) && Crlf(text) != "" && Crlf(text)[0] == '\r'
    ensures text != "" && text[0] == '\n'
  {
  }

  lemma {:induction false} CrlfLength(text: string, k: nat, i: nat)
    requires k <= i <= |text|
    ensures |Crlf(text[..k])| <= |Crlf(text[..i])|
    ensures k < i ==> |Crlf(text[..k])| < |Crlf(text[..i])|
  {
    assert text[..i] == text[..k] + text[k..i];
    CrlfConcat(text[..k], text[k..i]);
  }

  lemma NoEarlierBlank(text: string, i: nat, j: int)
    requires NoCr(text) && FirstBlank(text, i, 2) && 0 <= j < |Crlf(text[..i])|
    ensures !LfLfAt(Crlf(text), j) && !CrLfAt(Crlf(text), j)
  {
    if LfLfAt(Crlf(text), j) { CrlfChar(text, j + 1); }
    if CrLfAt(Crlf(text), j) {
      BlankComesFrom(text, j);
      var k :| LfLfAt(text, k) && |Crlf(text[..k])| == j;
      if k >= i { CrlfLength(text, i, k); }
    }
  }

  function CrlfAll(events: seq<string>): seq<string> {
    if events == [] then [] else [Crlf(events[0])] + CrlfAll(events[1..])
  }

  /** The parser finds the same events. */
  lemma {:induction false} SameEvents(text: string)
    requires NoCr(text)
    ensures Events(Crlf(text)) == Split(CrlfAll(Events(text).events), Crlf(Events(text).rest))
    ensures forall k :: 0 <= k < |Events(text).events| ==> NoCr(Events(text).events[k])
    decreases |text|
  {
    BoundaryIsFirst(text);
    BoundaryIsFirst(Crlf(text));
    if FindEventBoundary(text).None? {
      NoBlankAfter(text);
    } else {
      var i := FindEventBoundary(text).value;
      SameEvents(text[i + 2..]);
      EventsUnfold(text, i, 2);
      SameFirst(text, i);
      FirstCrlf(text[..i], Events(text[i + 2..]).events);
    }
  }

  lemma SameFirst(text: string, i: nat)
    requires NoCr(text) && FirstBlank(text, i, 2)
    ensures var after := Events(Crlf(text[i + 2..]));
            Events(Crlf(text)) == Split([Crlf(text[..i])] + after.events, after.rest)
  {
    CrlfBlank(text, i);
    CrlfParts(text, i);
    UnfoldAt(Crlf(text), Crlf(text[..i]), Crlf(text[i + 2..]));
  }

  lemma UnfoldAt(text: string, before: string, after: string)
    requires FirstBlank(text, |before|, 4) && |before| + 4 <= |text|
    requires text[..|before|] == before && text[|before| + 4..] == after
    ensures Events(text) == Split([before] + Events(after).events, Events(after).rest)
  {
    EventsUnfold(text, |before|, 4);
  }

  lemma NoBlankAfter(text: string)
    requires NoCr(text) && forall j :: 0 <= j ==> !LfLfAt(text, j)
    ensures FindEventBoundary(Crlf(text)).None?
  {
    BoundaryIsFirst(Crlf(text));
    forall j | 0 <= j
      ensures !LfLfAt(Crlf(text), j) && !CrLfAt(Crlf(text), j)
    {
      if LfLfAt(Crlf(text), j) { CrlfChar(text, j + 1); }
      if CrLfAt(Crlf(text), j) { BlankComesFrom(text, j); }
    }
  }

  lemma CrlfParts(text: string, i: nat)
    requires FirstBlank(text, i, 2)
    ensures var before := Crlf(text[..i]);
            |before| + 4 <= |Crlf(text)| && Crlf(text)[..|before|] == before && Crlf(text)[|before| + 4..] == Crlf(text[i + 2..])
  {
    AroundTwo(text, i);
    CrlfConcat(text[..i], "\n\n" + text[i + 2..]);
    TwoEnds(text[i + 2..]);
    var before, after := Crlf(text[..i]), Crlf(text[i + 2..]);
    assert (before + ("\r\n\r\n" + after))[|before| + 4..] == after;
  }

  lemma FirstCrlf(e: string, more: seq<string>)
    ensures CrlfAll([e] + more) == [Crlf(e)] + CrlfAll(more)
  {
    assert ([e] + more)[1..] == more;
  }

  lemma {:induction false} SamePayloads(events: seq<string>)
    requires forall k :: 0 <= k < |events| ==> NoCr(events[k])
    ensures Payloads(CrlfAll(events)) == Payloads(events)
  {
    if events != [] {
      SameEventLines(events[0]);
      SamePayloads(events[1..]);
    }
  }

  /** For texts whose lines all end with CRLF likewise. */
  lemma CrlfAgreesIff(text: string)
    requires NoCr(text)
    ensures Standard(Crlf(text)) == Payloads(Events(Crlf(text)).events) <==> NoBareEvents(Events(text).events)
  {
    SameLines(text);
    SameEvents(text);
    SamePayloads(Events(text).events);
    LfAgreesIff(text);
  }

  /** In chunks and with JSON texts: the parser yields what the standard dispatches, and besides that the message
      of a last event that was not terminated. */
  lemma StreamIsStandard<V>(text: string, stream: string, chunks: seq<string>, json: string -> Option<V>)
    requires NoCr(text) && (stream == text || stream == Crlf(text)) && NoBareEvents(Events(text).events)
    requires Concat(chunks) == stream
    ensures Streamed(chunks, json) == ParsedAll(Standard(stream), json) + TailMessage(Events(stream).rest, json)
  {
    ChunkingIsIrrelevant(chunks, chunks, json);
    ParsedPayloads(Events(stream).events, json);
    LfAgreesIff(text);
    CrlfAgreesIff(text);
  }

  // ----- other texts -----

  lemma MixedLines()
    ensures CutLines("data:1\n\r\n").lines == ["data:1", ""]
  {
    var text := "data:1\n\r\n";
    FirstEnd(text, 6);
    assert text[..6] == "data:1" && text[7..] == "\r\n";
    CutCrlf("", "");
    assert "" + "\r\n" + "" == "\r\n";
    assert CutLines("") == Cut([], "");
  }

  lemma MixedDispatch()
    ensures Dispatched(["data:1", ""], "") == ["1"]
  {
    var line := "data:1";
    assert line[0..5] == "data:" && line[0..1] == "d" && line[5..] == "1" && "1"[0..1] == "1";
    FieldValueIs(line);
    assert Grown(line) == "1" + "\n";
    var lines := [line, ""];
    assert lines[1..] == [""] && [""][1..] == [];
    assert "" + ("1" + "\n") == "1\n" && "1\n"[..1] == "1";
  }

  /** With mixed line ends the parser misses events: a LF and a CRLF are a blank line of the standard only. */
  lemma MixedEndsDiffer()
    ensures Standard("data:1\n\r\n") == ["1"] && Events("data:1\n\r\n").events == []
  {
    var text := "data:1\n\r\n";
    MixedLines();
    MixedDispatch();
    BoundaryIsFirst(text);
    assert forall j :: 0 <= j ==> !LfLfAt(text, j) && !CrLfAt(text, j);
  }
}
