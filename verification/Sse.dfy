/** The incremental server-sent-events parser (src/mcp/sse.ts), over text already decoded. */
module Sse {
  import opened Values
  import opened Text

  const LF_LF := "\n\n"
  const CRLF_CRLF := "\r\n\r\n"

  // ----- event boundaries -----

  /** `findEventBoundary`: the earlier of the two kinds of blank line. */
  function FindEventBoundary(s: string): Option<nat> {
    var a := IndexOf(s, LF_LF, 0);
    var b := IndexOf(s, CRLF_CRLF, 0);
    if a.None? then b
    else if b.None? then a
    else if a.value < b.value then a else b
  }

  function BoundaryLength(s: string, sep: nat): nat {
    if OccursAt(s, CRLF_CRLF, sep) then 4 else 2
  }

  predicate LfLfAt(s: string, i: int) {
    0 <= i && i + 1 < |s| && s[i] == '\n' && s[i + 1] == '\n'
  }

  predicate CrLfAt(s: string, i: int) {
    0 <= i && i + 3 < |s| && s[i] == '\r' && s[i + 1] == '\n' && s[i + 2] == '\r' && s[i + 3] == '\n'
  }

  lemma BlankLineChars(s: string, i: int)
    ensures OccursAt(s, LF_LF, i) <==> LfLfAt(s, i)
    ensures OccursAt(s, CRLF_CRLF, i) <==> CrLfAt(s, i)
  {
    if OccursAt(s, LF_LF, i) { OccursChar(s, LF_LF, i, 0); OccursChar(s, LF_LF, i, 1); }
    if OccursAt(s, CRLF_CRLF, i) {
      OccursChar(s, CRLF_CRLF, i, 0);
      OccursChar(s, CRLF_CRLF, i, 1);
      OccursChar(s, CRLF_CRLF, i, 2);
      OccursChar(s, CRLF_CRLF, i, 3);
    }
    if LfLfAt(s, i) { OccursFromChars(s, LF_LF, i); }
    if CrLfAt(s, i) { OccursFromChars(s, CRLF_CRLF, i); }
  }

  /** The first blank line of s is at i and n characters long. */
  predicate FirstBlank(s: string, i: int, n: int) {
    && ((CrLfAt(s, i) && n == 4) || (LfLfAt(s, i) && n == 2))
    && forall j :: 0 <= j < i ==> !LfLfAt(s, j) && !CrLfAt(s, j)
  }

  lemma BoundaryIsFirst(s: string)
    ensures match FindEventBoundary(s)
            case Some(i) => FirstBlank(s, i, BoundaryLength(s, i))
            case None => forall j :: 0 <= j ==> !LfLfAt(s, j) && !CrLfAt(s, j)
  {
    forall j: int
      ensures OccursAt(s, LF_LF, j) <==> LfLfAt(s, j)
      ensures OccursAt(s, CRLF_CRLF, j) <==> CrLfAt(s, j)
    {
      BlankLineChars(s, j);
    }
  }

  lemma FirstBlankIsBoundary(s: string, i: nat, n: nat)
    requires FirstBlank(s, i, n)
    ensures FindEventBoundary(s) == Some(i) && BoundaryLength(s, i) == n
  {
    BoundaryIsFirst(s);
    BlankLineChars(s, i);
  }

  /** Text arriving later neither moves nor hides the first blank line. */
  lemma FirstBlankStays(a: string, b: string, i: int, n: int)
    requires FirstBlank(a, i, n)
    ensures FirstBlank(a + b, i, n)
  {
    forall j | 0 <= j < i
      ensures !LfLfAt(a + b, j) && !CrLfAt(a + b, j)
    {
      assert !LfLfAt(a, j) && !CrLfAt(a, j);
    }
  }

  // ----- splitting a text into complete events and a rest -----

  datatype Split = Split(events: seq<string>, rest: string)

  function Events(text: string): (r: Split)
    ensures |r.rest| <= |text|
    decreases |text|
  {
    match FindEventBoundary(text)
    case None => Split([], text)
    case Some(sep) =>
      BoundaryIsFirst(text);
      var more := Events(text[sep + BoundaryLength(text, sep)..]);
      Split([text[..sep]] + more.events, more.rest)
  }

  function Append(a: Split, b: Split): Split {
    Split(a.events + b.events, b.rest)
  }

  lemma EventsUnfold(text: string, i: nat, n: nat)
    requires FirstBlank(text, i, n)
    ensures Events(text) == Append(Split([text[..i]], ""), Events(text[i + n..]))
  {
    FirstBlankIsBoundary(text, i, n);
  }

  lemma AppendAssociative(a: Split, b: Split, c: Split)
    ensures Append(Append(a, b), c) == Append(a, Append(b, c))
  {
    assert a.events + b.events + c.events == a.events + (b.events + c.events);
  }

  lemma NoEventYet(a: string, b: string)
    requires FindEventBoundary(a).None?
    ensures Events(a + b) == Append(Events(a), Events(Events(a).rest + b))
  {
    assert Events(a) == Split([], a);
    assert Append(Split([], a), Events(a + b)).events == Events(a + b).events;
  }

  lemma SlicesStay(a: string, b: string, i: nat, n: nat)
    requires i + n <= |a|
    ensures (a + b)[..i] == a[..i] && (a + b)[i + n..] == a[i + n..] + b
  {
  }

  lemma FirstEventStays(a: string, b: string, i: nat, n: nat)
    requires FirstBlank(a, i, n)
    ensures Events(a) == Append(Split([a[..i]], ""), Events(a[i + n..]))
    ensures Events(a + b) == Append(Split([a[..i]], ""), Events(a[i + n..] + b))
  {
    FirstBlankStays(a, b, i, n);
    EventsUnfold(a, i, n);
    EventsUnfold(a + b, i, n);
    SlicesStay(a, b, i, n);
  }

  lemma {:induction false} PrependEvent(first: Split, more: string, b: string, whole: Split)
    requires whole == Append(first, Events(more))
    requires Events(more + b) == Append(Events(more), Events(Events(more).rest + b))
    ensures Append(first, Events(more + b)) == Append(whole, Events(whole.rest + b))
  {
    AppendAssociative(first, Events(more), Events(Events(more).rest + b));
  }

  /** Splitting a longer text is splitting its beginning, then the rest of that with what follows. */
  lemma {:induction false} EventsSplit(a: string, b: string)
    ensures Events(a + b) == Append(Events(a), Events(Events(a).rest + b))
    decreases |a|
  {
    BoundaryIsFirst(a);
    if FindEventBoundary(a).None? {
      NoEventYet(a, b);
    } else {
      var i := FindEventBoundary(a).value;
      var n := BoundaryLength(a, i);
      FirstEventStays(a, b, i, n);
      EventsSplit(a[i + n..], b);
      PrependEvent(Split([a[..i]], ""), a[i + n..], b, Events(a));
    }
  }

  // ----- the data field of one event -----

  /** The lines of an event, a CR before the LF not being part of the line. */
  function Lines(text: string): seq<string>
    decreases |text|
  {
    match IndexOf(text, "\n", 0)
    case None => [text]
    case Some(i) =>
      var end := if i > 0 && text[i - 1] == '\r' then i - 1 else i;
      [text[..end]] + Lines(text[i + 1..])
  }

  function DataValue(line: string): Option<string> {
    if StartsWith(line, ":") then None
    else if StartsWith(line, "data:") then
      var v := line[5..];
      Some(if StartsWith(v, " ") then v[1..] else v)
    else None
  }

  function DataValues(lines: seq<string>): seq<string> {
    if lines == [] then []
    else
      var value := DataValue(lines[|lines| - 1]);
      DataValues(lines[..|lines| - 1]) + if value.Some? then [value.value] else []
  }

  /** `extractDataField`: the data values of the event, joined with LF; None without any. */
  function DataField(event: string): Option<string> {
    var values := DataValues(Lines(event));
    if values == [] then None else Some(Joined(values, "\n"))
  }

  method ExtractDataField(event: string) returns (r: Option<string>)
    ensures r == DataField(event)
  {
    var lines := Lines(event);
    var parts: seq<string> := [];
    for i := 0 to |lines|
      invariant parts == DataValues(lines[..i])
    {
      assert lines[..i + 1][..i] == lines[..i];
      if StartsWith(lines[i], ":") {
        continue;
      }
      if StartsWith(lines[i], "data:") {
        var v := lines[i][5..];
        parts := parts + [if StartsWith(v, " ") then v[1..] else v];
      }
    }
    assert lines[..|lines|] == lines;
    if |parts| == 0 {
      return None;
    }
    return Some(Joined(parts, "\n"));
  }

  // ----- messages: JSON text stays an opaque partial function -----

  function Message<V>(event: string, json: string -> Option<V>): seq<V> {
    match DataField(event)
    case None => []
    case Some(data) => (match json(data) case Some(v) => [v] case None => [])
  }

  function Messages<V>(events: seq<string>, json: string -> Option<V>): seq<V> {
    if events == [] then []
    else Messages(events[..|events| - 1], json) + Message(events[|events| - 1], json)
  }

  lemma MessagesAppend<V>(events: seq<string>, event: string, json: string -> Option<V>)
    ensures Messages(events + [event], json) == Messages(events, json) + Message(event, json)
  {
    assert (events + [event])[..|events|] == events;
  }

  lemma {:induction false} MessagesOfConcat<V>(xs: seq<string>, ys: seq<string>, json: string -> Option<V>)
    ensures Messages(xs + ys, json) == Messages(xs, json) + Messages(ys, json)
  {
    if ys == [] {
      assert xs + ys == xs;
    } else {
      var n := |ys| - 1;
      var front, y := ys[..n], ys[n];
      MessagesOfConcat(xs, front, json);
      RegroupLast(xs, ys);
      MessagesAppend(xs + front, y, json);
      MessagesAppend(front, y, json);
    }
  }

  lemma RegroupLast(xs: seq<string>, ys: seq<string>)
    requires ys != []
    ensures xs + ys == xs + ys[..|ys| - 1] + [ys[|ys| - 1]] && ys == ys[..|ys| - 1] + [ys[|ys| - 1]]
  {
  }

  /** A last event the server did not terminate. */
  function TailMessage<V>(rest: string, json: string -> Option<V>): seq<V> {
    if |Trim(rest)| > 0 then Message(Trim(rest), json) else []
  }

  /** The whole text parsed at once. */
  function Batch<V>(text: string, json: string -> Option<V>): seq<V> {
    Messages(Events(text).events, json) + TailMessage(Events(text).rest, json)
  }

  lemma NothingYet<V>(json: string -> Option<V>)
    ensures Messages(Events("").events, json) == [] && Events("").rest == ""
  {
    BoundaryIsFirst("");
  }

  /** What was yielded and what is buffered after some text, and after one more chunk. */
  lemma {:induction false} OneMoreChunk<V>(text: string, buffer: string, chunk: string, json: string -> Option<V>)
    requires buffer == Events(text).rest
    ensures Messages(Events(text + chunk).events, json) ==
            Messages(Events(text).events, json) + Messages(Events(buffer + chunk).events, json)
    ensures Events(text + chunk).rest == Events(buffer + chunk).rest
  {
    EventsSplit(text, chunk);
    MessagesOfConcat(Events(text).events, Events(buffer + chunk).events, json);
  }

  // ----- the stream -----

  /** The inner loop: complete events taken off the front of the buffer. */
  method TakeEvents<V>(text: string, json: string -> Option<V>) returns (out: seq<V>, buffer: string)
    ensures out == Messages(Events(text).events, json) && buffer == Events(text).rest
  {
    buffer := text;
    out := [];
    ghost var taken: seq<string> := [];
    var sep := FindEventBoundary(buffer);
    while sep.Some?
      invariant sep == FindEventBoundary(buffer)
      invariant Events(text) == Append(Split(taken, ""), Events(buffer))
      invariant out == Messages(taken, json)
      decreases |buffer|
    {
      BoundaryIsFirst(buffer);
      var event := buffer[..sep.value];
      EventsUnfold(buffer, sep.value, BoundaryLength(buffer, sep.value));
      buffer := buffer[sep.value + BoundaryLength(buffer, sep.value)..];
      AppendAssociative(Split(taken, ""), Split([event], ""), Events(buffer));
      assert (taken + [event])[..|taken|] == taken;
      taken := taken + [event];
      var data := ExtractDataField(event);
      if data.Some? {
        var parsed := json(data.value);
        if parsed.Some? {
          out := out + [parsed.value];
        }
      }
      sep := FindEventBoundary(buffer);
    }
    assert taken + [] == taken;
  }

  /** `parseSseStream`: each chunk is appended to the buffer left by the ones before. */
  method ParseStream<V>(chunks: seq<string>, json: string -> Option<V>) returns (out: seq<V>)
    ensures out == Batch(Concat(chunks), json)
  {
    var buffer := "";
    out := [];
    ghost var text := "";
    NothingYet(json);
    for c := 0 to |chunks|
      invariant text == Concat(chunks[..c])
      invariant out == Messages(Events(text).events, json) && buffer == Events(text).rest
    {
      var more, rest := TakeEvents(buffer + chunks[c], json);
      OneMoreChunk(text, buffer, chunks[c], json);
      ConcatLast(chunks, c);
      text := text + chunks[c];
      out := out + more;
      buffer := rest;
    }
    WholePrefix(chunks);
    var tail := Trim(buffer);
    if |tail| > 0 {
      var data := ExtractDataField(tail);
      if data.Some? {
        var parsed := json(data.value);
        if parsed.Some? {
          out := out + [parsed.value];
        }
      }
    }
  }

  // ----- any two chunkings -----

  /** The generator's state after some chunks: what it yielded and what it still buffers. */
  datatype Reader<V> = Reader(yielded: seq<V>, buffer: string)

  function Fed<V>(chunks: seq<string>, json: string -> Option<V>): Reader<V> {
    if chunks == [] then Reader([], "")
    else
      var r := Fed(chunks[..|chunks| - 1], json);
      var split := Events(r.buffer + chunks[|chunks| - 1]);
      Reader(r.yielded + Messages(split.events, json), split.rest)
  }

  function Streamed<V>(chunks: seq<string>, json: string -> Option<V>): seq<V> {
    Fed(chunks, json).yielded + TailMessage(Fed(chunks, json).buffer, json)
  }

  lemma {:induction false} FedIsSplit<V>(chunks: seq<string>, json: string -> Option<V>)
    ensures Fed(chunks, json) == Reader(Messages(Events(Concat(chunks)).events, json), Events(Concat(chunks)).rest)
  {
    if chunks == [] {
      NothingYet(json);
    } else {
      var front, last := chunks[..|chunks| - 1], chunks[|chunks| - 1];
      FedIsSplit(front, json);
      ConcatLast(chunks, |chunks| - 1);
      WholePrefix(chunks);
      OneMoreChunk(Concat(front), Events(Concat(front)).rest, last, json);
    }
  }

  /** The messages depend on the text alone, not on how it was cut into chunks. */
  lemma {:induction false} ChunkingIsIrrelevant<V>(chunks: seq<string>, chunks': seq<string>, json: string -> Option<V>)
    requires Concat(chunks) == Concat(chunks')
    ensures Streamed(chunks, json) == Streamed(chunks', json) == Batch(Concat(chunks), json)
  {
    FedIsSplit(chunks, json);
    FedIsSplit(chunks', json);
  }

  // ----- framing round trip -----

  predicate SingleLine(s: string) {
    forall i :: 0 <= i < |s| ==> s[i] != '\n' && s[i] != '\r'
  }

  function Framed(payload: string): string {
    "data: " + payload + LF_LF
  }

  function FramedAll(payloads: seq<string>): string {
    if payloads == [] then "" else Framed(payloads[0]) + FramedAll(payloads[1..])
  }

  lemma FirstFrame(payload: string, more: string)
    requires SingleLine(payload)
    ensures Events(Framed(payload) + more) == Append(Split(["data: " + payload], ""), Events(more))
  {
    var line := "data: " + payload;
    var text := Framed(payload) + more;
    var n := |line|;
    assert text == line + LF_LF + more;
    forall j | 0 <= j < n
      ensures text[j] != '\n' && text[j] != '\r'
    {
      assert text[j] == line[j];
      if j >= 6 { assert line[j] == payload[j - 6]; }
    }
    assert FirstBlank(text, n, 2);
    EventsUnfold(text, n, 2);
    assert text[..n] == line && text[n + 2..] == more;
  }

  lemma NoLineFeed(payload: string, j: int)
    requires SingleLine(payload)
    ensures !OccursAt("data: " + payload, "\n", j)
  {
    var line := "data: " + payload;
    if 0 <= j && j < |line| {
      assert line[j..j + 1] == [line[j]];
      if j >= 6 { assert line[j] == payload[j - 6]; }
    }
  }

  lemma PayloadOfFrame(payload: string)
    requires SingleLine(payload)
    ensures DataField("data: " + payload) == Some(payload)
  {
    var line := "data: " + payload;
    forall j | 0 <= j { NoLineFeed(payload, j); }
    assert Lines(line) == [line];
    assert line[0..1] == "d" && line[0..5] == "data:";
    var v := line[5..];
    assert v == " " + payload && v[0..1] == " " && v[1..] == payload;
    var lines := [line];
    assert lines[..0] == [];
    assert DataValues(lines) == [payload];
  }

  function DataLines(payloads: seq<string>): (r: seq<string>)
    ensures |r| == |payloads|
    ensures forall i :: 0 <= i < |r| ==> r[i] == "data: " + payloads[i]
  {
    seq(|payloads|, i requires 0 <= i < |payloads| => "data: " + payloads[i])
  }

  lemma {:induction false} FramesSplit(payloads: seq<string>)
    requires forall i :: 0 <= i < |payloads| ==> SingleLine(payloads[i])
    ensures Events(FramedAll(payloads)) == Split(DataLines(payloads), "")
  {
    if payloads != [] {
      FramesSplit(payloads[1..]);
      FirstFrame(payloads[0], FramedAll(payloads[1..]));
      assert DataLines(payloads) == ["data: " + payloads[0]] + DataLines(payloads[1..]);
    } else {
      BoundaryIsFirst("");
    }
  }

  function ParsedAll<V>(payloads: seq<string>, json: string -> Option<V>): seq<V> {
    if payloads == [] then []
    else
      var n := |payloads| - 1;
      ParsedAll(payloads[..n], json) + (match json(payloads[n]) case Some(v) => [v] case None => [])
  }

  lemma {:induction false} MessagesOfFrames<V>(payloads: seq<string>, json: string -> Option<V>)
    requires forall i :: 0 <= i < |payloads| ==> SingleLine(payloads[i])
    ensures Messages(DataLines(payloads), json) == ParsedAll(payloads, json)
  {
    if payloads != [] {
      var n := |payloads| - 1;
      var events := DataLines(payloads);
      MessagesOfFrames(payloads[..n], json);
      assert events[..n] == DataLines(payloads[..n]);
      PayloadOfFrame(payloads[n]);
    }
  }

  /** Single-line payloads sent as `data: p` events come back complete and in order, however chunked. */
  lemma {:induction false} FramesRoundTrip<V>(payloads: seq<string>, chunks: seq<string>, json: string -> Option<V>)
    requires forall i :: 0 <= i < |payloads| ==> SingleLine(payloads[i])
    requires Concat(chunks) == FramedAll(payloads)
    ensures Streamed(chunks, json) == ParsedAll(payloads, json)
  {
    ChunkingIsIrrelevant(chunks, chunks, json);
    FramesSplit(payloads);
    MessagesOfFrames(payloads, json);
  }

  /** What can be parsed comes back as it was parsed, and what cannot be is passed over. */
  lemma {:induction false} ParsedInOrder<V>(payloads: seq<string>, vs: seq<V>, json: string -> Option<V>)
    requires |vs| == |payloads| && forall i :: 0 <= i < |vs| ==> json(payloads[i]) == Some(vs[i])
    ensures ParsedAll(payloads, json) == vs
  {
    if payloads != [] {
      var n := |payloads| - 1;
      ParsedInOrder(payloads[..n], vs[..n], json);
      assert vs == vs[..n] + [vs[n]];
    }
  }

  lemma ParsedOne<V>(payloads: seq<string>, payload: string, json: string -> Option<V>)
    ensures ParsedAll(payloads + [payload], json) ==
            ParsedAll(payloads, json) + if json(payload).Some? then [json(payload).value] else []
  {
    assert (payloads + [payload])[..|payloads|] == payloads;
  }

  // ----- the unterminated last event -----

  ghost predicate Spaces(s: string) {
    forall i :: 0 <= i < |s| ==> s[i] == ' ' || s[i] == '\t' || s[i] == '\r' || s[i] == '\n'
  }

  lemma {:induction false} TrimmedStart(lead: string, s: string)
    requires Spaces(lead) && (s != [] ==> !IsSpace(s[0]))
    ensures TrimStart(lead + s) == s
  {
    if lead == [] {
      assert lead + s == s;
    } else {
      assert (lead + s)[1..] == lead[1..] + s;
      TrimmedStart(lead[1..], s);
    }
  }

  lemma {:induction false} TrimmedEnd(s: string, trail: string)
    requires Spaces(trail) && (s != [] ==> !IsSpace(s[|s| - 1]))
    ensures TrimEnd(s + trail) == s
  {
    if trail == [] {
      assert s + trail == s;
    } else {
      var n := |trail| - 1;
      assert (s + trail)[..|s| + n] == s + trail[..n];
      TrimmedEnd(s, trail[..n]);
    }
  }

  lemma TailIsTrimmed(lead: string, q: string, trail: string)
    requires Spaces(lead) && Spaces(trail) && q != [] && !IsSpace(q[|q| - 1])
    ensures Trim(lead + ("data: " + q + trail)) == "data: " + q
  {
    var line := "data: " + q;
    assert line[|line| - 1] == q[|q| - 1] && (line + trail)[0] == 'd';
    TrimmedStart(lead, line + trail);
    TrimmedEnd(line, trail);
  }

  /** Frames, then text in which no event ends. */
  lemma FramesAndRest(payloads: seq<string>, rest: string)
    requires forall i :: 0 <= i < |payloads| ==> SingleLine(payloads[i])
    requires forall i :: 0 <= i ==> !LfLfAt(rest, i) && !CrLfAt(rest, i)
    ensures Events(FramedAll(payloads) + rest) == Split(DataLines(payloads), rest)
  {
    FramesSplit(payloads);
    EventsSplit(FramedAll(payloads), rest);
    assert "" + rest == rest;
    BoundaryIsFirst(rest);
    var none: seq<string> := [];
    assert DataLines(payloads) + none == DataLines(payloads);
  }

  lemma StreamedIs<V>(payloads: seq<string>, rest: string, chunks: seq<string>, json: string -> Option<V>)
    requires forall i :: 0 <= i < |payloads| ==> SingleLine(payloads[i])
    requires forall i :: 0 <= i ==> !LfLfAt(rest, i) && !CrLfAt(rest, i)
    requires Concat(chunks) == FramedAll(payloads) + rest
    ensures Streamed(chunks, json) == ParsedAll(payloads, json) + TailMessage(rest, json)
  {
    ChunkingIsIrrelevant(chunks, chunks, json);
    FramesAndRest(payloads, rest);
    MessagesOfFrames(payloads, json);
  }

  /** A last event that the stream does not terminate is yielded too, however the stream is cut and whatever white
      space without a blank line stands around it. */
  lemma {:induction false} UnterminatedIsYielded<V>(payloads: seq<string>, lead: string, q: string, trail: string, chunks: seq<string>,
                                                   json: string -> Option<V>)
    requires forall i :: 0 <= i < |payloads| ==> SingleLine(payloads[i])
    requires SingleLine(q) && q != [] && !IsSpace(q[|q| - 1]) && Spaces(lead) && Spaces(trail)
    requires var rest := lead + ("data: " + q + trail); forall i :: 0 <= i ==> !LfLfAt(rest, i) && !CrLfAt(rest, i)
    requires Concat(chunks) == FramedAll(payloads) + (lead + ("data: " + q + trail))
    ensures Streamed(chunks, json) == ParsedAll(payloads, json) + if json(q).Some? then [json(q).value] else []
  {
    StreamedIs(payloads, lead + ("data: " + q + trail), chunks, json);
    TailIsTrimmed(lead, q, trail);
    PayloadOfFrame(q);
  }

  /** White space without a blank line at the end of the stream yields nothing. */
  lemma BlankTailYieldsNothing<V>(payloads: seq<string>, blank: string, chunks: seq<string>, json: string -> Option<V>)
    requires forall i :: 0 <= i < |payloads| ==> SingleLine(payloads[i])
    requires Spaces(blank) && forall i :: 0 <= i ==> !LfLfAt(blank, i) && !CrLfAt(blank, i)
    requires Concat(chunks) == FramedAll(payloads) + blank
    ensures Streamed(chunks, json) == ParsedAll(payloads, json)
  {
    StreamedIs(payloads, blank, chunks, json);
    assert blank + "" == blank;
    TrimmedStart(blank, "");
  }

  lemma VisibleIsNoSpace(c: char)
    requires '!' <= c <= '~'
    ensures !IsSpace(c)
  {
  }

  /** Nothing is lost of a stream of payloads, the last of them with or without what terminates it. */
  lemma {:induction false} LastMayBeUnterminated<V>(payloads: seq<string>, q: string, vs: seq<V>, v: V, end: string, chunks: seq<string>,
                                                    json: string -> Option<V>)
    requires |vs| == |payloads|
    requires forall i :: 0 <= i < |payloads| ==> SingleLine(payloads[i]) && json(payloads[i]) == Some(vs[i])
    requires SingleLine(q) && q != [] && '!' <= q[|q| - 1] <= '~' && json(q) == Some(v)
    requires end == "" || end == "\n" || end == "\r" || end == "\r\n" || end == "\n\n"
    requires Concat(chunks) == FramedAll(payloads) + ("data: " + q + end)
    ensures Streamed(chunks, json) == vs + [v]
  {
    ParsedInOrder(payloads, vs, json);
    if end == "\n\n" {
      FramedLast(payloads, q);
      FramesRoundTrip(payloads + [q], chunks, json);
      ParsedOne(payloads, q, json);
    } else {
      VisibleIsNoSpace(q[|q| - 1]);
      OneLineEnd(q, end);
      assert "" + ("data: " + q + end) == "data: " + q + end;
      UnterminatedIsYielded(payloads, "", q, end, chunks, json);
    }
  }

  lemma {:induction false} FramedLast(payloads: seq<string>, q: string)
    ensures FramedAll(payloads + [q]) == FramedAll(payloads) + ("data: " + q + "\n\n")
  {
    if payloads == [] {
      var none: seq<string> := [];
      assert payloads + [q] == [q] && [q][1..] == none;
    } else {
      FramedLast(payloads[1..], q);
      assert (payloads + [q])[1..] == payloads[1..] + [q];
    }
  }

  lemma OneLineEnd(q: string, end: string)
    requires SingleLine(q) && (end == "" || end == "\n" || end == "\r" || end == "\r\n")
    ensures var rest := "data: " + q + end; forall i :: 0 <= i ==> !LfLfAt(rest, i) && !CrLfAt(rest, i)
  {
    var rest := "data: " + q + end;
    forall i | 0 <= i < |q| + 6
      ensures rest[i] != '\n' && rest[i] != '\r'
    {
      if i >= 6 { assert rest[i] == q[i - 6]; }
    }
  }
}
