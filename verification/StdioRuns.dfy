/** What each event of a stdio connection does to the requests, over all runs (src/mcp/stdio-client.ts). */
module StdioRuns {
  import opened Values
  import opened Text
  import opened Stdio
  import Sse

  /** The child has neither failed nor exited. */
  ghost predicate Alive(events: seq<Event>) {
    forall e :: e in events ==> !e.Error? && !e.Exit?
  }

  /** A request that is sent: stdin is writable, the limiter admits it, and the child is there. */
  ghost predicate Goes(events: seq<Event>, e: Event) {
    e.Rpc? && e.writable && e.admitted && Alive(events)
  }

  /** How many requests of the run go. */
  ghost function Sent(events: seq<Event>): nat {
    if events == [] then 0
    else
      var front, last := events[..|events| - 1], events[|events| - 1];
      Sent(front) + if Goes(front, last) then 1 else 0
  }

  lemma {:induction false} DrainedIssuesNothing(parse: string -> Message, t: Table, text: string)
    ensures Drained(parse, t, text).table.nextId == t.nextId && Drained(parse, t, text).table.exited == t.exited
    decreases |text|
  {
    match IndexOf(text, "\n", 0)
    case None =>
    case Some(nl) => DrainedIssuesNothing(parse, LineDone(parse, t, text[..nl]), text[nl + 1..]);
  }

  lemma AfterUnfolds(parse: string -> Message, events: seq<Event>, e: Event)
    ensures After(parse, START, events + [e]) == Next(parse, After(parse, START, events), e)
  {
    assert (events + [e])[..|events|] == events;
  }

  lemma AliveUnfolds(events: seq<Event>)
    requires events != []
    ensures var front, last := events[..|events| - 1], events[|events| - 1];
            Alive(events) <==> Alive(front) && !last.Error? && !last.Exit?
  {
    var front, last := events[..|events| - 1], events[|events| - 1];
    assert events == front + [last];
    assert forall e :: e in front ==> e in events;
  }

  lemma {:induction false} ExitedIffNotAlive(parse: string -> Message, events: seq<Event>)
    ensures After(parse, START, events).table.exited <==> !Alive(events)
  {
    if events != [] {
      var front, last := events[..|events| - 1], events[|events| - 1];
      ExitedIffNotAlive(parse, front);
      AliveUnfolds(events);
      if last.Chunk? { DrainedIssuesNothing(parse, After(parse, START, front).table, After(parse, START, front).buffer + last.text); }
    }
  }

  /** Ids are taken by exactly the requests that are writable and admitted before the child is gone: in every run the
      next id is one more than their number. */
  lemma {:induction false} IdsCountRequests(parse: string -> Message, events: seq<Event>)
    ensures After(parse, START, events).table.nextId - 1 == Sent(events)
  {
    if events != [] {
      var front, last := events[..|events| - 1], events[|events| - 1];
      IdsCountRequests(parse, front);
      ExitedIffNotAlive(parse, front);
      if last.Chunk? { DrainedIssuesNothing(parse, After(parse, START, front).table, After(parse, START, front).buffer + last.text); }
    }
  }

  /** A request that the limiter refuses, that finds stdin closed or the child gone, changes nothing. */
  lemma RefusedChangesNothing(parse: string -> Message, events: seq<Event>, e: Event)
    requires e.Rpc? && !Goes(events, e)
    ensures After(parse, START, events + [e]) == After(parse, START, events)
  {
    AfterUnfolds(parse, events, e);
    ExitedIffNotAlive(parse, events);
  }

  lemma {:induction false} WithoutLast(ids: seq<int>, id: int)
    requires id !in ids
    ensures Without(ids + [id], id) == ids
  {
    if ids == [] {
      assert ids + [id] == [id];
    } else {
      assert (ids + [id])[1..] == ids[1..] + [id];
      WithoutLast(ids[1..], id);
    }
  }

  lemma NextIdIsNew(parse: string -> Message, events: seq<Event>)
    ensures After(parse, START, events).table.nextId !in After(parse, START, events).table.pending
  {
    var t := After(parse, START, events).table;
    AccountedOnce(parse, events, t.nextId);
    assert t.nextId in t.pending ==> multiset(t.pending)[t.nextId] > 0;
  }

  /** A request that goes takes the next id. It is pending when the write goes through, and else unreachable at once. */
  lemma SentIsPending(parse: string -> Message, events: seq<Event>, e: Event)
    requires Goes(events, e)
    ensures var s, s' := After(parse, START, events), After(parse, START, events + [e]);
            && s'.buffer == s.buffer && s'.table.nextId == s.table.nextId + 1
            && s'.table.pending == (if e.written then s.table.pending + [s.table.nextId] else s.table.pending)
            && s'.table.settled == (if e.written then s.table.settled else s.table.settled + [Settlement(s.table.nextId, Failed(Unreachable))])
            && s'.table.lost == s.table.lost && s'.table.handled == s.table.handled
  {
    AfterUnfolds(parse, events, e);
    ExitedIffNotAlive(parse, events);
    NextIdIsNew(parse, events);
    WithoutLast(After(parse, START, events).table.pending, After(parse, START, events).table.nextId);
  }

  // ----- what takes a request off the table -----

  lemma {:induction false} WithoutKeepsOthers(ids: seq<int>, id: int, x: int)
    requires x != id
    ensures x in Without(ids, id) <==> x in ids
  {
    if ids != [] && ids[0] != id { WithoutKeepsOthers(ids[1..], id, x); }
  }

  lemma WithoutTakesIt(parse: string -> Message, events: seq<Event>, id: int)
    requires id in After(parse, START, events).table.pending
    ensures id !in Without(After(parse, START, events).table.pending, id)
  {
    var t := After(parse, START, events).table;
    AccountedOnce(parse, events, id);
    WithoutOne(t.pending, id);
    assert multiset(Without(t.pending, id))[id] == 0;
  }

  /** Exactly this request has left the table, settled so. */
  ghost predicate SettledOne(t: Table, t': Table, id: int, outcome: Outcome) {
    && (forall x :: x in t'.pending <==> x in t.pending && x != id)
    && t'.settled == t.settled + [Settlement(id, outcome)]
    && t'.lost == t.lost && t'.nextId == t.nextId && t'.exited == t.exited
  }

  lemma SettledIsOne(parse: string -> Message, events: seq<Event>, id: int, outcome: Outcome)
    requires id in After(parse, START, events).table.pending
    ensures SettledOne(After(parse, START, events).table, Settled(After(parse, START, events).table, id, outcome), id, outcome)
  {
    WithoutTakesIt(parse, events, id);
    forall x | x != id { WithoutKeepsOthers(After(parse, START, events).table.pending, id, x); }
  }

  /** Its timer settles a pending request as timed out, and does nothing to one that is not pending. */
  lemma TimerSettles(parse: string -> Message, events: seq<Event>, id: int)
    ensures var s, s' := After(parse, START, events), After(parse, START, events + [TimerFires(id)]);
            && s'.buffer == s.buffer
            && (id in s.table.pending ==> SettledOne(s.table, s'.table, id, Failed(TimedOut)))
            && (id !in s.table.pending ==> s' == s)
  {
    AfterUnfolds(parse, events, TimerFires(id));
    if id in After(parse, START, events).table.pending { SettledIsOne(parse, events, id, Failed(TimedOut)); }
  }

  /** Every pending request is settled so, in order of issue, and none is pending. */
  ghost predicate AllFailed(t: Table, t': Table, kind: ErrorKind) {
    && t'.pending == [] && |t'.settled| == |t.settled| + |t.pending|
    && (forall i :: 0 <= i < |t.settled| ==> t'.settled[i] == t.settled[i])
    && (forall i :: 0 <= i < |t.pending| ==> t'.settled[|t.settled| + i] == Settlement(t.pending[i], Failed(kind)))
    && t'.lost == t.lost && t'.nextId == t.nextId
  }

  /** A crash fails every pending request; an orderly exit leaves them to their timers. */
  lemma EndOfChild(parse: string -> Message, events: seq<Event>, crash: Event)
    requires crash == Error || crash == Exit(false)
    ensures var s, s' := After(parse, START, events), After(parse, START, events + [crash]);
            AllFailed(s.table, s'.table, Unreachable) && s'.buffer == s.buffer
    ensures var s, s' := After(parse, START, events), After(parse, START, events + [Exit(true)]);
            s'.table == s.table.(exited := true) && s'.buffer == s.buffer
  {
    AfterUnfolds(parse, events, crash);
    AfterUnfolds(parse, events, Exit(true));
  }

  // ----- one line of output -----

  lemma {:induction false} VisibleStays(line: string)
    requires line != [] && !IsSpace(line[0])
    ensures Trim(line) != ""
  {
    assert TrimStart(line) == line;
    EndStays(line);
  }

  lemma {:induction false} EndStays(line: string)
    requires line != [] && !IsSpace(line[0])
    ensures TrimEnd(line) != ""
  {
    if IsSpace(line[|line| - 1]) { EndStays(line[..|line| - 1]); }
  }

  /** A chunk that completes one line. */
  lemma OneLine(parse: string -> Message, s: State, line: string)
    requires s.buffer == "" && '\n' !in line && |line| < 2097152
    ensures Next(parse, s, Chunk(line + "\n")) == State(LineDone(parse, s.table, line), "")
  {
    var text := line + "\n";
    LineOfItself(line);
    assert "" + text == text && text[..|line|] == line && text[|line| + 1..] == "";
    assert Drained(parse, LineDone(parse, s.table, line), "") == State(LineDone(parse, s.table, line), "");
  }

  /** A reply of at most 1 MiB answers the pending request with its id, and nothing else; one to any other id, a
      notification and a line that is no JSON object change no request. */
  lemma ReplyAnswers(parse: string -> Message, events: seq<Event>, line: string)
    requires After(parse, START, events).buffer == ""
    requires line != [] && '!' <= line[0] <= '~' && '\n' !in line && |line| <= 1048576
    ensures var s, s' := After(parse, START, events), After(parse, START, events + [Chunk(line + "\n")]);
            var m := parse(line);
            && s'.buffer == ""
            && (m.Reply? && m.id in s.table.pending && m.body.Result? ==> SettledOne(s.table, s'.table, m.id, Answered(line, false)))
            && (m.Reply? && m.id in s.table.pending && m.body.Failure? ==> SettledOne(s.table, s'.table, m.id, Answered(line, true)))
            && (!m.Reply? || m.id !in s.table.pending ==> s'.table == s.table.(handled := s.table.handled + [line]))
  {
    var s := After(parse, START, events);
    AfterUnfolds(parse, events, Chunk(line + "\n"));
    OneLine(parse, s, line);
    VisibleStays(line);
    if parse(line).Reply? && parse(line).id in s.table.pending {
      SettledIsOne(parse, events, parse(line).id, Answered(line, parse(line).body.Failure?));
    }
  }

  /** A longer line, within the limit of the buffer, is not read: it fails every pending request. */
  lemma LongLineFailsAll(parse: string -> Message, events: seq<Event>, line: string)
    requires After(parse, START, events).buffer == ""
    requires line != [] && '!' <= line[0] <= '~' && '\n' !in line && 1048576 < |line| < 2097152
    ensures var s, s' := After(parse, START, events), After(parse, START, events + [Chunk(line + "\n")]);
            AllFailed(s.table, s'.table, SizeLimit) && s'.table.handled == s.table.handled && s'.buffer == ""
  {
    AfterUnfolds(parse, events, Chunk(line + "\n"));
    OneLine(parse, After(parse, START, events), line);
    VisibleStays(line);
  }

  /** Output without a line end waits in the buffer; beyond 2 MiB it is dropped and fails every pending request. */
  lemma UnfinishedLineWaits(parse: string -> Message, events: seq<Event>, text: string)
    requires After(parse, START, events).buffer == "" && '\n' !in text
    ensures var s, s' := After(parse, START, events), After(parse, START, events + [Chunk(text)]);
            && (|text| <= 2097152 ==> s' == s.(buffer := text))
            && (|text| > 2097152 ==> AllFailed(s.table, s'.table, SizeLimit) && s'.buffer == "" && s'.table.handled == s.table.handled)
  {
    AfterUnfolds(parse, events, Chunk(text));
    assert "" + text == text;
    forall j: nat | j < |text|
      ensures !OccursAt(text, "\n", j)
    {
      NewlineAt(text, j);
    }
    assert IndexOf(text, "\n", 0).None?;
  }

  /** A line of white space is passed over. */
  lemma BlankLineIsIgnored(parse: string -> Message, events: seq<Event>, line: string)
    requires After(parse, START, events).buffer == ""
    requires Sse.Spaces(line) && '\n' !in line && |line| < 2097152
    ensures After(parse, START, events + [Chunk(line + "\n")]) == After(parse, START, events)
  {
    AfterUnfolds(parse, events, Chunk(line + "\n"));
    OneLine(parse, After(parse, START, events), line);
    assert line + "" == line;
    Sse.TrimmedStart(line, "");
  }
}
