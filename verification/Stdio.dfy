/** The stdio JSON-RPC connection: newline framing of the child's stdout and the table of pending
    requests (src/mcp/stdio-client.ts). What `JSON.parse` makes of a line is a parameter. */
module Stdio {
  import opened Values
  import opened Text

  const MAX_LINE := 1048576

  // ----- the table of pending requests -----

  /** What a reply says: a result, an error, or an `error` that cannot be read, such as null, on which the code
      that settles the request throws. */
  datatype Body = Result | Failure | Unreadable

  /** A parsed line, as far as the connection looks at it. */
  datatype Message = NotJson | NoObject | Notification | Reply(id: int, body: Body)

  datatype ErrorKind = SizeLimit | TimedOut | Unreachable

  datatype Outcome = Answered(line: string, isError: bool) | Failed(kind: ErrorKind)

  datatype Settlement = Settlement(id: int, outcome: Outcome)

  /** `pending` in order of insertion; `settled`, `lost` and `handled` record what happened. A lost id has left
      the table and its promise is never settled. */
  datatype Table = Table(nextId: int, pending: seq<int>, settled: seq<Settlement>, lost: seq<int>, exited: bool, handled: seq<string>)

  const EMPTY := Table(1, [], [], [], false, [])

  function Without(ids: seq<int>, id: int): seq<int> {
    if ids == [] then []
    else if ids[0] == id then ids[1..]
    else [ids[0]] + Without(ids[1..], id)
  }

  function Settled(t: Table, id: int, outcome: Outcome): Table {
    t.(pending := Without(t.pending, id), settled := t.settled + [Settlement(id, outcome)])
  }

  function Failures(ids: seq<int>, kind: ErrorKind): seq<Settlement> {
    seq(|ids|, i requires 0 <= i < |ids| => Settlement(ids[i], Failed(kind)))
  }

  function AllRejected(t: Table, kind: ErrorKind): Table {
    t.(pending := [], settled := t.settled + Failures(t.pending, kind))
  }

  function Incoming(parse: string -> Message, t: Table, line: string): Table {
    var m := parse(line);
    var seen := t.(handled := t.handled + [line]);
    if !m.Reply? || m.id !in t.pending then seen
    else if m.body.Unreadable? then seen.(pending := Without(t.pending, m.id), lost := t.lost + [m.id])
    else Settled(seen, m.id, Answered(line, m.body.Failure?))
  }

  predicate Blank(line: string) {
    Trim(line) == ""
  }

  /** Handling the line throws: it is an unreadable error reply to a request then pending. */
  predicate Throws(parse: string -> Message, t: Table, line: string) {
    && !Blank(line) && |line| <= MAX_LINE
    && parse(line).Reply? && parse(line).body.Unreadable? && parse(line).id in t.pending
  }

  function LineDone(parse: string -> Message, t: Table, line: string): Table {
    if Blank(line) then t
    else if |line| > MAX_LINE then AllRejected(t, SizeLimit)
    else Incoming(parse, t, line)
  }

  function LinesDone(parse: string -> Message, t: Table, lines: seq<string>): Table
    decreases |lines|
  {
    if lines == [] then t else LinesDone(parse, LineDone(parse, t, lines[0]), lines[1..])
  }

  // ----- framing -----

  datatype Frames = Frames(lines: seq<string>, rest: string)

  function Framed(text: string): Frames
    decreases |text|
  {
    match IndexOf(text, "\n", 0)
    case None => Frames([], text)
    case Some(nl) =>
      var more := Framed(text[nl + 1..]);
      Frames([text[..nl]] + more.lines, more.rest)
  }

  datatype State = State(table: Table, buffer: string)

  /** The loop over complete lines. A throw leaves it, and what follows the line stays in the buffer. */
  function Drained(parse: string -> Message, t: Table, text: string): State
    decreases |text|
  {
    match IndexOf(text, "\n", 0)
    case None => State(t, text)
    case Some(nl) =>
      var done, more := LineDone(parse, t, text[..nl]), text[nl + 1..];
      if Throws(parse, t, text[..nl]) then State(done, more) else Drained(parse, done, more)
  }

  /** One chunk of stdout. The limit is checked on the whole buffer before it is split. */
  function Received(parse: string -> Message, s: State, chunk: string): State {
    var text := s.buffer + chunk;
    if |text| > 2 * MAX_LINE then State(AllRejected(s.table, SizeLimit), "") else Drained(parse, s.table, text)
  }

  // ----- events -----

  /** Rpc: is stdin writable, does the rate limiter admit, does the write go through;
      Exit: was the code 0 or the signal one of close()'s. */
  datatype Event =
    | Rpc(writable: bool, admitted: bool, written: bool)
    | Chunk(text: string)
    | TimerFires(id: int)
    | Error
    | Exit(orderly: bool)

  function Requested(t: Table, writable: bool, admitted: bool, written: bool): Table {
    if t.exited || !writable || !admitted then t
    else
      var sent := t.(nextId := t.nextId + 1, pending := t.pending + [t.nextId]);
      if written then sent else Settled(sent, t.nextId, Failed(Unreachable))
  }

  function Expired(t: Table, id: int): Table {
    if id in t.pending then Settled(t, id, Failed(TimedOut)) else t
  }

  function Died(t: Table, orderly: bool): Table {
    var gone := t.(exited := true);
    if orderly then gone else AllRejected(gone, Unreachable)
  }

  function Next(parse: string -> Message, s: State, e: Event): State {
    match e
    case Rpc(writable, admitted, written) => s.(table := Requested(s.table, writable, admitted, written))
    case Chunk(text) => Received(parse, s, text)
    case TimerFires(id) => s.(table := Expired(s.table, id))
    case Error => s.(table := Died(s.table, false))
    case Exit(orderly) => s.(table := Died(s.table, orderly))
  }

  function After(parse: string -> Message, s: State, events: seq<Event>): State {
    if events == [] then s
    else Next(parse, After(parse, s, events[..|events| - 1]), events[|events| - 1])
  }

  const START := State(EMPTY, "")

  class StdioClient {
    const parse: string -> Message
    var nextRequestId: int
    var pending: seq<int>
    var childExited: bool
    var stdoutBuffer: string
    ghost var settled: seq<Settlement>
    ghost var lost: seq<int>
    ghost var handled: seq<string>

    ghost function Abs(): State
      reads this
    {
      State(Tab(), stdoutBuffer)
    }

    ghost function Tab(): Table
      reads this
    {
      Table(nextRequestId, pending, settled, lost, childExited, handled)
    }

    constructor (parse: string -> Message)
      ensures Abs() == START && this.parse == parse
    {
      this.parse := parse;
      nextRequestId, pending, childExited, stdoutBuffer := 1, [], false, "";
      settled, lost, handled := [], [], [];
    }

    method RejectAll(kind: ErrorKind)
      modifies this`pending, this`settled
      ensures Tab() == AllRejected(old(Tab()), kind)
    {
      ghost var all := pending;
      for i := 0 to |pending|
        invariant pending == all
        invariant settled == old(settled) + Failures(all[..i], kind)
      {
        settled := settled + [Settlement(pending[i], Failed(kind))];
        assert Failures(all[..i + 1], kind) == Failures(all[..i], kind) + [Settlement(all[i], Failed(kind))];
      }
      assert all[..|all|] == all;
      pending := [];
    }

    method OnStdout(chunk: string)
      modifies this
      ensures Abs() == Received(parse, old(Abs()), chunk)
    {
      stdoutBuffer := stdoutBuffer + chunk;
      if |stdoutBuffer| > MAX_LINE * 2 {
        stdoutBuffer := "";
        RejectAll(SizeLimit);
        return;
      }
      ghost var result := Drained(parse, Tab(), stdoutBuffer);
      var nl := IndexOf(stdoutBuffer, "\n", 0);
      while nl.Some?
        invariant nl == IndexOf(stdoutBuffer, "\n", 0)
        invariant Drained(parse, Tab(), stdoutBuffer) == result
        decreases |stdoutBuffer|
      {
        var line := stdoutBuffer[..nl.value];
        stdoutBuffer := stdoutBuffer[nl.value + 1..];
        nl := IndexOf(stdoutBuffer, "\n", 0);
        var threw := OnLine(line);
        if threw {
          return;
        }
      }
    }

    method OnLine(line: string) returns (threw: bool)
      modifies this`pending, this`settled, this`lost, this`handled
      ensures threw == Throws(parse, old(Tab()), line) && Tab() == LineDone(parse, old(Tab()), line)
    {
      if |Trim(line)| == 0 {
        return false;
      }
      if |line| > MAX_LINE {
        RejectAll(SizeLimit);
        return false;
      }
      threw := HandleIncomingLine(line);
    }

    /** The entry goes first; then the request is settled, unless reading the error throws. */
    method HandleIncomingLine(line: string) returns (threw: bool)
      modifies this`pending, this`settled, this`lost, this`handled
      ensures Tab() == Incoming(parse, old(Tab()), line)
      ensures threw <==> parse(line).Reply? && parse(line).body.Unreadable? && parse(line).id in old(pending)
    {
      handled := handled + [line];
      var m := parse(line);
      match m {
        case Reply(id, body) =>
          if id !in pending {
            return false;
          }
          pending := Without(pending, id);
          if body.Unreadable? {
            lost := lost + [id];
            return true;
          }
          settled := settled + [Settlement(id, Answered(line, body.Failure?))];
          return false;
        case _ => return false;
      }
    }

    /** The id of the request sent, or none when it was refused before one was taken. */
    method Rpc(writable: bool, admitted: bool, written: bool) returns (issued: Option<int>)
      modifies this
      ensures Abs() == Next(parse, old(Abs()), Event.Rpc(writable, admitted, written))
      ensures issued == if nextRequestId > old(nextRequestId) then Some(old(nextRequestId)) else None
    {
      if childExited || !writable {
        return None;
      }
      if !admitted {
        return None;
      }
      var id := nextRequestId;
      nextRequestId := nextRequestId + 1;
      pending := pending + [id];
      if !written {
        pending := Without(pending, id);
        settled := settled + [Settlement(id, Failed(Unreachable))];
      }
      return Some(id);
    }

    method OnTimer(id: int)
      modifies this
      ensures Abs() == Next(parse, old(Abs()), TimerFires(id))
    {
      if id in pending {
        pending := Without(pending, id);
        settled := settled + [Settlement(id, Failed(TimedOut))];
      }
    }

    method OnError()
      modifies this
      ensures Abs() == Next(parse, old(Abs()), Error)
    {
      childExited := true;
      RejectAll(Unreachable);
    }

    method OnExit(code: Option<int>, signal: Option<string>)
      modifies this
      ensures Abs() == Next(parse, old(Abs()), Exit(code == Some(0) || signal == Some("SIGTERM") || signal == Some("SIGKILL")))
    {
      childExited := true;
      if code != Some(0) && signal != Some("SIGTERM") && signal != Some("SIGKILL") {
        RejectAll(Unreachable);
      }
    }
  }

  // ----- every issued id is pending, settled or lost, once -----

  function Ids(settled: seq<Settlement>): seq<int> {
    seq(|settled|, i requires 0 <= i < |settled| => settled[i].id)
  }

  /** How often the id is pending or settled. */
  function Times(t: Table, id: int): nat {
    multiset(t.pending)[id] + multiset(Ids(t.settled))[id]
  }

  /** How often it is accounted for at all. */
  function TimesOrLost(t: Table, id: int): nat {
    Times(t, id) + multiset(t.lost)[id]
  }

  lemma {:induction false} WithoutOne(ids: seq<int>, id: int)
    requires id in ids
    ensures multiset(ids) == multiset(Without(ids, id)) + multiset{id}
  {
    assert ids == [ids[0]] + ids[1..];
    if ids[0] != id { WithoutOne(ids[1..], id); }
  }

  lemma SettledTimes(t: Table, id: int, outcome: Outcome, x: int)
    requires id in t.pending
    ensures TimesOrLost(Settled(t, id, outcome), x) == TimesOrLost(t, x)
  {
    WithoutOne(t.pending, id);
    assert Ids(t.settled + [Settlement(id, outcome)]) == Ids(t.settled) + [id];
  }

  lemma RejectedTimes(t: Table, kind: ErrorKind, x: int)
    ensures TimesOrLost(AllRejected(t, kind), x) == TimesOrLost(t, x)
  {
    assert Ids(t.settled + Failures(t.pending, kind)) == Ids(t.settled) + t.pending;
  }

  lemma LineTimes(parse: string -> Message, t: Table, line: string, x: int)
    ensures TimesOrLost(LineDone(parse, t, line), x) == TimesOrLost(t, x)
    ensures LineDone(parse, t, line).nextId == t.nextId
  {
    var m := parse(line);
    RejectedTimes(t, SizeLimit, x);
    if m.Reply? && m.id in t.pending {
      WithoutOne(t.pending, m.id);
      SettledTimes(t.(handled := t.handled + [line]), m.id, Answered(line, m.body.Failure?), x);
    }
  }

  lemma {:induction false} DrainTimes(parse: string -> Message, t: Table, text: string, x: int)
    ensures TimesOrLost(Drained(parse, t, text).table, x) == TimesOrLost(t, x)
    ensures Drained(parse, t, text).table.nextId == t.nextId
    decreases |text|
  {
    match IndexOf(text, "\n", 0)
    case None =>
    case Some(nl) =>
      LineTimes(parse, t, text[..nl], x);
      DrainTimes(parse, LineDone(parse, t, text[..nl]), text[nl + 1..], x);
  }

  lemma RequestTimes(t: Table, writable: bool, admitted: bool, written: bool, x: int)
    ensures var t' := Requested(t, writable, admitted, written);
            TimesOrLost(t', x) == TimesOrLost(t, x) + if t.nextId <= x < t'.nextId then 1 else 0
  {
    var sent := t.(nextId := t.nextId + 1, pending := t.pending + [t.nextId]);
    SettledTimes(sent, t.nextId, Failed(Unreachable), x);
  }

  lemma NextTimes(parse: string -> Message, s: State, e: Event, x: int)
    ensures var t, t' := s.table, Next(parse, s, e).table;
            TimesOrLost(t', x) == TimesOrLost(t, x) + (if t.nextId <= x < t'.nextId then 1 else 0) && t.nextId <= t'.nextId
  {
    match e
    case Rpc(writable, admitted, written) => RequestTimes(s.table, writable, admitted, written, x);
    case Chunk(text) =>
      RejectedTimes(s.table, SizeLimit, x);
      DrainTimes(parse, s.table, s.buffer + text, x);
    case TimerFires(id) => if id in s.table.pending { SettledTimes(s.table, id, Failed(TimedOut), x); }
    case _ => RejectedTimes(s.table.(exited := true), Unreachable, x);
  }

  /** In every run an id is pending, settled or lost, and that once, exactly when it has been issued. */
  lemma {:induction false} AccountedOnce(parse: string -> Message, events: seq<Event>, id: int)
    ensures TimesOrLost(After(parse, START, events).table, id) == if 1 <= id < After(parse, START, events).table.nextId then 1 else 0
    ensures After(parse, START, events).table.nextId >= 1
  {
    if events != [] {
      var front := events[..|events| - 1];
      AccountedOnce(parse, front, id);
      NextTimes(parse, After(parse, START, front), events[|events| - 1], id);
    }
  }

  // ----- exactly when none is lost -----

  /** The lines taken in turn: none throws. */
  predicate Smooth(parse: string -> Message, t: Table, lines: seq<string>)
    decreases |lines|
  {
    lines == [] || (!Throws(parse, t, lines[0]) && Smooth(parse, LineDone(parse, t, lines[0]), lines[1..]))
  }

  /** The event is a chunk in whose lines there is an unreadable error reply to a request then pending. */
  predicate Disturbed(parse: string -> Message, s: State, e: Event) {
    e.Chunk? && |s.buffer + e.text| <= 2 * MAX_LINE && !Smooth(parse, s.table, Framed(s.buffer + e.text).lines)
  }

  /** No event of the run does that. */
  predicate Calm(parse: string -> Message, events: seq<Event>) {
    events == [] ||
    (Calm(parse, events[..|events| - 1]) && !Disturbed(parse, After(parse, START, events[..|events| - 1]), events[|events| - 1]))
  }

  lemma {:induction false} DrainLoses(parse: string -> Message, t: Table, text: string)
    ensures Drained(parse, t, text).table.lost == t.lost <==> Smooth(parse, t, Framed(text).lines)
    ensures t.lost <= Drained(parse, t, text).table.lost
    decreases |text|
  {
    match IndexOf(text, "\n", 0)
    case None =>
    case Some(nl) =>
      FirstLine(text, nl);
      if Throws(parse, t, text[..nl]) {
        assert LineDone(parse, t, text[..nl]).lost == t.lost + [parse(text[..nl]).id];
      } else {
        DrainLoses(parse, LineDone(parse, t, text[..nl]), text[nl + 1..]);
      }
  }

  lemma FirstLine(text: string, nl: nat)
    requires IndexOf(text, "\n", 0) == Some(nl)
    ensures Framed(text).rest == Framed(text[nl + 1..]).rest
    ensures Framed(text).lines == [text[..nl]] + Framed(text[nl + 1..]).lines
    ensures Framed(text).lines != [] && Framed(text).lines[0] == text[..nl] && Framed(text).lines[1..] == Framed(text[nl + 1..]).lines
  {
  }

  lemma NextLoses(parse: string -> Message, s: State, e: Event)
    ensures Next(parse, s, e).table.lost == s.table.lost <==> !Disturbed(parse, s, e)
    ensures s.table.lost <= Next(parse, s, e).table.lost
  {
    if e.Chunk? { DrainLoses(parse, s.table, s.buffer + e.text); }
  }

  lemma {:induction false} NothingLostIffCalm(parse: string -> Message, events: seq<Event>)
    ensures After(parse, START, events).table.lost == [] <==> Calm(parse, events)
  {
    if events != [] {
      var front := events[..|events| - 1];
      NothingLostIffCalm(parse, front);
      NextLoses(parse, After(parse, START, front), events[|events| - 1]);
    }
  }

  /** Pending or settled once when issued, and never otherwise. */
  predicate OnceIfIssued(t: Table, id: int) {
    Times(t, id) == if 1 <= id < t.nextId then 1 else 0
  }

  /** Exactly: that holds of every id iff no line handled in the run was an unreadable error reply to a request
      then pending. */
  lemma SettlesOnceIff(parse: string -> Message, events: seq<Event>)
    ensures (forall id :: OnceIfIssued(After(parse, START, events).table, id)) <==> Calm(parse, events)
  {
    var t := After(parse, START, events).table;
    NothingLostIffCalm(parse, events);
    if t.lost == [] {
      forall id
        ensures OnceIfIssued(t, id)
      {
        AccountedOnce(parse, events, id);
        assert multiset(t.lost)[id] == 0;
      }
    } else {
      var id := t.lost[0];
      AccountedOnce(parse, events, id);
      assert multiset(t.lost)[id] > 0;
      assert !OnceIfIssued(t, id);
    }
  }

  /** A lost request stays so: whatever follows, it is never settled nor pending again. */
  lemma LostForever(parse: string -> Message, events: seq<Event>, more: seq<Event>, id: int)
    requires id in After(parse, START, events).table.lost
    ensures Times(After(parse, START, events + more).table, id) == 0
  {
    LostGrows(parse, events, more);
    AccountedOnce(parse, events + more, id);
    var t := After(parse, START, events + more).table;
    assert id in t.lost && multiset(t.lost)[id] > 0;
  }

  lemma {:induction false} LostGrows(parse: string -> Message, events: seq<Event>, more: seq<Event>)
    ensures After(parse, START, events).table.lost <= After(parse, START, events + more).table.lost
    decreases |more|
  {
    if more == [] {
      assert events + more == events;
    } else {
      var front := more[..|more| - 1];
      LostGrows(parse, events, front);
      assert (events + more)[..|events + more| - 1] == events + front;
      NextLoses(parse, After(parse, START, events + front), more[|more| - 1]);
    }
  }

  /** The failing run: one request, and a reply to it whose `error` is null. */
  lemma NullErrorLosesRequest(parse: string -> Message, line: string)
    requires parse(line) == Reply(1, Unreadable) && !Blank(line) && |line| < MAX_LINE && '\n' !in line
    ensures var t := After(parse, START, [Rpc(true, true, true), Chunk(line + "\n")]).table;
            t.nextId == 2 && t.lost == [1] && t.pending == [] && t.settled == []
  {
    var one, two := [Rpc(true, true, true)], [Rpc(true, true, true), Chunk(line + "\n")];
    assert one[..0] == [] && two[..1] == one;
    var s := After(parse, START, one);
    assert s == State(Table(2, [1], [], [], false, []), "");
    var text := line + "\n";
    LineOfItself(line);
    assert "" + text == text && text[..|line|] == line;
    assert Drained(parse, s.table, text) == State(LineDone(parse, s.table, line), text[|line| + 1..]);
  }

  lemma LineOfItself(line: string)
    requires '\n' !in line
    ensures IndexOf(line + "\n", "\n", 0) == Some(|line|)
  {
    var text := line + "\n";
    forall j | 0 <= j < |line|
      ensures !OccursAt(text, "\n", j)
    {
      NewlineAt(text, j);
      assert text[j] == line[j];
    }
    NewlineAt(text, |line|);
    FirstOccurrence(text, "\n", |line|);
  }

  // ----- outcomes are final and answers come from the right line -----

  ghost predicate Extends(t: Table, t': Table) {
    && |t.settled| <= |t'.settled| && t'.settled[..|t.settled|] == t.settled
    && (t.exited ==> t'.exited && t'.nextId == t.nextId && |t'.pending| <= |t.pending| && forall id :: id in t'.pending ==> id in t.pending)
  }

  lemma {:induction false} WithoutSubset(ids: seq<int>, id: int)
    ensures |Without(ids, id)| <= |ids| && forall x :: x in Without(ids, id) ==> x in ids
  {
    if ids != [] && ids[0] != id { WithoutSubset(ids[1..], id); }
  }

  lemma ExtendsTransitive(t: Table, u: Table, v: Table)
    requires Extends(t, u) && Extends(u, v)
    ensures Extends(t, v)
  {
    assert v.settled[..|t.settled|] == v.settled[..|u.settled|][..|t.settled|];
  }

  lemma LineExtends(parse: string -> Message, t: Table, line: string)
    ensures Extends(t, LineDone(parse, t, line))
  {
    var m := parse(line);
    if m.Reply? { WithoutSubset(t.pending, m.id); }
  }

  lemma {:induction false} DrainExtends(parse: string -> Message, t: Table, text: string)
    ensures Extends(t, Drained(parse, t, text).table)
    decreases |text|
  {
    match IndexOf(text, "\n", 0)
    case None =>
    case Some(nl) =>
      var u := LineDone(parse, t, text[..nl]);
      LineExtends(parse, t, text[..nl]);
      DrainExtends(parse, u, text[nl + 1..]);
      ExtendsTransitive(t, u, Drained(parse, u, text[nl + 1..]).table);
  }

  lemma NextExtends(parse: string -> Message, s: State, e: Event)
    ensures Extends(s.table, Next(parse, s, e).table)
  {
    match e
    case Chunk(text) => DrainExtends(parse, s.table, s.buffer + text);
    case TimerFires(id) => WithoutSubset(s.table.pending, id);
    case _ =>
  }

  /** Whatever follows: outcomes stay what they were, and after the child is gone no id is issued. */
  lemma {:induction false} OutcomesAreFinal(parse: string -> Message, s: State, events: seq<Event>)
    ensures Extends(s.table, After(parse, s, events).table)
  {
    if events != [] {
      var front := events[..|events| - 1];
      OutcomesAreFinal(parse, s, front);
      NextExtends(parse, After(parse, s, front), events[|events| - 1]);
      ExtendsTransitive(s.table, After(parse, s, front).table, After(parse, s, events).table);
    }
  }

  /** After a crash nothing is or becomes pending. */
  lemma CrashSettlesAll(parse: string -> Message, s: State, crash: Event, events: seq<Event>)
    requires crash == Error || crash == Exit(false)
    ensures After(parse, Next(parse, s, crash), events).table.pending == []
    ensures After(parse, Next(parse, s, crash), events).table.nextId == s.table.nextId
  {
    OutcomesAreFinal(parse, Next(parse, s, crash), events);
  }

  ghost predicate AnswersMatch(parse: string -> Message, t: Table) {
    forall i :: 0 <= i < |t.settled| && t.settled[i].outcome.Answered? ==> AnswerMatches(parse, t.settled[i], t.handled)
  }

  ghost predicate AnswerMatches(parse: string -> Message, s: Settlement, handled: seq<string>)
    requires s.outcome.Answered?
  {
    s.outcome.line in handled && parse(s.outcome.line) == Reply(s.id, if s.outcome.isError then Failure else Result)
  }

  lemma {:induction false} DrainMatches(parse: string -> Message, t: Table, text: string)
    requires AnswersMatch(parse, t)
    ensures AnswersMatch(parse, Drained(parse, t, text).table)
    decreases |text|
  {
    match IndexOf(text, "\n", 0)
    case None =>
    case Some(nl) =>
      LineMatches(parse, t, text[..nl]);
      DrainMatches(parse, LineDone(parse, t, text[..nl]), text[nl + 1..]);
  }

  lemma LineMatches(parse: string -> Message, t: Table, line: string)
    requires AnswersMatch(parse, t)
    ensures AnswersMatch(parse, LineDone(parse, t, line))
  {
    var u := LineDone(parse, t, line);
    forall i | 0 <= i < |u.settled| && u.settled[i].outcome.Answered?
      ensures AnswerMatches(parse, u.settled[i], u.handled)
    {
      if i < |t.settled| { assert AnswerMatches(parse, t.settled[i], t.handled); }
    }
  }

  /** A request is answered only by a line that carries its id. */
  lemma {:induction false} AnsweredByOwnLine(parse: string -> Message, events: seq<Event>)
    ensures AnswersMatch(parse, After(parse, START, events).table)
  {
    if events != [] {
      var front := events[..|events| - 1];
      AnsweredByOwnLine(parse, front);
      var s := After(parse, START, front);
      if events[|events| - 1].Chunk? {
        DrainMatches(parse, s.table, s.buffer + events[|events| - 1].text);
      }
    }
  }

  // ----- framing does not depend on the chunks -----

  lemma NewlineStays(a: string, b: string)
    requires IndexOf(a, "\n", 0).Some?
    ensures IndexOf(a + b, "\n", 0) == IndexOf(a, "\n", 0)
  {
    var i := IndexOf(a, "\n", 0).value;
    forall j | 0 <= j <= i
      ensures OccursAt(a + b, "\n", j) == OccursAt(a, "\n", j)
    {
      OccursInPrefix(a, b, "\n", j);
    }
  }

  function Then(a: Frames, b: Frames): Frames {
    Frames(a.lines + b.lines, b.rest)
  }

  lemma FramedUnfold(text: string, nl: nat)
    requires IndexOf(text, "\n", 0) == Some(nl)
    ensures Framed(text) == Then(Frames([text[..nl]], ""), Framed(text[nl + 1..]))
  {
  }

  lemma ThenAssociative(a: Frames, b: Frames, c: Frames)
    ensures Then(Then(a, b), c) == Then(a, Then(b, c))
  {
    assert a.lines + b.lines + c.lines == a.lines + (b.lines + c.lines);
  }

  lemma FirstLineStays(a: string, b: string, nl: nat)
    requires IndexOf(a, "\n", 0) == Some(nl)
    ensures Framed(a) == Then(Frames([a[..nl]], ""), Framed(a[nl + 1..]))
    ensures Framed(a + b) == Then(Frames([a[..nl]], ""), Framed(a[nl + 1..] + b))
  {
    NewlineStays(a, b);
    FramedUnfold(a, nl);
    FramedUnfold(a + b, nl);
    SlicesStay(a, b, nl);
  }

  lemma SlicesStay(a: string, b: string, nl: nat)
    requires nl < |a|
    ensures (a + b)[..nl] == a[..nl] && (a + b)[nl + 1..] == a[nl + 1..] + b
  {
  }

  lemma NoLineYet(a: string, b: string)
    requires IndexOf(a, "\n", 0).None?
    ensures Framed(a + b) == Then(Framed(a), Framed(Framed(a).rest + b))
  {
    assert Framed(a) == Frames([], a);
    assert Then(Frames([], a), Framed(a + b)).lines == Framed(a + b).lines;
  }

  /** Framing a longer text is framing its beginning, then the rest of that with what follows. */
  lemma {:induction false} FramedSplit(a: string, b: string)
    ensures Framed(a + b) == Then(Framed(a), Framed(Framed(a).rest + b))
    decreases |a|
  {
    if IndexOf(a, "\n", 0).None? {
      NoLineYet(a, b);
    } else {
      var nl := IndexOf(a, "\n", 0).value;
      var more := a[nl + 1..];
      FirstLineStays(a, b, nl);
      FramedSplit(more, b);
      PrependLine([a[..nl]], more, b, Framed(a));
    }
  }

  lemma {:induction false} PrependLine(first: seq<string>, more: string, b: string, whole: Frames)
    requires whole == Then(Frames(first, ""), Framed(more))
    requires Framed(more + b) == Then(Framed(more), Framed(Framed(more).rest + b))
    ensures Then(Frames(first, ""), Framed(more + b)) == Then(whole, Framed(whole.rest + b))
  {
    ThenAssociative(Frames(first, ""), Framed(more), Framed(Framed(more).rest + b));
  }

  lemma {:induction false} LinesDoneConcat(parse: string -> Message, t: Table, a: seq<string>, b: seq<string>)
    ensures LinesDone(parse, t, a + b) == LinesDone(parse, LinesDone(parse, t, a), b)
    decreases |a|
  {
    if a == [] {
      assert a + b == b;
    } else {
      LinesDoneConcat(parse, LineDone(parse, t, a[0]), a[1..], b);
      assert (a + b)[1..] == a[1..] + b;
    }
  }

  function Chunks(texts: seq<string>): (r: seq<Event>) {
    seq(|texts|, i requires 0 <= i < |texts| => Chunk(texts[i]))
  }

  /** All complete lines of a text taken, when neither the buffer limit nor a throw plays a part. */
  function Whole(parse: string -> Message, t: Table, text: string): State {
    State(LinesDone(parse, t, Framed(text).lines), Framed(text).rest)
  }

  /** The buffer stays within 2 MiB, seen from the text alone. */
  ghost predicate NoOverflow(buffer: string, texts: seq<string>) {
    forall i :: 0 <= i < |texts| ==> |Framed(buffer + Concat(texts[..i])).rest| + |texts[i]| <= 2 * MAX_LINE
  }

  lemma WholeSplit(parse: string -> Message, t: Table, text: string, b: string)
    ensures Whole(parse, t, text + b) == Whole(parse, Whole(parse, t, text).table, Whole(parse, t, text).buffer + b)
  {
    FramedSplit(text, b);
    LinesDoneConcat(parse, t, Framed(text).lines, Framed(Framed(text).rest + b).lines);
  }

  // ----- a throw delays what follows it -----

  /** The lines taken in turn: none but the last throws. */
  predicate ThrowsLastOnly(parse: string -> Message, t: Table, lines: seq<string>)
    decreases |lines|
  {
    |lines| <= 1 || (!Throws(parse, t, lines[0]) && ThrowsLastOnly(parse, LineDone(parse, t, lines[0]), lines[1..]))
  }

  lemma {:induction false} SmoothThrowsLastOnly(parse: string -> Message, t: Table, lines: seq<string>)
    requires Smooth(parse, t, lines)
    ensures ThrowsLastOnly(parse, t, lines)
    decreases |lines|
  {
    if |lines| > 1 { SmoothThrowsLastOnly(parse, LineDone(parse, t, lines[0]), lines[1..]); }
  }

  lemma {:induction false} ThrowsLastOnlySplits(parse: string -> Message, t: Table, a: seq<string>, b: seq<string>)
    requires ThrowsLastOnly(parse, t, a + b)
    ensures ThrowsLastOnly(parse, t, a) && ThrowsLastOnly(parse, LinesDone(parse, t, a), b)
    decreases |a|
  {
    if a == [] {
      assert a + b == b;
    } else if |a + b| > 1 {
      assert (a + b)[0] == a[0] && (a + b)[1..] == a[1..] + b;
      ThrowsLastOnlySplits(parse, LineDone(parse, t, a[0]), a[1..], b);
    } else {
      assert b == [] && a[1..] == [];
    }
  }

  /** One pass of the loop takes all complete lines exactly when none but the last throws. */
  lemma {:induction false} DrainIff(parse: string -> Message, t: Table, text: string)
    ensures Drained(parse, t, text) == Whole(parse, t, text) <==> ThrowsLastOnly(parse, t, Framed(text).lines)
    decreases |text|
  {
    match IndexOf(text, "\n", 0)
    case None =>
    case Some(nl) =>
      var line, more := text[..nl], text[nl + 1..];
      FirstLine(text, nl);
      RestHasNoLine(more);
      if Framed(more).lines == [] { NoLinesIsRest(more); }
      DrainIff(parse, LineDone(parse, t, line), more);
  }

  /** What a throw leaves in the buffer is not gone: the lines there and those done make up all of them. */
  lemma {:induction false} DelayedNotLost(parse: string -> Message, t: Table, text: string)
    ensures var d := Drained(parse, t, text);
            && LinesDone(parse, d.table, Framed(d.buffer).lines) == LinesDone(parse, t, Framed(text).lines)
            && Framed(d.buffer).rest == Framed(text).rest
    decreases |text|
  {
    match IndexOf(text, "\n", 0)
    case None =>
    case Some(nl) =>
      FirstLine(text, nl);
      if !Throws(parse, t, text[..nl]) { DelayedNotLost(parse, LineDone(parse, t, text[..nl]), text[nl + 1..]); }
  }

  // ----- chunks and text -----

  lemma {:induction false} ChunksAreText(parse: string -> Message, s: State, texts: seq<string>)
    requires NoOverflow(s.buffer, texts) && Framed(s.buffer).lines == []
    requires ThrowsLastOnly(parse, s.table, Framed(s.buffer + Concat(texts)).lines)
    ensures After(parse, s, Chunks(texts)) == Whole(parse, s.table, s.buffer + Concat(texts))
  {
    if texts == [] {
      NothingMore(parse, s);
    } else {
      var n := |texts| - 1;
      var front := texts[..n];
      var text := s.buffer + Concat(front);
      FrontFits(s.buffer, texts);
      TextWithLast(s.buffer, texts);
      ChunkOfText(parse, s.table, text, texts[n]);
      ChunksAreText(parse, s, front);
      AfterLastChunk(parse, s, texts);
    }
  }

  lemma AfterLastChunk(parse: string -> Message, s: State, texts: seq<string>)
    requires texts != []
    ensures var n := |texts| - 1;
            After(parse, s, Chunks(texts)) == Received(parse, After(parse, s, Chunks(texts[..n])), texts[n])
  {
    var n := |texts| - 1;
    assert Chunks(texts)[..n] == Chunks(texts[..n]);
  }

  lemma FrontFits(buffer: string, texts: seq<string>)
    requires texts != [] && NoOverflow(buffer, texts)
    ensures NoOverflow(buffer, texts[..|texts| - 1])
    ensures |Framed(buffer + Concat(texts[..|texts| - 1])).rest| + |texts[|texts| - 1]| <= 2 * MAX_LINE
  {
    var front := texts[..|texts| - 1];
    forall i | 0 <= i < |front|
      ensures |Framed(buffer + Concat(front[..i])).rest| + |front[i]| <= 2 * MAX_LINE
    {
      assert front[..i] == texts[..i];
    }
  }

  lemma TextWithLast(buffer: string, texts: seq<string>)
    requires texts != []
    ensures buffer + Concat(texts) == buffer + Concat(texts[..|texts| - 1]) + texts[|texts| - 1]
  {
    ConcatLast(texts, |texts| - 1);
    WholePrefix(texts);
  }

  lemma NothingMore(parse: string -> Message, s: State)
    requires Framed(s.buffer).lines == []
    ensures Whole(parse, s.table, s.buffer + "") == s
  {
    assert s.buffer + "" == s.buffer;
    NoLinesIsRest(s.buffer);
  }

  /** One more chunk of a text in which no line but the last throws. */
  lemma ChunkOfText(parse: string -> Message, t: Table, text: string, b: string)
    requires ThrowsLastOnly(parse, t, Framed(text + b).lines)
    requires |Framed(text).rest| + |b| <= 2 * MAX_LINE
    ensures ThrowsLastOnly(parse, t, Framed(text).lines)
    ensures Received(parse, Whole(parse, t, text), b) == Whole(parse, t, text + b)
  {
    var before := Framed(text);
    FramedSplit(text, b);
    ThrowsLastOnlySplits(parse, t, before.lines, Framed(before.rest + b).lines);
    DrainIff(parse, LinesDone(parse, t, before.lines), before.rest + b);
    WholeSplit(parse, t, text, b);
  }

  lemma NoLinesIsRest(text: string)
    requires Framed(text).lines == []
    ensures Framed(text).rest == text
  {
  }

  /** While the buffer stays within 2 MiB, two ways of cutting the same text into chunks have the same effect,
      unless a line before the last throws. */
  lemma {:induction false} ChunkingIsIrrelevant(parse: string -> Message, s: State, texts: seq<string>, others: seq<string>)
    requires Framed(s.buffer).lines == [] && Concat(texts) == Concat(others)
    requires ThrowsLastOnly(parse, s.table, Framed(s.buffer + Concat(texts)).lines)
    requires NoOverflow(s.buffer, texts) && NoOverflow(s.buffer, others)
    ensures After(parse, s, Chunks(texts)) == After(parse, s, Chunks(others))
  {
    ChunksAreText(parse, s, texts);
    ChunksAreText(parse, s, others);
  }

  lemma {:induction false} FitsWhole(buffer: string, texts: seq<string>)
    requires |buffer| + |Concat(texts)| <= 2 * MAX_LINE
    ensures NoOverflow(buffer, texts)
  {
    forall i | 0 <= i < |texts|
      ensures |Framed(buffer + Concat(texts[..i])).rest| + |texts[i]| <= 2 * MAX_LINE
    {
      RestIsTail(buffer + Concat(texts[..i]));
      ConcatLast(texts, i);
      ConcatPrefix(texts, i + 1);
    }
  }

  /** The text character by character. */
  function Singles(text: string): (texts: seq<string>)
    ensures |texts| == |text|
    ensures forall i :: 0 <= i < |texts| ==> texts[i] == [text[i]]
  {
    seq(|text|, i requires 0 <= i < |text| => [text[i]])
  }

  lemma {:induction false} SinglesAreText(parse: string -> Message, s: State, text: string)
    requires Framed(s.buffer).lines == [] && |s.buffer| + |text| <= 2 * MAX_LINE
    ensures Concat(Singles(text)) == text
    ensures After(parse, s, Chunks(Singles(text))) == Whole(parse, s.table, s.buffer + text)
  {
    if text == "" {
      NothingMore(parse, s);
    } else {
      var n := |text| - 1;
      SinglesAreText(parse, s, text[..n]);
      SinglesGrow(text);
      OneMoreCharacter(parse, s.table, s.buffer + text[..n], text[n]);
      WithLast(s.buffer, text);
    }
  }

  lemma SinglesGrow(text: string)
    requires text != ""
    ensures var n := |text| - 1;
            Chunks(Singles(text))[..n] == Chunks(Singles(text[..n])) && Chunks(Singles(text))[n] == Chunk([text[n]])
            && Concat(Singles(text)) == Concat(Singles(text[..n])) + [text[n]]
  {
    var n := |text| - 1;
    assert Singles(text) == Singles(text[..n]) + [[text[n]]];
    ConcatAppend(Singles(text[..n]), [text[n]]);
    assert Chunks(Singles(text))[..n] == Chunks(Singles(text[..n]));
  }

  /** A single character completes at most one line, so nothing comes after a throw. */
  lemma OneMoreCharacter(parse: string -> Message, t: Table, text: string, c: char)
    requires |text| + 1 <= 2 * MAX_LINE
    ensures Received(parse, Whole(parse, t, text), [c]) == Whole(parse, t, text + [c])
  {
    var before := Framed(text);
    RestIsTail(text);
    RestHasNoLine(text);
    OneLineAtMost(before.rest, c);
    DrainIff(parse, LinesDone(parse, t, before.lines), before.rest + [c]);
    WholeSplit(parse, t, text, [c]);
  }

  lemma WithLast(before: string, text: string)
    requires text != ""
    ensures text == text[..|text| - 1] + [text[|text| - 1]] && before + text == before + text[..|text| - 1] + [text[|text| - 1]]
  {
  }

  lemma OneLineAtMost(text: string, c: char)
    requires Framed(text).lines == []
    ensures |Framed(text + [c]).lines| <= 1
  {
    var more := text + [c];
    assert IndexOf(text, "\n", 0).None?;
    forall j | 0 <= j < |text|
      ensures !OccursAt(more, "\n", j)
    {
      OccursInPrefix(text, [c], "\n", j);
    }
    if IndexOf(more, "\n", 0).Some? {
      assert IndexOf(more, "\n", 0) == Some(|text|);
      FirstLine(more, |text|);
      assert more[|text| + 1..] == "";
      assert Framed("").lines == [];
    }
  }

  /** Exactly: a text that fits has the same effect however it is cut iff no line of it but the last throws. */
  lemma ChunkingIsIrrelevantIff(parse: string -> Message, s: State, text: string)
    requires Framed(s.buffer).lines == [] && |s.buffer| + |text| <= 2 * MAX_LINE
    ensures (forall texts: seq<string> :: Concat(texts) == text ==> After(parse, s, Chunks(texts)) == Next(parse, s, Chunk(text)))
            <==> ThrowsLastOnly(parse, s.table, Framed(s.buffer + text).lines)
  {
    DrainIff(parse, s.table, s.buffer + text);
    SinglesAreText(parse, s, text);
    if ThrowsLastOnly(parse, s.table, Framed(s.buffer + text).lines) {
      forall texts: seq<string> | Concat(texts) == text
        ensures After(parse, s, Chunks(texts)) == Next(parse, s, Chunk(text))
      {
        FitsWhole(s.buffer, texts);
        ChunksAreText(parse, s, texts);
      }
    }
  }

  /** Between the events of a run without a throw the buffer holds no complete line. */
  lemma {:induction false} BufferHasNoLine(parse: string -> Message, events: seq<Event>)
    requires Calm(parse, events)
    ensures Framed(After(parse, START, events).buffer).lines == []
  {
    if events != [] {
      var s := After(parse, START, events[..|events| - 1]);
      BufferHasNoLine(parse, events[..|events| - 1]);
      if events[|events| - 1].Chunk? {
        var text := s.buffer + events[|events| - 1].text;
        if |text| <= 2 * MAX_LINE {
          SmoothThrowsLastOnly(parse, s.table, Framed(text).lines);
          DrainIff(parse, s.table, text);
          RestHasNoLine(text);
        }
      }
    }
  }

  lemma {:induction false} RestHasNoLine(text: string)
    ensures Framed(Framed(text).rest).lines == []
    decreases |text|
  {
    match IndexOf(text, "\n", 0)
    case None =>
    case Some(nl) => RestHasNoLine(text[nl + 1..]);
  }

  function ProperOne(line: string): seq<string> {
    if Blank(line) || |line| > MAX_LINE then [] else [line]
  }

  /** The lines acted on are the non-blank ones that are not too long. */
  function Proper(lines: seq<string>): seq<string> {
    if lines == [] then []
    else ProperOne(lines[0]) + Proper(lines[1..])
  }

  lemma {:induction false} HandledAreProper(parse: string -> Message, t: Table, lines: seq<string>)
    ensures LinesDone(parse, t, lines).handled == t.handled + Proper(lines)
    decreases |lines|
  {
    if lines != [] {
      HandledAreProper(parse, LineDone(parse, t, lines[0]), lines[1..]);
      HandledIsProper(parse, t, lines[0]);
      ProperFirst(lines);
    }
  }

  lemma HandledIsProper(parse: string -> Message, t: Table, line: string)
    ensures LineDone(parse, t, line).handled == t.handled + ProperOne(line)
  {
  }

  lemma ProperFirst(lines: seq<string>)
    requires lines != []
    ensures forall before: seq<string> :: before + ProperOne(lines[0]) + Proper(lines[1..]) == before + Proper(lines)
  {
    forall before: seq<string>
      ensures before + ProperOne(lines[0]) + Proper(lines[1..]) == before + Proper(lines)
    {
      assert Proper(lines) == ProperOne(lines[0]) + Proper(lines[1..]);
    }
  }

  /** So the handled lines are those of the text, whatever the chunks and whatever else was pending. */
  lemma {:induction false} HandledLines(parse: string -> Message, s: State, texts: seq<string>)
    requires Framed(s.buffer).lines == [] && NoOverflow(s.buffer, texts)
    requires ThrowsLastOnly(parse, s.table, Framed(s.buffer + Concat(texts)).lines)
    ensures After(parse, s, Chunks(texts)).table.handled == s.table.handled + Proper(Framed(s.buffer + Concat(texts)).lines)
  {
    ChunksAreText(parse, s, texts);
    HandledAreProper(parse, s.table, Framed(s.buffer + Concat(texts)).lines);
  }

  // ----- when the buffer does overflow -----

  ghost predicate NoNewline(text: string, i: int, j: int) {
    0 <= i <= j <= |text| && forall k :: i <= k < j ==> text[k] != '\n'
  }

  /** No stretch of more than MAX_LINE characters without a newline. */
  ghost predicate ShortLines(text: string) {
    forall i, j :: NoNewline(text, i, j) ==> j - i <= MAX_LINE
  }

  lemma NewlineAt(text: string, k: nat)
    requires k < |text|
    ensures OccursAt(text, "\n", k) <==> text[k] == '\n'
  {
    assert text[k..k + 1] == [text[k]];
  }

  lemma {:induction false} RestIsTail(text: string)
    ensures |Framed(text).rest| <= |text| && Framed(text).rest == text[|text| - |Framed(text).rest|..]
    ensures forall k :: 0 <= k < |Framed(text).rest| ==> Framed(text).rest[k] != '\n'
    decreases |text|
  {
    match IndexOf(text, "\n", 0)
    case None =>
      forall k | 0 <= k < |text|
        ensures text[k] != '\n'
      {
        NewlineAt(text, k);
      }
    case Some(nl) => RestIsTail(text[nl + 1..]);
  }

  lemma {:induction false} ConcatPrefix(texts: seq<string>, i: nat)
    requires i <= |texts|
    ensures |Concat(texts[..i])| <= |Concat(texts)| && Concat(texts)[..|Concat(texts[..i])|] == Concat(texts[..i])
    decreases |texts| - i
  {
    if i < |texts| {
      ConcatPrefix(texts, i + 1);
      ConcatLast(texts, i);
      var whole, more, less := Concat(texts), Concat(texts[..i + 1]), Concat(texts[..i]);
      assert whole[..|less|] == whole[..|more|][..|less|];
    } else {
      WholePrefix(texts);
    }
  }

  /** A child that writes short lines, read in chunks of at most 1 MiB, never overflows the buffer. */
  lemma ShortLinesNeverOverflow(buffer: string, texts: seq<string>)
    requires ShortLines(buffer + Concat(texts)) && forall i :: 0 <= i < |texts| ==> |texts[i]| <= MAX_LINE
    ensures NoOverflow(buffer, texts)
  {
    forall i | 0 <= i < |texts|
      ensures |Framed(buffer + Concat(texts[..i])).rest| + |texts[i]| <= 2 * MAX_LINE
    {
      var text, before := buffer + Concat(texts), buffer + Concat(texts[..i]);
      ConcatPrefix(texts, i);
      assert text[..|before|] == before;
      var rest := Framed(before).rest;
      RestIsTail(before);
      var from := |before| - |rest|;
      forall k | from <= k < |before|
        ensures text[k] != '\n'
      {
        assert text[k] == before[k] == rest[k - from];
      }
      assert NoNewline(text, from, |before|);
    }
  }

  /** But one larger chunk loses every line in it, however short: the limit is checked before the split. */
  lemma LargeChunkLosesItsLines(parse: string -> Message, s: State, chunk: string, events: seq<Event>)
    requires |s.buffer| + |chunk| > 2 * MAX_LINE
    ensures var s' := Next(parse, s, Chunk(chunk));
            && s'.table.handled == s.table.handled && s'.buffer == ""
            && forall id :: id in s.table.pending ==>
                 Settlement(id, Failed(SizeLimit)) in After(parse, s', events).table.settled
  {
    var s' := Next(parse, s, Chunk(chunk));
    OutcomesAreFinal(parse, s', events);
    forall id | id in s.table.pending
      ensures Settlement(id, Failed(SizeLimit)) in After(parse, s', events).table.settled
    {
      var i :| 0 <= i < |s.table.pending| && s.table.pending[i] == id;
      assert s'.table.settled[|s.table.settled| + i] == Settlement(id, Failed(SizeLimit));
      assert After(parse, s', events).table.settled[..|s'.table.settled|][|s.table.settled| + i] == Settlement(id, Failed(SizeLimit));
    }
  }
}
