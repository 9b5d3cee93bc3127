/** The session object of the runtime (src/runtime/session.ts): bindings that expire, with their lazy and
    eager removal over a moving clock, and the transcript. */
module BindingTtl {
  import opened Values
  import opened Evaluate

  /** `lookup` deletes an expired binding that it comes across. */
  function LookedUp(s: Store, name: string, now: int): (Option<Binding>, Store) {
    if name == "_" then (s.last, s)
    else if name !in s.names then (None, s)
    else if Live(s.names[name], now) then (Some(s.names[name]), s)
    else (None, s.(names := s.names - {name}))
  }

  /** `bind` throws for `_`. */
  function Bound(s: Store, name: string, b: Binding): (bool, Store) {
    if name == "_" then (false, s) else (true, s.(names := s.names[name := b]))
  }

  function Swept(s: Store, now: int): Store {
    s.(names := map name | name in s.names && Live(s.names[name], now) :: s.names[name])
  }

  /** The parsed statement is kept as an opaque token; it is absent when parsing failed. */
  datatype Entry = Entry(t: nat, command: string, stmt: Option<nat>, statusLine: string, binding: Option<string>,
                         error: Option<(string, string)>, durationMs: nat)

  datatype Snapshot = Snapshot(id: string, bindings: map<string, Binding>, last: Option<Binding>, transcript: seq<Entry>, turnCounter: nat)

  class BoundedSession {
    const id: string
    var bindings: map<string, Binding>
    var last: Option<Binding>
    var transcript: seq<Entry>
    var turnCounter: nat

    function Abs(): Store
      reads this
    {
      Store(bindings, last)
    }

    function Whole(): Snapshot
      reads this
    {
      Snapshot(id, bindings, last, transcript, turnCounter)
    }

    constructor (id: string)
      ensures Whole() == Snapshot(id, map[], None, [], 0)
    {
      this.id := id;
      bindings, last, transcript, turnCounter := map[], None, [], 0;
    }

    /** `recordTurn`. */
    method RecordTurn(entry: Entry)
      modifies this`turnCounter, this`transcript
      ensures Whole() == old(Whole()).(turnCounter := old(turnCounter) + 1, transcript := old(transcript) + [entry.(t := old(turnCounter) + 1)])
    {
      turnCounter := turnCounter + 1;
      transcript := transcript + [entry.(t := turnCounter)];
    }

    method Lookup(name: string, now: int) returns (b: Option<Binding>)
      modifies this`bindings
      ensures (b, Abs()) == LookedUp(old(Abs()), name, now)
    {
      if name == "_" {
        return last;
      }
      if name !in bindings {
        return None;
      }
      var found := bindings[name];
      if found.ttlDeadlineMs.Some? && now >= found.ttlDeadlineMs.value {
        bindings := bindings - {name};
        return None;
      }
      return Some(found);
    }

    method Bind(name: string, b: Binding) returns (ok: bool)
      modifies this`bindings
      ensures (ok, Abs()) == Bound(old(Abs()), name, b)
    {
      if name == "_" {
        return false;
      }
      bindings := bindings[name := b];
      return true;
    }

    method UpdateLast(b: Option<Binding>)
      modifies this`last
      ensures Abs() == old(Abs()).(last := b)
    {
      last := b;
    }

    method SweepExpired(now: int)
      modifies this`bindings
      ensures Abs() == Swept(old(Abs()), now)
    {
      var left := bindings.Keys;
      ghost var all := bindings;
      while left != {}
        invariant left <= all.Keys && last == old(last)
        invariant bindings == map name | name in all && (name in left || Live(all[name], now)) :: all[name]
        decreases |left|
      {
        var name :| name in left;
        var b := bindings[name];
        if b.ttlDeadlineMs.Some? && now >= b.ttlDeadlineMs.value {
          bindings := bindings - {name};
        }
        left := left - {name};
      }
    }
  }

  // ----- runs against a reference that never deletes -----

  datatype Event =
    | Looks(name: string, now: int)
    | Binds(name: string, binding: Binding, now: int)
    | SetsLast(last: Option<Binding>, now: int)
    | Sweeps(now: int)

  /** The store and what the lookups have answered. */
  datatype Run = Run(store: Store, answers: seq<Option<Binding>>)

  function Next(r: Run, e: Event): Run {
    match e
    case Looks(name, now) => Run(LookedUp(r.store, name, now).1, r.answers + [LookedUp(r.store, name, now).0])
    case Binds(name, b, now) => r.(store := Bound(r.store, name, b).1)
    case SetsLast(b, now) => r.(store := r.store.(last := b))
    case Sweeps(now) => r.(store := Swept(r.store, now))
  }

  function After(events: seq<Event>): Run {
    if events == [] then Run(Store(map[], None), []) else Next(After(events[..|events| - 1]), events[|events| - 1])
  }

  /** What was bound last to the name, if that has not expired. */
  function Latest(events: seq<Event>, name: string): Option<Binding> {
    if events == [] then None
    else
      match events[|events| - 1]
      case Binds(n, b, _) => if n == name && name != "_" then Some(b) else Latest(events[..|events| - 1], name)
      case SetsLast(b, _) => if name == "_" then b else Latest(events[..|events| - 1], name)
      case _ => Latest(events[..|events| - 1], name)
  }

  function LiveOf(b: Option<Binding>, name: string, now: int): Option<Binding> {
    if b.Some? && name != "_" && !Live(b.value, now) then None else b
  }

  function Answers(events: seq<Event>): seq<Option<Binding>> {
    if events == [] then []
    else
      var front, e := events[..|events| - 1], events[|events| - 1];
      Answers(front) + if e.Looks? then [LiveOf(Latest(front, e.name), e.name, e.now)] else []
  }

  predicate Clocked(events: seq<Event>, now: int) {
    && (forall i, j :: 0 <= i < j < |events| ==> events[i].now <= events[j].now)
    && (forall i :: 0 <= i < |events| ==> events[i].now <= now)
  }

  /** Since it was bound last the name has been looked up, or all names swept, at or after its deadline. */
  predicate Purged(events: seq<Event>, name: string) {
    events != [] &&
    var front, e := events[..|events| - 1], events[|events| - 1];
    match e
    case Binds(n, _, _) => n != name && Purged(front, name)
    case SetsLast(_, _) => Purged(front, name)
    case Looks(n, now) => Purged(front, name) || (n == name && Overdue(front, name, now))
    case Sweeps(now) => Purged(front, name) || Overdue(front, name, now)
  }

  predicate Overdue(events: seq<Event>, name: string, now: int) {
    name != "_" && Latest(events, name).Some? && !Live(Latest(events, name).value, now)
  }

  /** Whatever the clock does: the table holds what was bound last, unless that has been purged. */
  lemma {:induction false} TableHoldsLatest(events: seq<Event>, name: string)
    ensures var s := After(events).store;
            if name == "_" then s.last == Latest(events, name)
            else (name in s.names <==> Latest(events, name).Some? && !Purged(events, name))
                 && (name in s.names ==> Some(s.names[name]) == Latest(events, name))
  {
    if events != [] { TableHoldsLatest(events[..|events| - 1], name); }
  }

  ghost predicate Tracks(s: Store, events: seq<Event>, name: string, now: int) {
    LookedUp(s, name, now).0 == LiveOf(Latest(events, name), name, now)
  }

  /** Exactly: a lookup misses what was bound last and has not expired iff that was purged before, by an
      earlier lookup or sweep at or after its deadline. */
  lemma LookupTracksIff(events: seq<Event>, name: string, now: int)
    ensures Tracks(After(events).store, events, name, now) <==>
            !(name != "_" && Latest(events, name).Some? && Live(Latest(events, name).value, now) && Purged(events, name))
  {
    TableHoldsLatest(events, name);
  }

  /** A clock that never goes back cannot make a purged binding live again. */
  lemma {:induction false} PurgedStaysOverdue(events: seq<Event>, name: string, now: int)
    requires Clocked(events, now) && Purged(events, name) && name != "_"
    ensures Overdue(events, name, now)
  {
    var front, e := events[..|events| - 1], events[|events| - 1];
    if Purged(front, name) { PurgedStaysOverdue(front, name, e.now); }
  }

  lemma StoreTracks(events: seq<Event>, name: string, now: int)
    requires Clocked(events, now)
    ensures Tracks(After(events).store, events, name, now)
  {
    LookupTracksIff(events, name, now);
    if Purged(events, name) && name != "_" { PurgedStaysOverdue(events, name, now); }
  }

  /** While the clock never goes back, every lookup answers with what was bound last unless that has expired:
      when bindings are removed, lazily or by a sweep, is never seen. */
  lemma {:induction false} RemovalIsInvisible(events: seq<Event>, now: int)
    requires Clocked(events, now)
    ensures After(events).answers == Answers(events)
  {
    if events != [] {
      var front, e := events[..|events| - 1], events[|events| - 1];
      RemovalIsInvisible(front, e.now);
      if e.Looks? { StoreTracks(front, e.name, e.now); }
    }
  }

  /** Right after a sweep no binding in the table has expired, and nothing else is gone. */
  lemma SweepLeavesTheLive(events: seq<Event>, now: int, name: string)
    requires Clocked(events, now) && name != "_"
    ensures var s := After(events + [Sweeps(now)]).store;
            && (name in s.names <==> LiveOf(Latest(events, name), name, now).Some?)
            && (name in s.names ==> Some(s.names[name]) == Latest(events, name))
  {
    assert (events + [Sweeps(now)])[..|events|] == events;
    StoreTracks(events, name, now);
  }

  /** With a clock that goes back a sweep can be seen, for every deadline. */
  lemma ClockMustNotGoBack(name: string, value: Value, deadline: int)
    requires name != "_"
    ensures var b := Binding(value, deadline - 1, Some(deadline));
            var swept := [Binds(name, b, deadline - 1), Sweeps(deadline), Looks(name, deadline - 1)];
            After(swept).answers == [None] && Answers(swept) == [Some(b)]
  {
    var b := Binding(value, deadline - 1, Some(deadline));
    var one := [Binds(name, b, deadline - 1)];
    var two := one + [Sweeps(deadline)];
    var three := [Binds(name, b, deadline - 1), Sweeps(deadline), Looks(name, deadline - 1)];
    assert three[..2] == two && two[..1] == one && one[..0] == [];
    assert After(one) == Run(Store(map[name := b], None), []);
    assert After(two) == Run(Store(map[], None), []);
    assert Latest(one, name) == Some(b) && Latest(two, name) == Some(b);
    assert Answers(one) == [];
    assert Answers(two) == [];
  }
}
