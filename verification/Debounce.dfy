/** The debounced catalogue-event dispatcher of one MCP connection (src/mcp/catalog-dispatcher.ts). */
module Debounce {
  import opened Values

  const DEBOUNCE_MS := 500

  datatype Kind = Tools | Resources | Prompts

  datatype Timer = Timer(kind: Kind, due: int)

  /** What happened, in order; ListenersGone is `shutdown`. */
  datatype Entry =
    | Heard(kind: Kind, at: int)
    | Emitted(kind: Kind, at: int)
    | Updated(uri: string, at: int)
    | ListenersGone(at: int)

  /** `pending` is the dispatcher's own map to timer handles, `live` the timers the event loop really holds. */
  datatype State = State(pending: map<Kind, nat>, live: map<nat, Timer>, next: nat, closed: bool, log: seq<Entry>)

  const START := State(map[], map[], 0, false, [])

  function KindOf(rpcMethod: string): Option<Kind> {
    match rpcMethod
    case "notifications/tools/list_changed" => Some(Tools)
    case "notifications/resources/list_changed" => Some(Resources)
    case "notifications/prompts/list_changed" => Some(Prompts)
    case _ => None
  }

  const UPDATED := "notifications/resources/updated"

  function Scheduled(s: State, kind: Kind, now: int): State {
    var others := if kind in s.pending then s.live - {s.pending[kind]} else s.live;
    State(s.pending[kind := s.next], others[s.next := Timer(kind, now + DEBOUNCE_MS)], s.next + 1, s.closed, s.log + [Heard(kind, now)])
  }

  function Dispatched(s: State, rpcMethod: string, uri: Option<string>, subscribed: set<string>, now: int): (bool, State) {
    if s.closed then (false, s)
    else if KindOf(rpcMethod).Some? then (true, Scheduled(s, KindOf(rpcMethod).value, now))
    else if rpcMethod == UPDATED then
      (true, if uri.Some? && uri.value in subscribed then s.(log := s.log + [Updated(uri.value, now)]) else s)
    else (false, s)
  }

  /** The event loop runs a timer that it still holds, at its due time or later. */
  function Fired(s: State, id: nat, now: int): State {
    if id !in s.live || now < s.live[id].due then s
    else
      var kind := s.live[id].kind;
      State(s.pending - {kind}, s.live - {id}, s.next, s.closed, if s.closed then s.log else s.log + [Emitted(kind, now)])
  }

  function ShutDown(s: State, now: int): State {
    State(map[], s.live - s.pending.Values, s.next, true, s.log + [ListenersGone(now)])
  }

  datatype Event =
    | Notification(rpcMethod: string, uri: Option<string>, subscribed: set<string>, now: int)
    | TimerRuns(id: nat, now: int)
    | Shutdown(now: int)

  function Next(s: State, e: Event): State {
    match e
    case Notification(rpcMethod, uri, subscribed, now) => Dispatched(s, rpcMethod, uri, subscribed, now).1
    case TimerRuns(id, now) => Fired(s, id, now)
    case Shutdown(now) => ShutDown(s, now)
  }

  function After(events: seq<Event>): State {
    if events == [] then START else Next(After(events[..|events| - 1]), events[|events| - 1])
  }

  class CatalogDispatcher {
    var pendingTimers: map<Kind, nat>
    var live: map<nat, Timer>
    var nextTimer: nat
    var closed: bool
    ghost var log: seq<Entry>

    ghost function Abs(): State
      reads this
    {
      State(pendingTimers, live, nextTimer, closed, log)
    }

    constructor ()
      ensures Abs() == START
    {
      pendingTimers, live, nextTimer, closed := map[], map[], 0, false;
      log := [];
    }

    method Emit(e: Entry)
      modifies this`log
      ensures log == if closed then old(log) else old(log) + [e]
    {
      if closed {
        return;
      }
      log := log + [e];
    }

    method ScheduleDebounced(kind: Kind, now: int)
      modifies this
      ensures Abs() == Scheduled(old(Abs()), kind, now)
    {
      log := log + [Heard(kind, now)];
      if kind in pendingTimers {
        live := live - {pendingTimers[kind]};
      }
      live := live[nextTimer := Timer(kind, now + DEBOUNCE_MS)];
      pendingTimers := pendingTimers[kind := nextTimer];
      nextTimer := nextTimer + 1;
    }

    method Dispatch(rpcMethod: string, uri: Option<string>, subscribed: set<string>, now: int) returns (claimed: bool)
      modifies this
      ensures (claimed, Abs()) == Dispatched(old(Abs()), rpcMethod, uri, subscribed, now)
    {
      if closed {
        return false;
      }
      match KindOf(rpcMethod) {
        case Some(kind) =>
          ScheduleDebounced(kind, now);
          return true;
        case None =>
          if rpcMethod != UPDATED {
            return false;
          }
          if uri.Some? && uri.value in subscribed {
            Emit(Updated(uri.value, now));
          }
          return true;
      }
    }

    method OnTimer(id: nat, now: int)
      requires id in live && live[id].due <= now
      modifies this
      ensures Abs() == Fired(old(Abs()), id, now)
    {
      var kind := live[id].kind;
      live := live - {id};
      pendingTimers := pendingTimers - {kind};
      Emit(Emitted(kind, now));
    }

    method Stop(now: int)
      modifies this
      ensures Abs() == ShutDown(old(Abs()), now)
    {
      closed := true;
      log := log + [ListenersGone(now)];
      var left := pendingTimers.Values;
      ghost var cleared: set<nat> := {};
      while left != {}
        invariant left + cleared == pendingTimers.Values
        invariant live == old(live) - cleared
        invariant pendingTimers == old(pendingTimers) && nextTimer == old(nextTimer) && closed && log == old(log) + [ListenersGone(now)]
        decreases |left|
      {
        var t :| t in left;
        live := live - {t};
        left := left - {t};
        cleared := cleared + {t};
      }
      pendingTimers := map[];
    }
  }

  // ----- what every run keeps -----

  predicate Clocked(events: seq<Event>, now: int) {
    && (forall i, j :: 0 <= i < j < |events| ==> events[i].now <= events[j].now)
    && (forall i :: 0 <= i < |events| ==> events[i].now <= now)
  }

  predicate About(e: Entry, kind: Kind) {
    (e.Heard? || e.Emitted?) && e.kind == kind
  }

  /** The latest notification or emission of the kind. */
  function LastOf(log: seq<Entry>, kind: Kind): (r: Option<Entry>)
    ensures r.Some? ==> About(r.value, kind)
  {
    if log == [] then None
    else if About(log[|log| - 1], kind) then Some(log[|log| - 1])
    else LastOf(log[..|log| - 1], kind)
  }

  /** The timers held are those in the map, and a kind has one iff its latest entry is a notification. */
  ghost predicate TimersInv(s: State) {
    && (forall kind :: kind in s.pending ==> s.pending[kind] in s.live && s.live[s.pending[kind]].kind == kind)
    && (forall id :: id in s.live ==> id < s.next && s.live[id].kind in s.pending && s.pending[s.live[id].kind] == id)
    && (s.closed ==> s.live == map[])
    && (!s.closed ==> forall kind :: PendingInv(s, kind))
  }

  ghost predicate PendingInv(s: State, kind: Kind) {
    var last := LastOf(s.log, kind);
    && (kind in s.pending <==> last.Some? && last.value.Heard?)
    && (kind in s.pending ==> s.pending[kind] in s.live && s.live[s.pending[kind]].due == last.value.at + DEBOUNCE_MS)
  }

  lemma LastOfAppend(log: seq<Entry>, e: Entry, kind: Kind)
    ensures LastOf(log + [e], kind) == if About(e, kind) then Some(e) else LastOf(log, kind)
  {
    assert (log + [e])[..|log|] == log;
  }

  lemma ScheduleKeepsTimers(s: State, kind: Kind, now: int)
    requires TimersInv(s) && !s.closed
    ensures TimersInv(Scheduled(s, kind, now))
  {
    var t := Scheduled(s, kind, now);
    forall k
      ensures PendingInv(t, k)
    {
      assert PendingInv(s, k);
      LastOfAppend(s.log, Heard(kind, now), k);
    }
  }

  lemma FireKeepsTimers(s: State, id: nat, now: int)
    requires TimersInv(s)
    ensures TimersInv(Fired(s, id, now))
  {
    var t := Fired(s, id, now);
    if id in s.live && s.live[id].due <= now {
      forall k
        ensures PendingInv(t, k)
      {
        assert PendingInv(s, k);
        LastOfAppend(s.log, Emitted(s.live[id].kind, now), k);
      }
    }
  }

  lemma NextKeepsTimers(s: State, e: Event)
    requires TimersInv(s)
    ensures TimersInv(Next(s, e))
  {
    match e
    case Notification(rpcMethod, uri, subscribed, now) =>
      if !s.closed {
        match KindOf(rpcMethod)
        case Some(kind) => ScheduleKeepsTimers(s, kind, now);
        case None =>
          if rpcMethod == UPDATED && uri.Some? && uri.value in subscribed {
            forall k
              ensures PendingInv(Next(s, e), k)
            {
              assert PendingInv(s, k);
              LastOfAppend(s.log, Updated(uri.value, now), k);
            }
          }
      }
    case TimerRuns(id, now) => FireKeepsTimers(s, id, now);
    case Shutdown(now) => assert forall id :: id in s.live ==> id in s.pending.Values;
  }

  lemma {:induction false} RunsKeepTimers(events: seq<Event>)
    ensures TimersInv(After(events))
  {
    if events != [] {
      RunsKeepTimers(events[..|events| - 1]);
      NextKeepsTimers(After(events[..|events| - 1]), events[|events| - 1]);
    }
  }

  /** At most one timer of a kind is ever alive. */
  lemma OneTimerPerKind(events: seq<Event>, a: nat, b: nat)
    requires var live := After(events).live; a in live && b in live && live[a].kind == live[b].kind
    ensures a == b
  {
    RunsKeepTimers(events);
  }

  ghost predicate RunsWhenDue(s: State, id: nat, heard: Entry)
    requires heard.Heard?
  {
    var due := heard.at + DEBOUNCE_MS;
    && id in s.live && s.live[id] == Timer(heard.kind, due)
    && LastOf(Fired(s, id, due).log, heard.kind) == Some(Emitted(heard.kind, due))
  }

  /** Until shutdown, a kind has a timer exactly while its latest notification is not yet followed by an
      emission, and running that timer when it is due emits. */
  lemma UnansweredHasTimer(events: seq<Event>, kind: Kind)
    requires !After(events).closed
    ensures var s := After(events);
            var last := LastOf(s.log, kind);
            if last.Some? && last.value.Heard? then exists id :: RunsWhenDue(s, id, last.value)
            else forall id :: id in s.live ==> s.live[id].kind != kind
  {
    var s := After(events);
    var last := LastOf(s.log, kind);
    RunsKeepTimers(events);
    assert PendingInv(s, kind);
    if last.Some? && last.value.Heard? {
      var id := s.pending[kind];
      var due := last.value.at + DEBOUNCE_MS;
      LastOfAppend(s.log, Emitted(kind, due), kind);
      assert RunsWhenDue(s, id, last.value);
    }
  }

  // ----- spacing -----

  /** The entry at i, if an emission of the kind, answers a notification and comes after half a second
      without any notification or emission of that kind. */
  ghost predicate Spaced(log: seq<Entry>, kind: Kind, i: nat)
    requires i < |log|
  {
    log[i] == Emitted(kind, log[i].at) ==>
      && (exists j :: 0 <= j < i && log[j] == Heard(kind, log[j].at) && forall k :: j < k < i ==> !About(log[k], kind))
      && (forall j :: 0 <= j < i && About(log[j], kind) ==> log[j].at + DEBOUNCE_MS <= log[i].at)
  }

  lemma {:induction false} LastOfMeaning(log: seq<Entry>, kind: Kind)
    ensures match LastOf(log, kind)
            case None => forall i :: 0 <= i < |log| ==> !About(log[i], kind)
            case Some(e) => exists j :: 0 <= j < |log| && log[j] == e && About(e, kind) && forall i :: j < i < |log| ==> !About(log[i], kind)
  {
    if log != [] {
      var n := |log| - 1;
      LastOfMeaning(log[..n], kind);
      if !About(log[n], kind) && LastOf(log, kind).Some? {
        var e := LastOf(log, kind).value;
        var j :| 0 <= j < n && log[..n][j] == e && About(e, kind) && forall i :: j < i < n ==> !About(log[..n][i], kind);
        forall i | j < i < |log|
          ensures !About(log[i], kind)
        {
          if i < n { assert !About(log[..n][i], kind); }
        }
        assert log[j] == e;
      }
    }
  }

  ghost predicate LogClocked(log: seq<Entry>, now: int) {
    && (forall i, j :: 0 <= i < j < |log| ==> log[i].at <= log[j].at)
    && (forall i :: 0 <= i < |log| ==> log[i].at <= now)
  }

  ghost predicate AllSpaced(log: seq<Entry>) {
    forall kind, i :: 0 <= i < |log| ==> Spaced(log, kind, i)
  }

  lemma EmissionIsSpaced(log: seq<Entry>, kind: Kind, now: int)
    requires LogClocked(log, now)
    requires LastOf(log, kind).Some? && LastOf(log, kind).value.Heard? && LastOf(log, kind).value.at + DEBOUNCE_MS <= now
    ensures Spaced(log + [Emitted(kind, now)], kind, |log|)
  {
    LastOfMeaning(log, kind);
    var more := log + [Emitted(kind, now)];
    var e := LastOf(log, kind).value;
    var j :| 0 <= j < |log| && log[j] == e && About(e, kind) && forall i :: j < i < |log| ==> !About(log[i], kind);
    assert more[j] == Heard(kind, more[j].at) && forall k :: j < k < |log| ==> !About(more[k], kind);
  }

  lemma EarlierStaySpaced(log: seq<Entry>, e: Entry, kind: Kind, i: nat)
    requires i < |log| && Spaced(log, kind, i)
    ensures Spaced(log + [e], kind, i)
  {
    var more := log + [e];
    if log[i] == Emitted(kind, log[i].at) {
      var j :| 0 <= j < i && log[j] == Heard(kind, log[j].at) && forall k :: j < k < i ==> !About(log[k], kind);
      assert more[j] == Heard(kind, more[j].at) && forall k :: j < k < i ==> !About(more[k], kind);
    }
  }

  lemma AppendKeepsSpaced(log: seq<Entry>, e: Entry)
    requires AllSpaced(log) && (e.Emitted? ==> Spaced(log + [e], e.kind, |log|))
    ensures AllSpaced(log + [e])
  {
    forall kind, i | 0 <= i < |log + [e]|
      ensures Spaced(log + [e], kind, i)
    {
      if i < |log| { EarlierStaySpaced(log, e, kind, i); }
    }
  }

  lemma NextKeepsSpaced(s: State, e: Event)
    requires TimersInv(s) && AllSpaced(s.log) && LogClocked(s.log, e.now)
    ensures AllSpaced(Next(s, e).log) && LogClocked(Next(s, e).log, e.now)
  {
    var log := Next(s, e).log;
    if log != s.log {
      var entry := log[|s.log|];
      assert log == s.log + [entry];
      if entry.Emitted? {
        assert PendingInv(s, entry.kind);
        EmissionIsSpaced(s.log, entry.kind, e.now);
      }
      AppendKeepsSpaced(s.log, entry);
    }
  }

  /** In every run each emission answers a notification, and no notification or emission of its kind lies in
      the half second before it; so emissions of a kind are at least half a second apart. */
  lemma {:induction false} EmissionsAreSpaced(events: seq<Event>, now: int)
    requires Clocked(events, now)
    ensures AllSpaced(After(events).log) && LogClocked(After(events).log, now)
  {
    if events != [] {
      var front, e := events[..|events| - 1], events[|events| - 1];
      EmissionsAreSpaced(front, e.now);
      RunsKeepTimers(front);
      NextKeepsSpaced(After(front), e);
    }
  }

  // ----- shutdown -----

  /** After shutdown no timer is alive and nothing is heard or emitted any more. */
  lemma {:induction false} SilentAfterShutdown(events: seq<Event>, now: int, more: seq<Event>)
    ensures var s, t := After(events + [Shutdown(now)]), After(events + [Shutdown(now)] + more);
            t.closed && t.live == map[] && forall i :: |s.log| <= i < |t.log| ==> t.log[i].ListenersGone?
    ensures |After(events + [Shutdown(now)]).log| <= |After(events + [Shutdown(now)] + more).log|
    decreases |more|
  {
    var run := events + [Shutdown(now)];
    if more == [] {
      RunsKeepTimers(run);
      assert run[..|run| - 1] == events;
      assert run + more == run;
    } else {
      var front := more[..|more| - 1];
      SilentAfterShutdown(events, now, front);
      assert (run + more)[..|run + more| - 1] == run + front;
    }
  }

  // ----- which notifications are claimed, and what becomes of them -----

  lemma AfterUnfolds(events: seq<Event>, e: Event)
    ensures After(events + [e]) == Next(After(events), e)
  {
    assert (events + [e])[..|events|] == events;
  }

  lemma {:induction false} ClosedIffShutDown(events: seq<Event>)
    ensures After(events).closed <==> exists e :: e in events && e.Shutdown?
  {
    if events != [] {
      var front, last := events[..|events| - 1], events[|events| - 1];
      ClosedIffShutDown(front);
      assert events == front + [last];
      if last.Shutdown? { assert last in events; }
    }
  }

  ghost predicate ShutDownIn(events: seq<Event>) {
    exists e :: e in events && e.Shutdown?
  }

  /** What the dispatcher says to a notification: true when it was one of the catalogue's. */
  ghost function Claimed(events: seq<Event>, n: Event): bool
    requires n.Notification?
  {
    Dispatched(After(events), n.rpcMethod, n.uri, n.subscribed, n.now).0
  }

  ghost predicate IsHeard(events: seq<Event>, n: Event, kind: Kind)
    requires n.Notification?
  {
    Claimed(events, n) && After(events + [n]).log == After(events).log + [Heard(kind, n.now)]
  }

  ghost predicate IsIgnored(events: seq<Event>, n: Event) {
    After(events + [n]) == After(events)
  }

  /** The three list notifications are heard as their kinds; an update is passed on at once if its resource is
      subscribed and claimed in any case; everything else, and everything after shutdown, is left alone. */
  lemma NotificationsMean(events: seq<Event>, uri: Option<string>, subscribed: set<string>, now: int, other: string)
    requires !ShutDownIn(events)
    ensures IsHeard(events, Notification("notifications/tools/list_changed", uri, subscribed, now), Tools)
    ensures IsHeard(events, Notification("notifications/resources/list_changed", uri, subscribed, now), Resources)
    ensures IsHeard(events, Notification("notifications/prompts/list_changed", uri, subscribed, now), Prompts)
    ensures var n := Notification("notifications/resources/updated", uri, subscribed, now);
            && Claimed(events, n)
            && (uri.Some? && uri.value in subscribed ==> After(events + [n]).log == After(events).log + [Updated(uri.value, now)])
            && (!(uri.Some? && uri.value in subscribed) ==> IsIgnored(events, n))
    ensures var n := Notification(other, uri, subscribed, now);
            other !in {"notifications/tools/list_changed", "notifications/resources/list_changed",
                       "notifications/prompts/list_changed", "notifications/resources/updated"} ==>
              !Claimed(events, n) && IsIgnored(events, n)
  {
    ClosedIffShutDown(events);
    AfterUnfolds(events, Notification("notifications/tools/list_changed", uri, subscribed, now));
    AfterUnfolds(events, Notification("notifications/resources/list_changed", uri, subscribed, now));
    AfterUnfolds(events, Notification("notifications/prompts/list_changed", uri, subscribed, now));
    AfterUnfolds(events, Notification("notifications/resources/updated", uri, subscribed, now));
    AfterUnfolds(events, Notification(other, uri, subscribed, now));
  }

  lemma NothingClaimedAfterShutdown(events: seq<Event>, n: Event)
    requires n.Notification? && ShutDownIn(events)
    ensures !Claimed(events, n) && IsIgnored(events, n)
  {
    ClosedIffShutDown(events);
    AfterUnfolds(events, n);
  }

  /** Once a notification is heard, no timer emits its kind in the next 500 ms, and one does when it runs after them. */
  lemma EmitsAfterHalfSecond(events: seq<Event>, n: Event, kind: Kind, later: int) returns (id: nat)
    requires n.Notification? && IsHeard(events, n, kind)
    ensures later < n.now + 500 ==>
              forall any :: Emitted(kind, later) !in After(events + [n] + [TimerRuns(any, later)]).log[|After(events + [n]).log|..]
    ensures later >= n.now + 500 ==>
              After(events + [n] + [TimerRuns(id, later)]).log == After(events + [n]).log + [Emitted(kind, later)]
  {
    var run := events + [n];
    var s := After(run);
    RunsKeepTimers(run);
    AfterUnfolds(events, n);
    HeardIsPending(events, n, kind);
    id := s.pending[kind];
    AfterUnfolds(run, TimerRuns(id, later));
    if later < n.now + 500 {
      forall any
        ensures Emitted(kind, later) !in After(run + [TimerRuns(any, later)]).log[|s.log|..]
      {
        AfterUnfolds(run, TimerRuns(any, later));
      }
    }
  }

  lemma HeardIsPending(events: seq<Event>, n: Event, kind: Kind)
    requires n.Notification? && IsHeard(events, n, kind)
    ensures var s := After(events + [n]);
            !s.closed && kind in s.pending && s.pending[kind] in s.live && s.live[s.pending[kind]] == Timer(kind, n.now + 500)
  {
    AfterUnfolds(events, n);
    var s, t := After(events), After(events + [n]);
    assert t.log[|s.log|] == Heard(kind, n.now);
  }
}
