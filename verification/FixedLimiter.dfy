/** The fixed-window limiter of the HTTP server with its garbage-collecting timer (src/http/server.ts). */
module FixedLimiter {
  const WINDOW_MS := 60000
  const GC_AGE_MS := 70000

  datatype Window = Window(start: int, count: nat)

  type Windows = map<string, Window>

  /** One request: a missing or old window is started afresh and admits, a running one counts up first. */
  function Hit(ws: Windows, perMinute: nat, key: string, now: int): (bool, Windows) {
    if key !in ws || now - ws[key].start >= WINDOW_MS then (true, ws[key := Window(now, 1)])
    else
      var w := ws[key].(count := ws[key].count + 1);
      (w.count <= perMinute, ws[key := w])
  }

  /** The timer deletes windows that have been over for ten seconds. */
  function Swept(ws: Windows, now: int): Windows {
    map k | k in ws && now - ws[k].start < GC_AGE_MS :: ws[k]
  }

  class Limiter {
    const perMinute: nat
    var windows: Windows

    constructor (perMinute: nat)
      ensures this.perMinute == perMinute && windows == map[]
    {
      this.perMinute := perMinute;
      windows := map[];
    }

    method OnRequest(key: string, now: int) returns (admitted: bool)
      modifies this
      ensures (admitted, windows) == Hit(old(windows), perMinute, key, now)
    {
      if key !in windows || now - windows[key].start >= WINDOW_MS {
        windows := windows[key := Window(now, 1)];
        return true;
      }
      windows := windows[key := windows[key].(count := windows[key].count + 1)];
      return windows[key].count <= perMinute;
    }

    method OnTimer(now: int)
      modifies this
      ensures windows == Swept(old(windows), now)
    {
      var left := windows.Keys;
      ghost var ws := windows;
      while left != {}
        invariant left <= ws.Keys
        invariant windows == map k | k in ws && (k in left || now - ws[k].start < GC_AGE_MS) :: ws[k]
      {
        var k :| k in left;
        if now - windows[k].start >= GC_AGE_MS {
          windows := windows - {k};
        }
        left := left - {k};
      }
    }
  }

  // ----- runs -----

  datatype Event = Request(key: string, now: int) | Timer(now: int)

  predicate Clocked(events: seq<Event>) {
    forall i, j :: 0 <= i < j < |events| ==> events[i].now <= events[j].now
  }

  /** An admitted request: when, and in the window started when. */
  datatype Admitted = Admitted(key: string, at: int, start: int)

  datatype Run = Run(windows: Windows, decisions: seq<bool>, log: seq<Admitted>)

  function Next(r: Run, perMinute: nat, e: Event): Run {
    match e
    case Timer(now) => r.(windows := Swept(r.windows, now))
    case Request(key, now) =>
      var (ok, ws) := Hit(r.windows, perMinute, key, now);
      Run(ws, r.decisions + [ok], if ok then r.log + [Admitted(key, now, ws[key].start)] else r.log)
  }

  function After(perMinute: nat, events: seq<Event>): Run {
    if events == [] then Run(map[], [], [])
    else Next(After(perMinute, events[..|events| - 1]), perMinute, events[|events| - 1])
  }

  // ----- the timer changes no decision -----

  function Requests(events: seq<Event>): seq<Event> {
    if events == [] then []
    else Requests(events[..|events| - 1]) + if events[|events| - 1].Request? then [events[|events| - 1]] else []
  }

  /** ws is vs without some windows that are over by `now`. */
  ghost predicate SweptFrom(vs: Windows, ws: Windows, now: int) {
    && (forall k :: k in ws ==> k in vs && vs[k] == ws[k])
    && (forall k :: k in vs && k !in ws ==> now - vs[k].start >= WINDOW_MS)
  }

  lemma HitsAgree(vs: Windows, ws: Windows, perMinute: nat, key: string, then_: int, now: int)
    requires SweptFrom(vs, ws, then_) && then_ <= now
    ensures Hit(vs, perMinute, key, now).0 == Hit(ws, perMinute, key, now).0
    ensures Hit(vs, perMinute, key, now).1[key] == Hit(ws, perMinute, key, now).1[key]
    ensures SweptFrom(Hit(vs, perMinute, key, now).1, Hit(ws, perMinute, key, now).1, now)
  {
    if key !in vs || now - vs[key].start >= WINDOW_MS {
      assert Hit(ws, perMinute, key, now) == (true, ws[key := Window(now, 1)]);
    } else {
      assert key in ws && ws[key] == vs[key];
    }
  }

  lemma {:induction false} SweepsAreInvisible(perMinute: nat, events: seq<Event>, now: int)
    requires Clocked(events) && forall i :: 0 <= i < |events| ==> events[i].now <= now
    ensures After(perMinute, events).decisions == After(perMinute, Requests(events)).decisions
    ensures After(perMinute, events).log == After(perMinute, Requests(events)).log
    ensures SweptFrom(After(perMinute, Requests(events)).windows, After(perMinute, events).windows, now)
  {
    if events != [] {
      var front, e := events[..|events| - 1], events[|events| - 1];
      SweepsAreInvisible(perMinute, front, e.now);
      var r, q := After(perMinute, front), After(perMinute, Requests(front));
      StepIsInvisible(r, q, perMinute, e, now);
      AfterRequests(perMinute, front, e);
      assert front + [e] == events;
    }
  }

  lemma StepIsInvisible(r: Run, q: Run, perMinute: nat, e: Event, now: int)
    requires r.decisions == q.decisions && r.log == q.log && SweptFrom(q.windows, r.windows, e.now) && e.now <= now
    ensures var q' := if e.Request? then Next(q, perMinute, e) else q;
            var r' := Next(r, perMinute, e);
            r'.decisions == q'.decisions && r'.log == q'.log && SweptFrom(q'.windows, r'.windows, now)
  {
    if e.Request? {
      HitsAgree(q.windows, r.windows, perMinute, e.key, e.now, e.now);
    }
  }

  lemma AfterRequests(perMinute: nat, front: seq<Event>, e: Event)
    ensures After(perMinute, front + [e]) == Next(After(perMinute, front), perMinute, e)
    ensures After(perMinute, Requests(front + [e])) ==
            if e.Request? then Next(After(perMinute, Requests(front)), perMinute, e) else After(perMinute, Requests(front))
  {
    assert (front + [e])[..|front|] == front;
    var kept := Requests(front);
    if e.Request? {
      assert (kept + [e])[..|kept|] == kept;
    } else {
      var none: seq<Event> := [];
      assert kept + none == kept;
    }
  }

  /** Running the timer at any moments changes no decision. */
  lemma TimerNeverDecides(perMinute: nat, events: seq<Event>)
    requires Clocked(events)
    ensures After(perMinute, events).decisions == After(perMinute, Requests(events)).decisions
  {
    SweepsAreInvisible(perMinute, events, if events == [] then 0 else events[|events| - 1].now);
  }

  // ----- the bound -----

  /** The most one window admits: its first request is never refused. */
  function Most(perMinute: nat): nat {
    if perMinute == 0 then 1 else perMinute
  }

  /** Admitted requests of a key in a half-open interval of one window's length. */
  function CountIn(log: seq<Admitted>, key: string, lo: int): nat {
    if log == [] then 0
    else
      var a := log[|log| - 1];
      CountIn(log[..|log| - 1], key, lo) + if a.key == key && lo <= a.at < lo + WINDOW_MS then 1 else 0
  }

  /** Admitted in the window started at s, and of those the ones after its first instant. */
  function InWindow(log: seq<Admitted>, key: string, s: int): nat {
    if log == [] then 0
    else InWindow(log[..|log| - 1], key, s) + if log[|log| - 1].key == key && log[|log| - 1].start == s then 1 else 0
  }

  function LateInWindow(log: seq<Admitted>, key: string, s: int): nat {
    if log == [] then 0
    else
      var a := log[|log| - 1];
      LateInWindow(log[..|log| - 1], key, s) + if a.key == key && a.start == s && a.at > s then 1 else 0
  }

  ghost predicate Spread(log: seq<Admitted>, key: string) {
    && (forall i :: 0 <= i < |log| && log[i].key == key ==> log[i].start <= log[i].at < log[i].start + WINDOW_MS)
    && (forall i, j :: 0 <= i < j < |log| && log[i].key == key && log[j].key == key ==>
          log[i].start == log[j].start || log[i].start + WINDOW_MS <= log[j].start)
  }

  /** An admission belongs to the key's present window, or to one over before it began. */
  ghost predicate InPast(a: Admitted, ws: Windows) {
    a.key in ws && (a.start == ws[a.key].start || a.start + WINDOW_MS <= ws[a.key].start)
  }

  ghost predicate CountsOk(log: seq<Admitted>, perMinute: nat, key: string, s: int) {
    && InWindow(log, key, s) <= Most(perMinute)
    && LateInWindow(log, key, s) < Most(perMinute)
    && (InWindow(log, key, s) > 0 ==> LateInWindow(log, key, s) < InWindow(log, key, s))
  }

  ghost predicate Inv(r: Run, perMinute: nat, key: string) {
    && Spread(r.log, key)
    && (forall s :: CountsOk(r.log, perMinute, key, s))
    && (forall i :: 0 <= i < |r.log| && r.log[i].key == key ==> InPast(r.log[i], r.windows))
    && (key in r.windows ==> 0 < InWindow(r.log, key, r.windows[key].start) <= r.windows[key].count)
  }

  lemma {:induction false} NoEntries(log: seq<Admitted>, key: string, s: int)
    requires forall i :: 0 <= i < |log| && log[i].key == key ==> log[i].start != s
    ensures InWindow(log, key, s) == 0 && LateInWindow(log, key, s) == 0
  {
    if log != [] { NoEntries(log[..|log| - 1], key, s); }
  }

  lemma CountsOfAppend(log: seq<Admitted>, a: Admitted, key: string)
    ensures forall s :: InWindow(log + [a], key, s) == InWindow(log, key, s) + if a.key == key && a.start == s then 1 else 0
    ensures forall s :: LateInWindow(log + [a], key, s) == LateInWindow(log, key, s) + if a.key == key && a.start == s && a.at > s then 1 else 0
  {
    assert (log + [a])[..|log|] == log;
  }

  lemma OtherKeyKeepsInv(r: Run, perMinute: nat, k: string, now: int, key: string)
    requires Inv(r, perMinute, key) && k != key
    ensures Inv(Next(r, perMinute, Request(k, now)), perMinute, key)
  {
    var q := Next(r, perMinute, Request(k, now));
    if q.log != r.log {
      var a := q.log[|r.log|];
      assert q.log == r.log + [a] && a.key != key;
      CountsOfAppend(r.log, a, key);
      forall s
        ensures CountsOk(q.log, perMinute, key, s)
      {
        assert CountsOk(r.log, perMinute, key, s);
      }
    }
  }

  lemma NewWindowKeepsInv(r: Run, perMinute: nat, now: int, key: string)
    requires Inv(r, perMinute, key)
    requires key in r.windows ==> now - r.windows[key].start >= WINDOW_MS
    ensures Inv(Next(r, perMinute, Request(key, now)), perMinute, key)
  {
    var a := Admitted(key, now, now);
    var q := Next(r, perMinute, Request(key, now));
    assert q.log == r.log + [a];
    CountsOfAppend(r.log, a, key);
    NoEntries(r.log, key, now);
    forall s
      ensures CountsOk(q.log, perMinute, key, s)
    {
      assert CountsOk(r.log, perMinute, key, s);
    }
  }

  lemma RunningWindowKeepsInv(r: Run, perMinute: nat, now: int, key: string)
    requires Inv(r, perMinute, key)
    requires key in r.windows && r.windows[key].start <= now < r.windows[key].start + WINDOW_MS
    ensures Inv(Next(r, perMinute, Request(key, now)), perMinute, key)
  {
    var a := Admitted(key, now, r.windows[key].start);
    var q := Next(r, perMinute, Request(key, now));
    if r.windows[key].count + 1 <= perMinute {
      assert q.log == r.log + [a];
      CountsOfAppend(r.log, a, key);
      forall s
        ensures CountsOk(q.log, perMinute, key, s)
      {
        assert CountsOk(r.log, perMinute, key, s);
      }
    } else {
      assert q.log == r.log;
    }
  }

  lemma RequestKeepsInv(r: Run, perMinute: nat, k: string, now: int, key: string)
    requires Inv(r, perMinute, key)
    requires key in r.windows ==> r.windows[key].start <= now
    ensures Inv(Next(r, perMinute, Request(k, now)), perMinute, key)
  {
    if k != key {
      OtherKeyKeepsInv(r, perMinute, k, now, key);
    } else if key !in r.windows || now - r.windows[key].start >= WINDOW_MS {
      NewWindowKeepsInv(r, perMinute, now, key);
    } else {
      RunningWindowKeepsInv(r, perMinute, now, key);
    }
  }

  lemma {:induction false} RunsKeepInv(perMinute: nat, events: seq<Event>, key: string, now: int)
    requires Clocked(events) && forall i :: 0 <= i < |events| ==> events[i].Request? && events[i].now <= now
    ensures Inv(After(perMinute, events), perMinute, key)
    ensures key in After(perMinute, events).windows ==> After(perMinute, events).windows[key].start <= now
  {
    if events != [] {
      var front, e := events[..|events| - 1], events[|events| - 1];
      RunsKeepInv(perMinute, front, key, e.now);
      RequestKeepsInv(After(perMinute, front), perMinute, e.key, e.now, key);
    }
  }

  /** Requests in the interval belong to at most two windows, one begun before it and one inside it. */
  lemma {:induction false} CountByWindows(log: seq<Admitted>, key: string, lo: int, s1: int, s2: int)
    requires forall i :: 0 <= i < |log| && log[i].key == key && lo <= log[i].at < lo + WINDOW_MS ==>
               (log[i].start < lo ==> log[i].start == s1) && (log[i].start >= lo ==> log[i].start == s2)
    ensures CountIn(log, key, lo) <= LateInWindow(log, key, s1) + InWindow(log, key, s2)
  {
    if log != [] { CountByWindows(log[..|log| - 1], key, lo, s1, s2); }
  }

  lemma TwoWindows(log: seq<Admitted>, key: string, lo: int) returns (s1: int, s2: int)
    requires Spread(log, key)
    ensures forall i :: 0 <= i < |log| && log[i].key == key && lo <= log[i].at < lo + WINDOW_MS ==>
              (log[i].start < lo ==> log[i].start == s1) && (log[i].start >= lo ==> log[i].start == s2)
  {
    s1, s2 := 0, 0;
    if i :| 0 <= i < |log| && log[i].key == key && lo <= log[i].at < lo + WINDOW_MS && log[i].start < lo {
      s1 := log[i].start;
    }
    if i :| 0 <= i < |log| && log[i].key == key && lo <= log[i].at < lo + WINDOW_MS && log[i].start >= lo {
      s2 := log[i].start;
    }
  }

  lemma BoundFromInv(r: Run, perMinute: nat, key: string, lo: int)
    requires Inv(r, perMinute, key)
    ensures CountIn(r.log, key, lo) <= 2 * Most(perMinute) - 1
  {
    var s1, s2 := TwoWindows(r.log, key, lo);
    CountByWindows(r.log, key, lo, s1, s2);
    assert CountsOk(r.log, perMinute, key, s1) && CountsOk(r.log, perMinute, key, s2);
  }

  /** In every run, whatever the timer does, a half-open interval of 60 s admits at most 2·max(1, n) − 1
      requests of a key. */
  lemma IntervalBound(perMinute: nat, events: seq<Event>, key: string, lo: int)
    requires Clocked(events)
    ensures CountIn(After(perMinute, events).log, key, lo) <= 2 * Most(perMinute) - 1
  {
    var now := if events == [] then 0 else events[|events| - 1].now;
    SweepsAreInvisible(perMinute, events, now);
    RequestsAreClocked(events, now);
    RunsKeepInv(perMinute, Requests(events), key, now);
    BoundFromInv(After(perMinute, Requests(events)), perMinute, key, lo);
  }

  lemma {:induction false} RequestsAreClocked(events: seq<Event>, now: int)
    requires Clocked(events) && forall i :: 0 <= i < |events| ==> events[i].now <= now
    ensures Clocked(Requests(events))
    ensures forall i :: 0 <= i < |Requests(events)| ==> Requests(events)[i].Request? && Requests(events)[i].now <= now
  {
    if events != [] { RequestsAreClocked(events[..|events| - 1], events[|events| - 1].now); }
  }

  lemma NextAfter(perMinute: nat, events: seq<Event>, e: Event, r: Run)
    requires After(perMinute, events) == r
    ensures After(perMinute, events + [e]) == Next(r, perMinute, e)
  {
    assert (events + [e])[..|events|] == events;
  }

  /** All requests so far were of one key and admitted. */
  function Stage(key: string, start: int, count: nat, log: seq<Admitted>): Run {
    Run(map[key := Window(start, count)], seq(|log|, i => true), log)
  }

  lemma StageAdmits(perMinute: nat, key: string, start: int, count: nat, log: seq<Admitted>, now: int)
    requires now - start >= WINDOW_MS || count < perMinute
    ensures Next(Stage(key, start, count, log), perMinute, Request(key, now)) ==
            if now - start >= WINDOW_MS then Stage(key, now, 1, log + [Admitted(key, now, now)])
            else Stage(key, start, count + 1, log + [Admitted(key, now, start)])
  {
    assert seq(|log|, i => true) + [true] == seq(|log| + 1, i => true);
    var ws := map[key := Window(start, count)];
    assert forall w: Window :: ws[key := w] == map[key := w];
  }

  function Copies<T>(x: T, n: nat): (xs: seq<T>)
    ensures |xs| == n && forall i :: 0 <= i < n ==> xs[i] == x
  {
    seq(n, _ => x)
  }

  lemma OneMoreCopy<T>(xs: seq<T>, x: T, n: nat)
    requires n > 0
    ensures xs + Copies(x, n) == xs + Copies(x, n - 1) + [x]
  {
  }

  /** n requests at one instant of a running window that has room for them. */
  lemma {:induction false} BurstAdmits(perMinute: nat, events: seq<Event>, key: string, start: int, count: nat, log: seq<Admitted>, now: int, n: nat)
    requires After(perMinute, events) == Stage(key, start, count, log)
    requires now - start < WINDOW_MS && (n > 0 ==> count + n <= perMinute)
    ensures After(perMinute, events + Copies(Request(key, now), n)) == Stage(key, start, count + n, log + Copies(Admitted(key, now, start), n))
  {
    if n == 0 {
      assert events + Copies(Request(key, now), 0) == events && log + Copies(Admitted(key, now, start), 0) == log;
    } else {
      BurstAdmits(perMinute, events, key, start, count, log, now, n - 1);
      OneMoreCopy(events, Request(key, now), n);
      OneMoreCopy(log, Admitted(key, now, start), n);
      var front := log + Copies(Admitted(key, now, start), n - 1);
      NextAfter(perMinute, events + Copies(Request(key, now), n - 1), Request(key, now), Stage(key, start, count + n - 1, front));
      StageAdmits(perMinute, key, start, count + n - 1, front, now);
    }
  }

  lemma CountOfOne(log: seq<Admitted>, a: Admitted, key: string, lo: int)
    ensures CountIn(log + [a], key, lo) == CountIn(log, key, lo) + if a.key == key && lo <= a.at < lo + WINDOW_MS then 1 else 0
  {
    assert (log + [a])[..|log|] == log;
  }

  lemma {:induction false} CountOfCopies(log: seq<Admitted>, a: Admitted, n: nat, key: string, lo: int)
    ensures CountIn(log + Copies(a, n), key, lo) ==
            CountIn(log, key, lo) + if a.key == key && lo <= a.at < lo + WINDOW_MS then n else 0
  {
    if n == 0 {
      assert log + Copies(a, 0) == log;
    } else {
      CountOfCopies(log, a, n - 1, key, lo);
      OneMoreCopy(log, a, n);
      CountOfOne(log + Copies(a, n - 1), a, key, lo);
    }
  }

  /** One request, the rest of its window's requests just before that window is over, and then a whole window's. */
  function TwoBursts(key: string, t: int, n: nat): seq<Event>
    requires n > 0
  {
    [Request(key, t)] + Copies(Request(key, t + WINDOW_MS - 1), n - 1)
    + [Request(key, t + WINDOW_MS)] + Copies(Request(key, t + WINDOW_MS), n - 1)
  }

  function TwoBurstsLog(key: string, t: int, n: nat): seq<Admitted>
    requires n > 0
  {
    [Admitted(key, t, t)] + Copies(Admitted(key, t + WINDOW_MS - 1, t), n - 1)
    + [Admitted(key, t + WINDOW_MS, t + WINDOW_MS)] + Copies(Admitted(key, t + WINDOW_MS, t + WINDOW_MS), n - 1)
  }

  lemma TwoBurstsAdmitted(key: string, t: int, perMinute: nat)
    ensures After(perMinute, TwoBursts(key, t, Most(perMinute))).log == TwoBurstsLog(key, t, Most(perMinute))
  {
    var n, u := Most(perMinute), t + WINDOW_MS;
    var x := Admitted(key, t, t);
    assert After(perMinute, [Request(key, t)]) == Stage(key, t, 1, [x]) by {
      NextAfter(perMinute, [], Request(key, t), Run(map[], [], []));
      assert [] + [Request(key, t)] == [Request(key, t)];
    }
    BurstAdmits(perMinute, [Request(key, t)], key, t, 1, [x], u - 1, n - 1);
    var first, log := [Request(key, t)] + Copies(Request(key, u - 1), n - 1), [x] + Copies(Admitted(key, u - 1, t), n - 1);
    NextAfter(perMinute, first, Request(key, u), Stage(key, t, n, log));
    StageAdmits(perMinute, key, t, n, log, u);
    BurstAdmits(perMinute, first + [Request(key, u)], key, u, 1, log + [Admitted(key, u, u)], u, n - 1);
  }

  lemma TwoBurstsCount(key: string, t: int, n: nat)
    requires n > 0
    ensures CountIn(TwoBurstsLog(key, t, n), key, t + 1) == 2 * n - 1
  {
    var u := t + WINDOW_MS;
    var x, y, z := Admitted(key, t, t), Admitted(key, u - 1, t), Admitted(key, u, u);
    assert CountIn([x], key, t + 1) == 0 by { CountOfOne([], x, key, t + 1); assert [] + [x] == [x]; }
    CountOfCopies([x], y, n - 1, key, t + 1);
    CountOfOne([x] + Copies(y, n - 1), z, key, t + 1);
    CountOfCopies([x] + Copies(y, n - 1) + [z], z, n - 1, key, t + 1);
  }

  /** The bound is reached, for every limit, zero included, every key and every starting time. */
  lemma BoundIsReached(perMinute: nat, key: string, t: int)
    ensures Clocked(TwoBursts(key, t, Most(perMinute)))
    ensures CountIn(After(perMinute, TwoBursts(key, t, Most(perMinute))).log, key, t + 1) == 2 * Most(perMinute) - 1
  {
    TwoBurstsAdmitted(key, t, perMinute);
    TwoBurstsCount(key, t, Most(perMinute));
  }

  // ----- one request, in figures -----

  /** A request of a key without a window, or 60 000 ms or more after its window began, is admitted and begins one;
      in a running window it is admitted iff it is not beyond the limit, and counted either way. */
  lemma RequestMeans(perMinute: nat, events: seq<Event>, key: string, now: int)
    ensures var r, q := After(perMinute, events), After(perMinute, events + [Request(key, now)]);
            var fresh_ := key !in r.windows || now - r.windows[key].start >= 60000;
            && (fresh_ ==> q.decisions == r.decisions + [true] && q.windows == r.windows[key := Window(now, 1)])
            && (!fresh_ ==> q.decisions == r.decisions + [r.windows[key].count < perMinute]
                            && q.windows == r.windows[key := Window(r.windows[key].start, r.windows[key].count + 1)])
  {
    assert (events + [Request(key, now)])[..|events|] == events;
  }

  /** The sweep takes exactly the windows begun 70 000 ms ago or earlier. */
  lemma SweepMeans(perMinute: nat, events: seq<Event>, now: int, key: string)
    ensures var r, q := After(perMinute, events), After(perMinute, events + [Timer(now)]);
            && (key in q.windows <==> key in r.windows && now - r.windows[key].start < 70000)
            && (key in q.windows ==> q.windows[key] == r.windows[key])
            && q.decisions == r.decisions
  {
    assert (events + [Timer(now)])[..|events|] == events;
  }

  /** The events without the requests of other keys. */
  function Only(events: seq<Event>, key: string): seq<Event> {
    if events == [] then []
    else
      var e := events[|events| - 1];
      Only(events[..|events| - 1], key) + if e.Request? && e.key != key then [] else [e]
  }

  lemma OnlyLast(perMinute: nat, front: seq<Event>, e: Event, key: string)
    ensures After(perMinute, Only(front + [e], key)) ==
            if e.Request? && e.key != key then After(perMinute, Only(front, key))
            else Next(After(perMinute, Only(front, key)), perMinute, e)
  {
    assert (front + [e])[..|front|] == front;
    var kept := Only(front, key);
    if e.Request? && e.key != key {
      var none: seq<Event> := [];
      assert kept + none == kept;
    } else {
      assert (kept + [e])[..|kept|] == kept;
    }
  }

  lemma {:induction false} SameWindow(perMinute: nat, events: seq<Event>, key: string)
    ensures var r, q := After(perMinute, events), After(perMinute, Only(events, key));
            (key in r.windows <==> key in q.windows) && (key in r.windows ==> r.windows[key] == q.windows[key])
  {
    if events != [] {
      var front, e := events[..|events| - 1], events[|events| - 1];
      SameWindow(perMinute, front, key);
      OnlyLast(perMinute, front, e, key);
      assert front + [e] == events;
    }
  }

  /** Keys do not share their limit: a request is decided as if no other key had ever been seen. */
  lemma KeysAreApart(perMinute: nat, events: seq<Event>, key: string, now: int)
    ensures Hit(After(perMinute, events).windows, perMinute, key, now).0 ==
            Hit(After(perMinute, Only(events, key)).windows, perMinute, key, now).0
  {
    SameWindow(perMinute, events, key);
  }

  /** The bound in figures. */
  lemma MinuteBound(perMinute: nat, events: seq<Event>, key: string, lo: int)
    requires Clocked(events)
    ensures perMinute >= 1 ==> CountIn(After(perMinute, events).log, key, lo) <= 2 * perMinute - 1
    ensures perMinute == 0 ==> CountIn(After(perMinute, events).log, key, lo) <= 1
  {
    IntervalBound(perMinute, events, key, lo);
  }
}
