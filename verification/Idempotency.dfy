/** Idempotent exec: the cache and in-flight tables of a session (src/session/state.ts) and the
    handler that uses them (src/http/routes/exec.ts). */
module Idempotency {
  import opened Values

  const TTL_MS := 300000
  const MAX_ENTRIES: nat := 128

  datatype Entry<R> = Entry(response: R, expires: int)

  /** `order` is the insertion order of the cache's keys; an execution is known by its number. */
  datatype Table<R> = Table(cache: map<string, Entry<R>>, order: seq<string>, inflight: map<string, nat>)

  function Without(order: seq<string>, key: string): (r: seq<string>)
    ensures forall k :: k in r <==> k in order && k != key
    ensures |r| <= |order|
  {
    if order == [] then []
    else if order[0] == key then Without(order[1..], key)
    else [order[0]] + Without(order[1..], key)
  }

  function Dropped<R>(t: Table<R>, key: string): Table<R> {
    t.(cache := t.cache - {key}, order := Without(t.order, key))
  }

  /** `idempotencyGet`: an expired entry is deleted on the way. */
  function Got<R>(t: Table<R>, key: string, now: int): (Option<R>, Table<R>) {
    if key !in t.cache then (None, t)
    else if t.cache[key].expires < now then (None, Dropped(t, key))
    else (Some(t.cache[key].response), t)
  }

  function MadeRoom<R>(t: Table<R>, x: string): Table<R> {
    if |t.cache| >= MAX_ENTRIES && x !in t.cache && t.order != [] then Dropped(t, t.order[0]) else t
  }

  /** `idempotencyPut`: a new key at the cap pushes out the oldest one. */
  function Stored<R>(t: Table<R>, key: string, response: R, now: int): Table<R> {
    var room := MadeRoom(t, key);
    room.(cache := room.cache[key := Entry(response, now + TTL_MS)],
          order := if key in room.cache then room.order else room.order + [key])
  }

  // ----- the handler -----

  datatype Reply<R> = FromCache(response: R) | Join(id: nat) | Started(id: nat)

  datatype State<R> = State(table: Table<R>, nextId: nat, keys: map<nat, string>)

  /** A request with a key arrives: cached, in flight, or executed now. No await lies in between. */
  function Arrived<R>(s: State<R>, key: string, now: int): (Reply<R>, State<R>) {
    var (hit, t) := Got(s.table, key, now);
    if hit.Some? then (FromCache(hit.value), s.(table := t))
    else if key in t.inflight then (Join(t.inflight[key]), s.(table := t))
    else (Started(s.nextId),
          State(t.(inflight := t.inflight[key := s.nextId]), s.nextId + 1, s.keys[s.nextId := key]))
  }

  /** An execution settles: its registration is released, and a response is cached before anything else runs. */
  function Ended<R>(s: State<R>, id: nat, response: Option<R>, now: int): State<R>
    requires id in s.keys
  {
    var key := s.keys[id];
    var t := if key in s.table.inflight && s.table.inflight[key] == id
             then s.table.(inflight := s.table.inflight - {key}) else s.table;
    s.(table := if response.Some? then Stored(t, key, response.value, now) else t)
  }

  // ----- runs and their history -----

  datatype Event<R> = Request(key: string, now: int) | Settle(id: nat, response: Option<R>, now: int)

  /** What happened, in order. */
  datatype Fact<R> =
    | Ran(key: string, id: nat)
    | Cached(key: string, id: nat, response: R, at: int)
    | Threw(key: string, id: nat)
    | Served(key: string, response: R)
    | Shared(key: string, id: nat)

  /** How the last execution of a key stands; `later` counts the responses cached after its own. */
  datatype Standing<R> = Never | Running(id: nat) | Failed(id: nat) | Done(id: nat, response: R, at: int, later: nat)

  function LastRun<R>(log: seq<Fact<R>>, key: string): Standing<R> {
    if log == [] then Never
    else
      var before := LastRun(log[..|log| - 1], key);
      match log[|log| - 1]
      case Ran(k, id) => if k == key then Running(id) else before
      case Threw(k, id) => if k == key then Failed(id) else before
      case Cached(k, id, r, at) =>
        if k == key then Done(id, r, at, 0)
        else if before.Done? then before.(later := before.later + 1)
        else before
      case _ => before
  }

  datatype Run<R> = Run(state: State<R>, log: seq<Fact<R>>, clock: int)

  predicate Possible<R>(r: Run<R>, e: Event<R>) {
    && r.clock <= e.now
    && (e.Settle? ==> e.id in r.state.keys && LastRun(r.log, r.state.keys[e.id]) == Running(e.id))
  }

  function FactOf<R>(r: Run<R>, e: Event<R>): Fact<R>
    requires Possible(r, e)
  {
    match e
    case Request(key, now) =>
      (match Arrived(r.state, key, now).0
       case FromCache(v) => Served(key, v)
       case Join(id) => Shared(key, id)
       case Started(id) => Ran(key, id))
    case Settle(id, response, now) =>
      (match response
       case Some(v) => Cached(r.state.keys[id], id, v, now)
       case None => Threw(r.state.keys[id], id))
  }

  function Next<R>(r: Run<R>, e: Event<R>): Run<R>
    requires Possible(r, e)
  {
    var s := match e
      case Request(key, now) => Arrived(r.state, key, now).1
      case Settle(id, response, now) => Ended(r.state, id, response, now);
    Run(s, r.log + [FactOf(r, e)], e.now)
  }

  /** Any schedule of requests and settlings under a non-decreasing clock; impossible events are skipped. */
  function After<R>(events: seq<Event<R>>, start: int): Run<R> {
    if events == [] then Run(State(Table(map[], [], map[]), 0, map[]), [], start)
    else
      var r := After(events[..|events| - 1], start);
      var e := events[|events| - 1];
      if Possible(r, e) then Next(r, e) else r
  }

  // ----- the invariant -----

  ghost predicate NoRepeats(xs: seq<string>) {
    forall i, j :: 0 <= i < j < |xs| ==> xs[i] != xs[j]
  }

  /** How many keys were inserted after this one and are still there. */
  function Behind(order: seq<string>, key: string): nat {
    if order == [] then 0
    else if order[0] == key then |order| - 1
    else Behind(order[1..], key)
  }

  ghost predicate TableInv<R>(t: Table<R>) {
    && NoRepeats(t.order)
    && (forall k :: k in t.order <==> k in t.cache)
    && |t.order| <= MAX_ENTRIES
  }

  /** What the table holds for a key is what the history says of it. */
  ghost predicate KeyInv<R>(t: Table<R>, clock: int, key: string, st: Standing<R>) {
    && (st.Running? <==> key in t.inflight)
    && (st.Running? ==> t.inflight[key] == st.id)
    && (key in t.cache ==> st.Done? && t.cache[key] == Entry(st.response, st.at + TTL_MS) && st.later >= Behind(t.order, key))
    && (st.Done? && key !in t.cache ==> clock > st.at + TTL_MS || st.later >= MAX_ENTRIES)
  }

  ghost predicate Inv<R>(r: Run<R>) {
    && TableInv(r.state.table)
    && forall key :: KeyInv(r.state.table, r.clock, key, LastRun(r.log, key))
  }

  lemma {:induction false} OrderSize(order: seq<string>)
    requires NoRepeats(order)
    ensures |set k | k in order| == |order|
  {
    if order == [] {
      assert (set k | k in order) == {};
    } else {
      var n := |order| - 1;
      OrderSize(order[..n]);
      assert (set k | k in order) == (set k | k in order[..n]) + {order[n]};
      assert order[n] !in order[..n];
    }
  }

  lemma CacheSize<R>(t: Table<R>)
    requires TableInv(t)
    ensures |t.cache| == |t.order|
  {
    OrderSize(t.order);
    assert (set k | k in t.order) == t.cache.Keys;
  }

  lemma ConsKeepsNoRepeats(x: string, rest: seq<string>)
    requires NoRepeats(rest) && x !in rest
    ensures NoRepeats([x] + rest)
  {
  }

  lemma {:induction false} WithoutKeeps(order: seq<string>, x: string)
    requires NoRepeats(order)
    ensures NoRepeats(Without(order, x))
    ensures x in order ==> |Without(order, x)| == |order| - 1
    ensures forall k :: k in order && k != x ==> Behind(Without(order, x), k) <= Behind(order, k)
  {
    if order != [] {
      WithoutKeeps(order[1..], x);
      var rest := Without(order[1..], x);
      if order[0] == x {
        assert x !in order[1..];
        WithoutAbsent(order[1..], x);
      } else {
        assert ([order[0]] + rest)[1..] == rest;
        assert order[0] !in order[1..];
        assert forall i :: 0 <= i < |rest| ==> rest[i] in rest;
        ConsKeepsNoRepeats(order[0], rest);
      }
    }
  }

  lemma {:induction false} WithoutAbsent(order: seq<string>, x: string)
    requires x !in order
    ensures Without(order, x) == order
  {
    if order != [] { WithoutAbsent(order[1..], x); }
  }

  lemma {:induction false} BehindAppend(order: seq<string>, x: string, k: string)
    requires x !in order
    ensures k in order ==> Behind(order + [x], k) == Behind(order, k) + 1
    ensures Behind(order + [x], x) == 0
  {
    if order != [] {
      BehindAppend(order[1..], x, k);
      assert (order + [x])[1..] == order[1..] + [x];
    } else {
      assert order + [x] == [x];
    }
  }

  lemma DropKeepsTable<R>(t: Table<R>, x: string)
    requires TableInv(t)
    ensures TableInv(Dropped(t, x))
    ensures x in t.cache ==> |Dropped(t, x).order| == |t.order| - 1
  {
    WithoutKeeps(t.order, x);
  }

  /** Dropping one entry leaves the other keys as they were. */
  lemma DropKeepsKey<R>(t: Table<R>, x: string, clock: int, key: string, st: Standing<R>)
    requires TableInv(t) && KeyInv(t, clock, key, st)
    requires key == x && st.Done? ==> clock > st.at + TTL_MS || st.later >= MAX_ENTRIES
    ensures KeyInv(Dropped(t, x), clock, key, st)
  {
    WithoutKeeps(t.order, x);
  }

  lemma GotKeepsInv<R>(t: Table<R>, x: string, clock: int, now: int, key: string, st: Standing<R>)
    requires TableInv(t) && clock <= now && KeyInv(t, clock, key, st)
    ensures TableInv(Got(t, x, now).1) && KeyInv(Got(t, x, now).1, now, key, st)
    ensures Got(t, x, now).0.None? ==> x !in Got(t, x, now).1.cache
  {
    assert KeyInv(t, now, key, st);
    if x in t.cache && t.cache[x].expires < now {
      DropKeepsTable(t, x);
      DropKeepsKey(t, x, now, key, st);
    }
  }

  function OneLater<R>(st: Standing<R>): Standing<R> {
    if st.Done? then st.(later := st.later + 1) else st
  }

  /** The oldest entry goes when the cache is full: 127 later ones are there and one more is coming. */
  lemma MakingRoomKeepsKey<R>(t: Table<R>, x: string, now: int, key: string, st: Standing<R>)
    requires TableInv(t) && x !in t.cache && x !in t.inflight
    ensures TableInv(MadeRoom(t, x)) && |MadeRoom(t, x).order| < MAX_ENTRIES && x !in MadeRoom(t, x).cache
    ensures KeyInv(t, now, key, st) ==>
              var room := MadeRoom(t, x);
              && (st.Running? <==> key in room.inflight) && (st.Running? ==> room.inflight[key] == st.id)
              && (key in room.cache ==> st.Done? && room.cache[key] == Entry(st.response, st.at + TTL_MS) && st.later >= Behind(room.order, key))
              && (st.Done? && key !in room.cache ==> now > st.at + TTL_MS || st.later + 1 >= MAX_ENTRIES)
  {
    CacheSize(t);
    if MadeRoom(t, x) != t {
      assert t.order[0] in t.cache;
      DropKeepsTable(t, t.order[0]);
      WithoutKeeps(t.order, t.order[0]);
    }
  }

  lemma AppendKeepsTable<R>(t: Table<R>, x: string, entry: Entry<R>)
    requires TableInv(t) && |t.order| < MAX_ENTRIES && x !in t.cache
    ensures TableInv(t.(cache := t.cache[x := entry], order := t.order + [x]))
  {
    assert forall k :: k in t.order + [x] <==> k in t.order || k == x;
  }

  /** Caching a response: the new key is last, everyone else has one more behind it. */
  lemma StoreKeepsKey<R>(t: Table<R>, x: string, response: R, now: int, key: string, st: Standing<R>, id: nat)
    requires TableInv(t) && x !in t.cache && x !in t.inflight
    requires key != x ==> KeyInv(t, now, key, st)
    ensures TableInv(Stored(t, x, response, now))
    ensures KeyInv(Stored(t, x, response, now), now, key, if key == x then Done(id, response, now, 0) else OneLater(st))
  {
    MakingRoomKeepsKey(t, x, now, key, st);
    var room := MadeRoom(t, x);
    AppendKeepsTable(room, x, Entry(response, now + TTL_MS));
    assert x !in room.order;
    BehindAppend(room.order, x, key);
    assert Stored(t, x, response, now) == room.(cache := room.cache[x := Entry(response, now + TTL_MS)], order := room.order + [x]);
  }

  lemma StandingOfAppend<R>(log: seq<Fact<R>>, f: Fact<R>, key: string)
    ensures LastRun(log + [f], key) ==
            var before := LastRun(log, key);
            match f
            case Ran(k, id) => if k == key then Running(id) else before
            case Threw(k, id) => if k == key then Failed(id) else before
            case Cached(k, id, r, at) =>
              if k == key then Done(id, r, at, 0)
              else if before.Done? then before.(later := before.later + 1)
              else before
            case _ => before
  {
    assert (log + [f])[..|log|] == log;
  }

  lemma {:induction false} RequestKeepsInv<R>(r: Run<R>, key: string, now: int)
    requires Inv(r) && Possible(r, Request(key, now))
    ensures Inv(Next(r, Request(key, now)))
  {
    var e := Event<R>.Request(key, now);
    var q := Next(r, e);
    GotKeepsInv(r.state.table, key, r.clock, now, key, LastRun(r.log, key));
    forall k
      ensures KeyInv(q.state.table, q.clock, k, LastRun(q.log, k))
    {
      assert KeyInv(r.state.table, r.clock, k, LastRun(r.log, k));
      GotKeepsInv(r.state.table, key, r.clock, now, k, LastRun(r.log, k));
      StandingOfAppend(r.log, FactOf(r, e), k);
    }
  }

  lemma SettleKeepsInv<R>(r: Run<R>, id: nat, response: Option<R>, now: int)
    requires Inv(r) && Possible(r, Settle(id, response, now))
    ensures Inv(Next(r, Settle(id, response, now)))
  {
    var e := Event<R>.Settle(id, response, now);
    var q := Next(r, e);
    var x := r.state.keys[id];
    assert KeyInv(r.state.table, r.clock, x, LastRun(r.log, x));
    var t := r.state.table.(inflight := r.state.table.inflight - {x});
    if response.Some? { StoreKeepsKey(t, x, response.value, now, x, LastRun(r.log, x), id); }
    forall k
      ensures KeyInv(q.state.table, q.clock, k, LastRun(q.log, k))
    {
      assert KeyInv(r.state.table, r.clock, k, LastRun(r.log, k));
      StandingOfAppend(r.log, FactOf(r, e), k);
      if k != x { assert KeyInv(t, now, k, LastRun(r.log, k)); }
      if response.Some? { StoreKeepsKey(t, x, response.value, now, k, LastRun(r.log, k), id); }
    }
  }

  lemma {:induction false} RunsKeepInv<R>(events: seq<Event<R>>, start: int)
    ensures Inv(After(events, start))
  {
    if events != [] {
      RunsKeepInv(events[..|events| - 1], start);
      var r, e := After(events[..|events| - 1], start), events[|events| - 1];
      if Possible(r, e) {
        match e
        case Request(key, now) => RequestKeepsInv(r, key, now);
        case Settle(id, response, now) => SettleKeepsInv(r, id, response, now);
      }
    }
  }

  /** At most once: in any run, a request starts an execution only if the key was never executed, its
      last execution threw, its cached response has expired, or 128 later responses were cached. */
  lemma AtMostOnce<R>(events: seq<Event<R>>, start: int, key: string, now: int)
    requires After(events, start).clock <= now
    requires Arrived(After(events, start).state, key, now).0.Started?
    ensures match LastRun(After(events, start).log, key)
            case Never => true
            case Failed(_) => true
            case Running(_) => false
            case Done(_, _, at, later) => now > at + TTL_MS || later >= MAX_ENTRIES
  {
    RunsKeepInv(events, start);
    var r := After(events, start);
    assert KeyInv(r.state.table, r.clock, key, LastRun(r.log, key));
  }

  /** A hit is the response of the key's last execution, still fresh; a join is with that execution itself. */
  lemma {:induction false} HitsAreLast<R>(events: seq<Event<R>>, start: int, key: string, now: int)
    requires After(events, start).clock <= now
    ensures var st := LastRun(After(events, start).log, key);
            match Arrived(After(events, start).state, key, now).0
            case FromCache(v) => st.Done? && v == st.response && now <= st.at + TTL_MS
            case Join(id) => st == Running(id)
            case Started(_) => true
  {
    RunsKeepInv(events, start);
    var r := After(events, start);
    assert KeyInv(r.state.table, r.clock, key, LastRun(r.log, key));
  }

  /** The cache never holds more than 128 responses. */
  lemma CacheIsBounded<R>(events: seq<Event<R>>, start: int)
    ensures |After(events, start).state.table.cache| <= MAX_ENTRIES
  {
    RunsKeepInv(events, start);
    CacheSize(After(events, start).state.table);
  }

  // ----- the session's tables, updated in place -----

  class IdempotencyTables<R> {
    var cache: map<string, Entry<R>>
    var order: seq<string>
    var inflight: map<string, nat>

    constructor ()
      ensures Contents() == Table(map[], [], map[])
    {
      cache, order, inflight := map[], [], map[];
    }

    function Contents(): Table<R>
      reads this
    {
      Table(cache, order, inflight)
    }

    method Get(key: string, now: int) returns (hit: Option<R>)
      modifies this
      ensures (hit, Contents()) == Got(old(Contents()), key, now)
    {
      if key !in cache {
        return None;
      }
      if cache[key].expires < now {
        cache := cache - {key};
        order := Without(order, key);
        return None;
      }
      return Some(cache[key].response);
    }

    method Put(key: string, response: R, now: int)
      modifies this
      ensures Contents() == Stored(old(Contents()), key, response, now)
    {
      if |cache| >= MAX_ENTRIES && key !in cache {
        if |order| > 0 {
          var oldest := order[0];
          cache := cache - {oldest};
          order := Without(order, oldest);
        }
      }
      if key !in cache {
        order := order + [key];
      }
      cache := cache[key := Entry(response, now + TTL_MS)];
    }

    /** The handler's get, in-flight check and registration, which run without an await in between. */
    method Arrive(key: string, nextId: nat, now: int) returns (reply: Reply<R>)
      modifies this
      ensures var a := Arrived(State(old(Contents()), nextId, map[]), key, now);
              reply == a.0 && Contents() == a.1.table
    {
      var hit := Get(key, now);
      if hit.Some? {
        return FromCache(hit.value);
      }
      if key in inflight {
        return Join(inflight[key]);
      }
      inflight := inflight[key := nextId];
      return Started(nextId);
    }

    /** Release on settling, then cache the response if there is one. */
    method End(key: string, id: nat, response: Option<R>, now: int)
      modifies this
      ensures Contents() == Ended(State(old(Contents()), 0, map[id := key]), id, response, now).table
    {
      if key in inflight && inflight[key] == id {
        inflight := inflight - {key};
      }
      if response.Some? {
        Put(key, response.value, now);
      }
    }
  }

  // ----- exactly what a request is told -----

  /** In every run a request with a key is answered by how the last execution of the key stands: none, or one that
      threw, and it is executed; one under way, and it joins that; one that answered at most 300 000 ms ago with fewer
      than 128 responses cached since, and it gets that response; one whose answer is older, and it is executed. */
  lemma {:induction false} RepliesMean<R>(events: seq<Event<R>>, start: int, key: string, now: int)
    requires After(events, start).clock <= now
    ensures var st, r := LastRun(After(events, start).log, key), Arrived(After(events, start).state, key, now).0;
            && (st.Never? || st.Failed? ==> r == Started(After(events, start).state.nextId))
            && (st.Running? ==> r == Join(st.id))
            && (st.Done? && now <= st.at + 300000 && st.later < 128 ==> r == FromCache(st.response))
            && (st.Done? && now > st.at + 300000 ==> r == Started(After(events, start).state.nextId))
  {
    AtMostOnceOrFresh(events, start, key, now);
    HitsAreLast(events, start, key, now);
  }

  lemma AtMostOnceOrFresh<R>(events: seq<Event<R>>, start: int, key: string, now: int)
    requires After(events, start).clock <= now
    ensures var st, r := LastRun(After(events, start).log, key), Arrived(After(events, start).state, key, now).0;
            && (r.Started? ==> r.id == After(events, start).state.nextId)
            && (r.Started? ==> !st.Running? && (st.Done? ==> now > st.at + 300000 || st.later >= 128))
  {
    if Arrived(After(events, start).state, key, now).0.Started? { AtMostOnce(events, start, key, now); }
  }
}
