/** The sliding-window limiter of one MCP connection (src/mcp/rate-limit.ts). */
module SlidingLimiter {
  import opened Values

  const WINDOW_MS := 60000

  // ----- the evicting queue -----

  /** Drop stale entries from the head; stop at the first one inside the window. */
  function Evicted(queue: seq<int>, cutoff: int): seq<int> {
    if queue != [] && queue[0] < cutoff then Evicted(queue[1..], cutoff) else queue
  }

  datatype Decision = Decision(admitted: bool, queue: seq<int>)

  function Acquired(queue: seq<int>, rpm: nat, now: int): Decision {
    if rpm == 0 then Decision(true, queue)
    else
      var live := Evicted(queue, now - WINDOW_MS);
      if |live| >= rpm then Decision(false, live) else Decision(true, live + [now])
  }

  class RateLimiter {
    const rpm: nat
    var timestamps: seq<int>

    constructor (rpm: nat)
      ensures this.rpm == rpm && timestamps == []
    {
      this.rpm := rpm;
      timestamps := [];
    }

    /** Refused with how long to wait, or recorded. */
    method Acquire(now: int) returns (retryAfterMs: Option<int>)
      modifies this`timestamps
      ensures Decision(retryAfterMs.None?, timestamps) == Acquired(old(timestamps), rpm, now)
      ensures retryAfterMs.Some? ==> timestamps != [] && timestamps[0] >= now - WINDOW_MS
      ensures retryAfterMs.Some? ==> retryAfterMs.value == if timestamps[0] + WINDOW_MS > now then timestamps[0] + WINDOW_MS - now else 0
    {
      if rpm == 0 {
        return None;
      }
      var cutoff := now - WINDOW_MS;
      while |timestamps| > 0 && timestamps[0] < cutoff
        invariant Evicted(timestamps, cutoff) == Evicted(old(timestamps), cutoff)
        decreases |timestamps|
      {
        timestamps := timestamps[1..];
      }
      if |timestamps| >= rpm {
        var wait := timestamps[0] + WINDOW_MS - now;
        return Some(if wait > 0 then wait else 0);
      }
      timestamps := timestamps + [now];
      return None;
    }
  }

  // ----- runs, and the reference that keeps the full history -----

  datatype Run = Run(queue: seq<int>, admitted: seq<int>)

  function Recorded(r: Run, rpm: nat, now: int): Run {
    var d := Acquired(r.queue, rpm, now);
    Run(d.queue, if d.admitted then r.admitted + [now] else r.admitted)
  }

  function After(rpm: nat, times: seq<int>): Run {
    if times == [] then Run([], [])
    else
      var r := After(rpm, times[..|times| - 1]);
      Recorded(r, rpm, times[|times| - 1])
  }

  predicate Sorted(xs: seq<int>) {
    forall i, j :: 0 <= i < j < |xs| ==> xs[i] <= xs[j]
  }

  /** How many of the times lie in the closed interval. */
  function CountIn(xs: seq<int>, lo: int, hi: int): (n: nat)
    ensures n <= |xs|
  {
    if xs == [] then 0
    else CountIn(xs[..|xs| - 1], lo, hi) + if lo <= xs[|xs| - 1] <= hi then 1 else 0
  }

  lemma {:induction false} CountOfConcat(xs: seq<int>, ys: seq<int>, lo: int, hi: int)
    ensures CountIn(xs + ys, lo, hi) == CountIn(xs, lo, hi) + CountIn(ys, lo, hi)
  {
    if ys == [] {
      assert xs + ys == xs;
    } else {
      CountOfConcat(xs, ys[..|ys| - 1], lo, hi);
      assert (xs + ys)[..|xs + ys| - 1] == xs + ys[..|ys| - 1];
    }
  }

  lemma {:induction false} CountNone(xs: seq<int>, lo: int, hi: int)
    requires forall i :: 0 <= i < |xs| ==> xs[i] < lo
    ensures CountIn(xs, lo, hi) == 0
  {
    if xs != [] { CountNone(xs[..|xs| - 1], lo, hi); }
  }

  lemma {:induction false} CountAll(xs: seq<int>, lo: int, hi: int)
    requires forall i :: 0 <= i < |xs| ==> lo <= xs[i] <= hi
    ensures CountIn(xs, lo, hi) == |xs|
  {
    if xs != [] { CountAll(xs[..|xs| - 1], lo, hi); }
  }

  /** Evicting from a suffix of a sorted history leaves exactly the part that is not stale. */
  lemma {:induction false} EvictedFrom(xs: seq<int>, k: nat, cutoff: int) returns (c: nat)
    requires Sorted(xs) && k <= |xs|
    requires forall i :: 0 <= i < k ==> xs[i] < cutoff
    ensures k <= c <= |xs| && Evicted(xs[k..], cutoff) == xs[c..]
    ensures forall i :: 0 <= i < c ==> xs[i] < cutoff
    ensures forall i :: c <= i < |xs| ==> xs[i] >= cutoff
    decreases |xs| - k
  {
    if k < |xs| && xs[k] < cutoff {
      assert xs[k..][1..] == xs[k + 1..];
      c := EvictedFrom(xs, k + 1, cutoff);
    } else {
      c := k;
    }
  }

  /** The queue is the admitted times from k on, and what is before is stale at `now`. */
  ghost predicate CutAt(r: Run, now: int, k: int) {
    && 0 <= k <= |r.admitted|
    && r.queue == r.admitted[k..]
    && forall i :: 0 <= i < k ==> r.admitted[i] < now - WINDOW_MS
  }

  ghost predicate QueueInv(r: Run, now: int) {
    && Sorted(r.admitted)
    && (forall i :: 0 <= i < |r.admitted| ==> r.admitted[i] <= now)
    && exists k :: CutAt(r, now, k)
  }

  lemma CountFromCut(xs: seq<int>, c: nat, lo: int, hi: int)
    requires c <= |xs|
    requires forall i :: 0 <= i < c ==> xs[i] < lo
    requires forall i :: c <= i < |xs| ==> lo <= xs[i] <= hi
    ensures CountIn(xs, lo, hi) == |xs| - c
  {
    assert xs == xs[..c] + xs[c..];
    CountOfConcat(xs[..c], xs[c..], lo, hi);
    CountNone(xs[..c], lo, hi);
    CountAll(xs[c..], lo, hi);
  }

  /** One call, seen from the full history: what is not stale decides. */
  lemma CutOfCall(r: Run, then_: int, now: int) returns (c: nat)
    requires QueueInv(r, then_) && then_ <= now
    ensures c <= |r.admitted| && Evicted(r.queue, now - WINDOW_MS) == r.admitted[c..]
    ensures forall i :: 0 <= i < c ==> r.admitted[i] < now - WINDOW_MS
    ensures forall i :: c <= i < |r.admitted| ==> now - WINDOW_MS <= r.admitted[i] <= now
  {
    var k :| CutAt(r, then_, k);
    c := EvictedFrom(r.admitted, k, now - WINDOW_MS);
  }

  /** What one call does to such a run: the window count of the full history decides. */
  lemma {:induction false} AcquireFromHistory(r: Run, rpm: nat, then_: int, now: int)
    requires QueueInv(r, then_) && then_ <= now && rpm > 0
    ensures Acquired(r.queue, rpm, now).admitted == (CountIn(r.admitted, now - WINDOW_MS, now) < rpm)
    ensures QueueInv(Recorded(r, rpm, now), now)
    ensures Acquired(r.queue, rpm, now).admitted && |r.admitted| >= rpm ==> r.admitted[|r.admitted| - rpm] < now - WINDOW_MS
  {
    var c := CutOfCall(r, then_, now);
    CountFromCut(r.admitted, c, now - WINDOW_MS, now);
    RecordedAtCut(r, rpm, now, c);
  }

  lemma RecordedAtCut(r: Run, rpm: nat, now: int, c: nat)
    requires Sorted(r.admitted) && c <= |r.admitted| && rpm > 0
    requires forall i :: 0 <= i < |r.admitted| ==> r.admitted[i] <= now
    requires Evicted(r.queue, now - WINDOW_MS) == r.admitted[c..]
    requires forall i :: 0 <= i < c ==> r.admitted[i] < now - WINDOW_MS
    ensures QueueInv(Recorded(r, rpm, now), now)
  {
    var live := Evicted(r.queue, now - WINDOW_MS);
    AppendedAtCut(r.admitted, now, c);
    assert CutAt(Run(live, r.admitted), now, c);
    assert CutAt(Run(live + [now], r.admitted + [now]), now, c);
    assert Recorded(r, rpm, now) == Run(live, r.admitted) || Recorded(r, rpm, now) == Run(live + [now], r.admitted + [now]);
  }

  lemma AppendedAtCut(xs: seq<int>, now: int, c: nat)
    requires Sorted(xs) && c <= |xs| && forall i :: 0 <= i < |xs| ==> xs[i] <= now
    ensures Sorted(xs + [now]) && (xs + [now])[c..] == xs[c..] + [now]
    ensures forall i :: 0 <= i < |xs + [now]| ==> (xs + [now])[i] <= now
  {
  }

  /** Admitted times that are rpm apart in number are more than a window apart in time. */
  ghost predicate Spaced(xs: seq<int>, rpm: nat) {
    forall i :: 0 <= i && i + rpm < |xs| ==> xs[i] < xs[i + rpm] - WINDOW_MS
  }

  lemma {:induction false} RunsKeepInv(rpm: nat, times: seq<int>, now: int)
    requires rpm > 0 && Sorted(times) && forall i :: 0 <= i < |times| ==> times[i] <= now
    ensures QueueInv(After(rpm, times), now)
    ensures Spaced(After(rpm, times).admitted, rpm)
  {
    if times == [] {
      assert CutAt(After(rpm, times), now, 0);
    } else {
      var n := |times| - 1;
      RunsKeepInv(rpm, times[..n], times[n]);
      var r := After(rpm, times[..n]);
      AcquireFromHistory(r, rpm, times[n], times[n]);
      QueueInvLater(After(rpm, times), times[n], now);
    }
  }

  lemma QueueInvLater(r: Run, then_: int, now: int)
    requires QueueInv(r, then_) && then_ <= now
    ensures QueueInv(r, now)
  {
    var k :| CutAt(r, then_, k);
    assert CutAt(r, now, k);
  }

  /** The decision is that of counting the last 60 s of the full history: refused iff rpm admitted calls lie in it. */
  lemma DecidesByFullHistory(rpm: nat, times: seq<int>, now: int)
    requires rpm > 0 && Sorted(times + [now])
    ensures Acquired(After(rpm, times).queue, rpm, now).admitted <==>
            CountIn(After(rpm, times).admitted, now - WINDOW_MS, now) < rpm
  {
    assert forall i :: 0 <= i < |times| ==> (times + [now])[i] == times[i];
    assert (times + [now])[|times|] == now;
    RunsKeepInv(rpm, times, now);
    AcquireFromHistory(After(rpm, times), rpm, now, now);
  }

  /** When the last admitted time is in the interval, only the last rpm ones can be. */
  lemma CountOfRecent(xs: seq<int>, rpm: nat, lo: int)
    requires 0 < rpm < |xs| && Sorted(xs)
    requires xs[|xs| - 1 - rpm] < lo
    ensures CountIn(xs, lo, lo + WINDOW_MS) <= rpm
  {
    var c := |xs| - rpm;
    CountNone(xs[..c], lo, lo + WINDOW_MS);
    CountOfConcat(xs[..c], xs[c..], lo, lo + WINDOW_MS);
    assert xs == xs[..c] + xs[c..];
  }

  lemma {:induction false} SpacedCount(xs: seq<int>, rpm: nat, lo: int)
    requires rpm > 0 && Sorted(xs) && Spaced(xs, rpm)
    ensures CountIn(xs, lo, lo + WINDOW_MS) <= rpm
  {
    if |xs| > rpm {
      var n := |xs| - 1;
      if lo <= xs[n] <= lo + WINDOW_MS {
        assert xs[n - rpm] < xs[n - rpm + rpm] - WINDOW_MS;
        CountOfRecent(xs, rpm, lo);
      } else {
        SpacedCount(xs[..n], rpm, lo);
      }
    }
  }

  /** No closed interval of 60 000 ms ever contains more than rpm admitted calls. */
  lemma WindowBound(rpm: nat, times: seq<int>, lo: int)
    requires rpm > 0 && Sorted(times)
    ensures CountIn(After(rpm, times).admitted, lo, lo + WINDOW_MS) <= rpm
  {
    if times != [] {
      RunsKeepInv(rpm, times, times[|times| - 1]);
      SpacedCount(After(rpm, times).admitted, rpm, lo);
    }
  }

  /** Zero disables the limiter: every call is admitted. */
  lemma {:induction false} ZeroAdmitsAll(times: seq<int>)
    ensures After(0, times) == Run([], times)
  {
    if times != [] {
      ZeroAdmitsAll(times[..|times| - 1]);
      assert times == times[..|times| - 1] + [times[|times| - 1]];
    }
  }

  // ----- in figures, and when a refused call can be repeated -----

  /** Any 60 000 ms, both ends included, hold at most rpm admitted calls, and a call is refused only when the last
      60 000 ms hold that many. */
  lemma SixtySeconds(rpm: nat, times: seq<int>, now: int, lo: int)
    requires rpm > 0 && Sorted(times + [now])
    ensures CountIn(After(rpm, times).admitted, lo, lo + 60000) <= rpm
    ensures Acquired(After(rpm, times).queue, rpm, now).admitted <==> CountIn(After(rpm, times).admitted, now - 60000, now) < rpm
  {
    DecidesByFullHistory(rpm, times, now);
    assert forall i :: 0 <= i < |times| ==> (times + [now])[i] == times[i];
    WindowBound(rpm, times, lo);
  }

  lemma {:induction false} EvictedIsShorter(queue: seq<int>, cutoff: int)
    ensures |Evicted(queue, cutoff)| <= |queue|
    ensures |Evicted(queue, cutoff)| == |queue| <==> queue == [] || queue[0] >= cutoff
  {
    if queue != [] && queue[0] < cutoff { EvictedIsShorter(queue[1..], cutoff); }
  }

  lemma {:induction false} QueueIsShort(rpm: nat, times: seq<int>)
    requires rpm > 0
    ensures |After(rpm, times).queue| <= rpm
  {
    if times != [] {
      var n := |times| - 1;
      QueueIsShort(rpm, times[..n]);
      EvictedIsShorter(After(rpm, times[..n]).queue, times[n] - WINDOW_MS);
    }
  }

  /** After a refusal the next call is admitted exactly when more than 60 000 ms have passed since the oldest admitted
      call still in the window; the waiting time named in the refusal ends one millisecond before that. */
  lemma RepeatedCall(rpm: nat, times: seq<int>, now: int, later: int)
    requires rpm > 0 && !Acquired(After(rpm, times).queue, rpm, now).admitted
    ensures var queue := After(rpm, times + [now]).queue;
            && queue != []
            && (Acquired(queue, rpm, later).admitted <==> later > queue[0] + 60000)
  {
    assert (times + [now])[..|times|] == times;
    QueueIsShort(rpm, times + [now]);
    var queue := After(rpm, times + [now]).queue;
    EvictedIsShorter(queue, later - WINDOW_MS);
  }
}
