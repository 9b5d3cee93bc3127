/** The two coalescing writers, `markDirty`/`runFlush` (src/session/state.ts) and `schedulePersist`
    (src/exec/pipeline-bounded.ts), against one specification. Writing may succeed or fail; a snapshot
    is the number of marks it contains. */
module Persisters {
  import opened Values

  // ----- the specification -----

  /** Nothing in flight, or one write of a snapshot, possibly with another one owed after it. */
  datatype Writer = Idle | Writing(snap: nat, again: bool)

  /** marks made so far, what is in flight, the snapshot last attempted, what the file holds, and
      whether the attempt that settled last went through */
  datatype Spec = Spec(marks: nat, writer: Writer, attempted: nat, disk: nat, lastOk: bool)

  const INIT := Spec(0, Idle, 0, 0, true)

  /** A mutation is made and marked: a write starts at once, or is owed. */
  function Mark(s: Spec): Spec {
    var n := s.marks + 1;
    match s.writer
    case Idle => s.(marks := n, writer := Writing(n, false), attempted := n)
    case Writing(snap, _) => s.(marks := n, writer := Writing(snap, true))
  }

  /** The write in flight settles: an owed write starts with a fresh snapshot. */
  function Settle(s: Spec, ok: bool): Spec
    requires s.writer.Writing?
  {
    var written := s.(disk := if ok then s.writer.snap else s.disk, lastOk := ok);
    if s.writer.again then written.(writer := Writing(s.marks, false), attempted := s.marks)
    else written.(writer := Idle)
  }

  datatype Event = Marked | Settled(ok: bool)

  /** The state after a schedule; a settling without a write in flight cannot happen and is skipped. */
  function After(events: seq<Event>): Spec {
    if events == [] then INIT
    else
      var s := After(events[..|events| - 1]);
      match events[|events| - 1]
      case Marked => Mark(s)
      case Settled(ok) => if s.writer.Writing? then Settle(s, ok) else s
  }

  // ----- what holds in every run -----

  ghost predicate Inv(s: Spec) {
    && s.disk <= s.marks && s.attempted <= s.marks
    && (s.writer.Idle? ==> s.attempted == s.marks && (s.lastOk ==> s.disk == s.attempted))
    && (s.writer.Writing? ==> s.attempted == s.writer.snap && s.disk <= s.writer.snap && (s.writer.again <==> s.writer.snap < s.marks))
  }

  lemma {:induction false} RunsKeepInv(events: seq<Event>)
    ensures Inv(After(events))
  {
    if events != [] { RunsKeepInv(events[..|events| - 1]); }
  }

  /** Idle, the last attempt contained every mark; if it went through, the file is up to date. */
  lemma IdleIsUpToDate(events: seq<Event>)
    requires After(events).writer.Idle?
    ensures After(events).attempted == After(events).marks
    ensures After(events).lastOk ==> After(events).disk == After(events).marks
  {
    RunsKeepInv(events);
  }

  /** The file never goes back, and no mark is ever lost from the count. */
  lemma {:induction false} RunsOnlyAdvance(events: seq<Event>, more: seq<Event>)
    ensures After(events).marks <= After(events + more).marks
    ensures After(events).disk <= After(events + more).disk
    decreases |more|
  {
    if more == [] {
      assert events + more == events;
    } else {
      var front := more[..|more| - 1];
      RunsOnlyAdvance(events, front);
      RunsKeepInv(events + front);
      assert (events + more)[..|events + more| - 1] == events + front;
    }
  }

  /** `flush()` called after `events` resolves when the writer is next idle: every mark made before the
      call is then in the last attempt and, if that went through, in the file. */
  lemma FlushCoversEarlierMarks(events: seq<Event>, more: seq<Event>)
    requires After(events + more).writer.Idle?
    ensures After(events + more).attempted >= After(events).marks
    ensures After(events + more).lastOk ==> After(events + more).disk >= After(events).marks
  {
    RunsOnlyAdvance(events, more);
    IdleIsUpToDate(events + more);
  }

  // ----- how many writes -----

  function Writes(events: seq<Event>): nat {
    if events == [] then 0
    else
      var front := events[..|events| - 1];
      var s := After(front);
      Writes(front) +
      match events[|events| - 1]
      case Marked => if s.writer.Idle? then 1 else 0
      case Settled(_) => if s.writer.Writing? && s.writer.again then 1 else 0
  }

  function Settlings(events: seq<Event>): nat {
    if events == [] then 0
    else
      var front := events[..|events| - 1];
      Settlings(front) + if events[|events| - 1].Settled? && After(front).writer.Writing? then 1 else 0
  }

  /** As many writes have settled as have started, but for the current one. */
  lemma {:induction false} WritesSettleInTurn(events: seq<Event>)
    ensures Writes(events) == Settlings(events) + if After(events).writer.Writing? then 1 else 0
  {
    if events != [] { WritesSettleInTurn(events[..|events| - 1]); }
  }

  function Marks(n: nat): (r: seq<Event>)
    ensures |r| == n
  {
    seq(n, _ => Marked)
  }

  /** Any number of marks during a write cost exactly one further write. */
  lemma {:induction false} MarksCoalesce(events: seq<Event>, n: nat, ok: bool)
    requires n > 0 && After(events).writer.Writing?
    ensures Writes(events + Marks(n) + [Settled(ok)]) == Writes(events) + 1
    ensures After(events + Marks(n) + [Settled(ok)]).attempted == After(events).marks + n
  {
    var during := events + Marks(n);
    MarksAreOwed(events, n);
    RunsKeepInv(during);
    assert (during + [Settled(ok)])[..|during|] == during;
  }

  lemma {:induction false} MarksAreOwed(events: seq<Event>, n: nat)
    requires After(events).writer.Writing?
    ensures Writes(events + Marks(n)) == Writes(events)
    ensures var s := After(events + Marks(n));
            s.marks == After(events).marks + n && s.writer.Writing? && (n > 0 ==> s.writer.again)
  {
    if n == 0 {
      assert events + Marks(0) == events;
    } else {
      MarksAreOwed(events, n - 1);
      assert (events + Marks(n))[..|events + Marks(n)| - 1] == events + Marks(n - 1);
    }
  }

  /** Without further marks two settlings bring the writer to rest. */
  lemma RestsAfterTwo(events: seq<Event>, ok: bool, ok': bool)
    ensures After(events + [Settled(ok), Settled(ok')]).writer.Idle?
  {
    var one := events + [Settled(ok)];
    var two := events + [Settled(ok), Settled(ok')];
    assert two[..|two| - 1] == one && one[..|one| - 1] == events;
  }

  // ----- the two writers, which keep a flag, a registration and whatever writes are running -----

  /** `flag` is `persistDirty` or `kick.pending`; `registered` says that `persistFlush` or an entry of
      `pendingWrites` is there. Nothing here says how many writes can run. */
  datatype Machine = Machine(flag: bool, registered: bool, running: multiset<nat>, marks: nat, attempted: nat, disk: nat, lastOk: bool)

  const AT_REST := Machine(false, false, multiset{}, 0, 0, 0, true)

  /** A write of what there is now is started, beside any that already run. */
  function Started(m: Machine): Machine {
    m.(running := m.running + multiset{m.marks}, attempted := m.marks)
  }

  /** The head of both loops: clear the flag and write once more, or unregister. */
  function LoopHead(m: Machine): Machine {
    if m.flag then Started(m.(flag := false)) else m.(registered := false)
  }

  /** `markDirty` and `runFlush` (src/session/state.ts). */
  function MarkedDirty(m: Machine): Machine {
    var d := m.(flag := true, marks := m.marks + 1);
    if d.registered then d else LoopHead(d.(registered := true))
  }

  /** `schedulePersist` (src/exec/pipeline-bounded.ts), with a fresh record when there is none. */
  function Scheduled(m: Machine): Machine {
    var d := m.(marks := m.marks + 1);
    if d.registered then d.(flag := true) else Started(d.(registered := true, flag := false))
  }

  /** One of the running writes settles and the loop that awaited it goes on. */
  function WriteSettled(m: Machine, snap: nat, ok: bool): Machine {
    LoopHead(m.(running := m.running - multiset{snap}, disk := if ok then snap else m.disk, lastOk := ok))
  }

  ghost predicate MachineInv(m: Machine) {
    && m.running == (if m.registered then multiset{m.attempted} else multiset{})
    && m.disk <= m.attempted <= m.marks
    && (m.flag ==> m.registered)
    && (m.flag <==> m.attempted < m.marks)
    && (!m.registered && m.lastOk ==> m.disk == m.attempted)
  }

  /** What the specification sees of a machine. */
  function AsSpec(m: Machine): Spec {
    Spec(m.marks, if m.registered then Writing(m.attempted, m.flag) else Idle, m.attempted, m.disk, m.lastOk)
  }

  /** Marking, by either writer, is marking in the specification. */
  lemma MarkRefines(m: Machine)
    requires MachineInv(m)
    ensures MarkedDirty(m) == Scheduled(m)
    ensures MachineInv(MarkedDirty(m)) && AsSpec(MarkedDirty(m)) == Mark(AsSpec(m))
  {
  }

  lemma SettleRefines(m: Machine, snap: nat, ok: bool)
    requires MachineInv(m) && snap in m.running
    ensures MachineInv(WriteSettled(m, snap, ok))
    ensures AsSpec(m).writer.Writing? && AsSpec(WriteSettled(m, snap, ok)) == Settle(AsSpec(m), ok)
  {
    assert snap == m.attempted && m.registered;
    assert m.running - multiset{snap} == multiset{};
  }

  datatype Step = Mutates | Settles(snap: nat, ok: bool)

  datatype Source = StateTs | PipelineTs

  function Ran(source: Source, steps: seq<Step>): Machine {
    if steps == [] then AT_REST
    else
      var m := Ran(source, steps[..|steps| - 1]);
      match steps[|steps| - 1]
      case Mutates => if source.StateTs? then MarkedDirty(m) else Scheduled(m)
      case Settles(snap, ok) => if snap in m.running then WriteSettled(m, snap, ok) else m
  }

  /** The steps that do something, as the specification's events. */
  function Seen(source: Source, steps: seq<Step>): seq<Event> {
    if steps == [] then []
    else
      var n := |steps| - 1;
      Seen(source, steps[..n]) +
      match steps[n]
      case Mutates => [Marked]
      case Settles(snap, ok) => if snap in Ran(source, steps[..n]).running then [Settled(ok)] else []
  }

  /** Every run of either writer is a run of the specification. */
  lemma {:induction false} RunsRefine(source: Source, steps: seq<Step>)
    ensures MachineInv(Ran(source, steps))
    ensures AsSpec(Ran(source, steps)) == After(Seen(source, steps))
  {
    if steps != [] {
      var n := |steps| - 1;
      var m, seen := Ran(source, steps[..n]), Seen(source, steps[..n]);
      RunsRefine(source, steps[..n]);
      match steps[n]
      case Mutates =>
        MarkRefines(m);
        assert (seen + [Marked])[..|seen|] == seen;
      case Settles(snap, ok) =>
        if snap in m.running {
          SettleRefines(m, snap, ok);
          assert (seen + [Settled(ok)])[..|seen|] == seen;
        } else {
          var none: seq<Event> := [];
          assert seen + none == seen;
        }
    }
  }

  /** Never two writes in flight, and one exactly while the writer is registered. */
  lemma OneWriteAtATime(source: Source, steps: seq<Step>)
    ensures |Ran(source, steps).running| <= 1
    ensures |Ran(source, steps).running| == 1 <==> Ran(source, steps).registered
  {
    RunsRefine(source, steps);
  }

  /** Without a registration nothing is in flight and the last attempt held every mark. */
  lemma UnregisteredIsUpToDate(source: Source, steps: seq<Step>)
    requires !Ran(source, steps).registered
    ensures var m := Ran(source, steps);
            m.running == multiset{} && m.attempted == m.marks && (m.lastOk ==> m.disk == m.marks)
  {
    RunsRefine(source, steps);
    IdleIsUpToDate(Seen(source, steps));
  }

  // ----- src/session/state.ts -----

  /** `persistDirty` and `persistFlush`; the loop body runs from one settled write to the next. */
  class StatePersister {
    const enabled: bool
    var persistDirty: bool
    var persistFlush: bool
    ghost var running: multiset<nat>
    ghost var marks: nat
    ghost var attempted: nat
    ghost var disk: nat
    ghost var lastOk: bool

    ghost function Abs(): Machine
      reads this
    {
      Machine(persistDirty, persistFlush, running, marks, attempted, disk, lastOk)
    }

    /** At most one write is running, and one exactly while a flush promise exists. */
    ghost predicate Valid()
      reads this
    {
      MachineInv(Abs()) && |running| <= 1 && (|running| == 1 <==> persistFlush)
    }

    constructor (enabled: bool)
      ensures Valid() && Abs() == AT_REST && this.enabled == enabled
    {
      this.enabled := enabled;
      persistDirty, persistFlush := false, false;
      running, marks, attempted, disk, lastOk := multiset{}, 0, 0, 0, true;
    }

    /** The call of `writeState`, wherever it is made. */
    method WriteState(now: nat)
      requires now == marks
      modifies this`running, this`attempted
      ensures Abs() == Started(old(Abs()))
    {
      running := running + multiset{now};
      attempted := now;
    }

    /** The head of the flush loop. */
    method LoopTop(now: nat)
      requires now == marks
      modifies this
      ensures Abs() == LoopHead(old(Abs()))
    {
      if persistDirty {
        persistDirty := false;
        WriteState(now);
      } else {
        persistFlush := false;
      }
    }

    method RunFlush(now: nat)
      requires now == marks
      modifies this
      ensures Abs() == if old(persistFlush) then old(Abs()) else LoopHead(old(Abs()).(registered := true))
    {
      if persistFlush {
        return;
      }
      persistFlush := true;
      LoopTop(now);
    }

    /** `now` counts the mutations including the one being marked. */
    method MarkDirty(now: nat)
      requires Valid() && now == marks + 1
      modifies this
      ensures Valid()
      ensures if enabled then Abs() == MarkedDirty(old(Abs())) && AsSpec(Abs()) == Mark(AsSpec(old(Abs()))) else Abs() == old(Abs())
    {
      if !enabled {
        return;
      }
      MarkRefines(Abs());
      persistDirty := true;
      marks := now;
      RunFlush(now);
    }

    method OnWriteSettled(snap: nat, ok: bool, now: nat)
      requires Valid() && snap in running && now == marks
      modifies this
      ensures Valid() && Abs() == WriteSettled(old(Abs()), snap, ok) && AsSpec(Abs()) == Settle(AsSpec(old(Abs())), ok)
    {
      SettleRefines(Abs(), snap, ok);
      running := running - multiset{snap};
      if ok {
        disk := snap;
      }
      lastOk := ok;
      LoopTop(now);
    }

    /** `flush`: there is something to wait for iff a flush promise exists. */
    method MustWait() returns (wait: bool)
      requires Valid()
      ensures wait <==> |running| == 1
      ensures !wait ==> running == multiset{} && attempted == marks && (lastOk ==> disk == marks)
    {
      return persistFlush;
    }
  }

  // ----- src/exec/pipeline-bounded.ts -----

  /** `kick` is the pending flag of the session's record in `pendingWrites`, absent when there is no record. */
  class BoundedPersister {
    /** Whether the session has a directory to persist to. */
    const enabled: bool
    var kick: Option<bool>
    ghost var running: multiset<nat>
    ghost var marks: nat
    ghost var attempted: nat
    ghost var disk: nat
    ghost var lastOk: bool

    ghost function Abs(): Machine
      reads this
    {
      Machine(kick == Some(true), kick.Some?, running, marks, attempted, disk, lastOk)
    }

    /** At most one write is running, and one exactly while there is a record. */
    ghost predicate Valid()
      reads this
    {
      MachineInv(Abs()) && |running| <= 1 && (|running| == 1 <==> kick.Some?)
    }

    constructor (enabled: bool)
      ensures Valid() && Abs() == AT_REST && this.enabled == enabled
    {
      this.enabled := enabled;
      kick := None;
      running, marks, attempted, disk, lastOk := multiset{}, 0, 0, 0, true;
    }

    /** The call of `writeBoundedState`, wherever it is made. */
    method WriteBoundedState(now: nat)
      requires now == marks
      modifies this`running, this`attempted
      ensures Abs() == Started(old(Abs()))
    {
      running := running + multiset{now};
      attempted := now;
    }

    method SchedulePersist(now: nat)
      requires Valid() && now == marks + 1
      modifies this
      ensures Valid()
      ensures if enabled then Abs() == Scheduled(old(Abs())) && AsSpec(Abs()) == Mark(AsSpec(old(Abs()))) else Abs() == old(Abs())
    {
      if !enabled {
        return;
      }
      MarkRefines(Abs());
      marks := now;
      if kick.Some? {
        kick := Some(true);
        return;
      }
      kick := Some(false);
      WriteBoundedState(now);
    }

    method OnWriteSettled(snap: nat, ok: bool, now: nat)
      requires Valid() && snap in running && now == marks
      modifies this
      ensures Valid() && Abs() == WriteSettled(old(Abs()), snap, ok) && AsSpec(Abs()) == Settle(AsSpec(old(Abs())), ok)
    {
      SettleRefines(Abs(), snap, ok);
      running := running - multiset{snap};
      if ok {
        disk := snap;
      }
      lastOk := ok;
      if kick.value {
        kick := Some(false);
        WriteBoundedState(now);
      } else {
        kick := None;
      }
    }
  }

  // ----- what a mark and a settling do -----

  /** A mark at rest starts a write that contains it; during a write it is owed, and the write goes on. */
  lemma MarkMeans(events: seq<Event>)
    ensures var s, t := After(events), After(events + [Marked]);
            && t.marks == s.marks + 1 && t.disk == s.disk && t.writer.Writing? && t.lastOk == s.lastOk
            && (s.writer.Idle? ==> t.attempted == t.marks && t.writer.snap == t.marks && !t.writer.again)
            && (s.writer.Writing? ==> t.attempted == s.attempted && t.writer.snap == s.writer.snap && t.writer.again)
  {
    assert (events + [Marked])[..|events|] == events;
  }

  /** A write that goes through leaves its snapshot in the file, one that fails what was there; with a mark owed
      another write of all marks follows, otherwise the writer rests. */
  lemma SettlingMeans(events: seq<Event>, ok: bool)
    requires After(events).writer.Writing?
    ensures var s, t := After(events), After(events + [Settled(ok)]);
            && t.marks == s.marks && t.lastOk == ok && t.disk == (if ok then s.attempted else s.disk)
            && (t.writer.Writing? <==> s.attempted < s.marks)
            && (t.writer.Writing? ==> t.writer.snap == t.marks && t.attempted == t.marks && !t.writer.again)
            && (t.writer.Idle? ==> t.attempted == s.attempted)
  {
    RunsKeepInv(events);
    assert (events + [Settled(ok)])[..|events|] == events;
  }
}
