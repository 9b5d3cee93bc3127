/** Transcript appends that overlap (src/session/state.ts): an append waits for the rename and for the write of
    its line before it counts it, and nothing keeps another request from appending in between. */
module Overlap {
  import opened Values
  import opened Transcript

  /** Where an append stands: before and after the rename takes effect, and before and after its line is in the file. */
  datatype Phase =
    | Renaming(line: Line, stamp: nat)
    | Renamed(line: Line)
    | Writing(line: Line)
    | Written(line: Line)

  /** `current` is absent between a rename and the next opening or write; `written` and `stamps` record the lines
      and renames in the order in which they took effect. */
  datatype System = System(rotated: map<nat, seq<Line>>, current: Option<seq<Line>>, bytes: nat, historySize: nat,
                           flights: map<nat, Phase>, next: nat, written: seq<Line>, stamps: seq<nat>)

  const FRESH := System(map[], Some([]), 0, 0, map[], 0, [], [])

  datatype Event = Arrives(line: Line, stamp: nat) | Renames(id: nat) | Resumes(id: nat) | Writes(id: nat) | Counts(id: nat)

  /** The size check, and the write of the line begins; a line over the cap is refused. */
  function Checked(sys: System, caps: Caps, id: nat, line: Line): System {
    if line.bytes > caps.hard then sys.(flights := sys.flights - {id}) else sys.(flights := sys.flights[id := Writing(line)])
  }

  /** A step of the append with that number; one that is not at that point does nothing. */
  function Next(sys: System, caps: Caps, e: Event): System {
    match e
    case Arrives(line, stamp) =>
      var here := sys.(next := sys.next + 1);
      if sys.bytes > 0 && sys.bytes + line.bytes > caps.soft then here.(flights := here.flights[sys.next := Renaming(line, stamp)])
      else Checked(here, caps, sys.next, line)
    case Renames(id) =>
      if id !in sys.flights || !sys.flights[id].Renaming? then sys
      else
        var p := sys.flights[id];
        var after := sys.(flights := sys.flights[id := Renamed(p.line)]);
        if sys.current.None? then after
        else after.(rotated := sys.rotated[p.stamp := sys.current.value], current := None, stamps := sys.stamps + [p.stamp])
    case Resumes(id) =>
      if id !in sys.flights || !sys.flights[id].Renamed? then sys
      else Checked(sys.(current := if sys.current.None? then Some([]) else sys.current, bytes := 0), caps, id, sys.flights[id].line)
    case Writes(id) =>
      if id !in sys.flights || !sys.flights[id].Writing? then sys
      else
        var line := sys.flights[id].line;
        sys.(current := Some((if sys.current.Some? then sys.current.value else []) + [line]),
             written := sys.written + [line], flights := sys.flights[id := Written(line)])
    case Counts(id) =>
      if id !in sys.flights || !sys.flights[id].Written? then sys
      else
        sys.(bytes := sys.bytes + sys.flights[id].line.bytes, historySize := sys.historySize + 1, flights := sys.flights - {id})
  }

  function Ran(caps: Caps, events: seq<Event>): System {
    if events == [] then FRESH else Next(Ran(caps, events[..|events| - 1]), caps, events[|events| - 1])
  }

  function CurrentLines(sys: System): seq<Line> {
    if sys.current.Some? then sys.current.value else []
  }

  function OnDisk(sys: System): seq<Line> {
    InOrder(sys.rotated) + CurrentLines(sys)
  }

  // ----- what every overlap keeps -----

  ghost predicate Kept(sys: System) {
    && OnDisk(sys) == sys.written
    && sys.rotated.Keys == (set i | 0 <= i < |sys.stamps| :: sys.stamps[i])
  }

  lemma RenameKeeps(sys: System, stamp: nat)
    requires Kept(sys) && sys.current.Some? && Increasing(sys.stamps + [stamp])
    ensures Kept(sys.(rotated := sys.rotated[stamp := sys.current.value], current := None, stamps := sys.stamps + [stamp]))
  {
    LastIsGreatest(sys.stamps, stamp);
    KeysOfStamps(sys.rotated, sys.stamps, stamp, sys.current.value);
    NewestIsLast(sys.rotated, stamp, sys.current.value);
    var none: seq<Line> := [];
    assert InOrder(sys.rotated) + sys.current.value + none == InOrder(sys.rotated) + sys.current.value;
  }

  lemma WriteKeeps(sys: System, line: Line)
    requires Kept(sys)
    ensures Kept(sys.(current := Some(CurrentLines(sys) + [line]), written := sys.written + [line]))
  {
    assert InOrder(sys.rotated) + (CurrentLines(sys) + [line]) == OnDisk(sys) + [line];
  }

  lemma KeptByFiles(sys: System, other: System)
    requires Kept(sys) && other.rotated == sys.rotated && other.stamps == sys.stamps && other.written == sys.written
    requires CurrentLines(other) == CurrentLines(sys)
    ensures Kept(other)
  {
  }

  lemma RenamesKeep(sys: System, caps: Caps, id: nat)
    requires Kept(sys) && Increasing(Next(sys, caps, Renames(id)).stamps)
    ensures Kept(Next(sys, caps, Renames(id)))
  {
    if id in sys.flights && sys.flights[id].Renaming? && sys.current.Some? {
      var stamp := sys.flights[id].stamp;
      RenameKeeps(sys, stamp);
      KeptByFiles(sys.(rotated := sys.rotated[stamp := sys.current.value], current := None, stamps := sys.stamps + [stamp]),
                  Next(sys, caps, Renames(id)));
    } else {
      KeptByFiles(sys, Next(sys, caps, Renames(id)));
    }
  }

  lemma WritesKeep(sys: System, caps: Caps, id: nat)
    requires Kept(sys)
    ensures Kept(Next(sys, caps, Writes(id)))
  {
    if id in sys.flights && sys.flights[id].Writing? {
      var line := sys.flights[id].line;
      WriteKeeps(sys, line);
      KeptByFiles(sys.(current := Some(CurrentLines(sys) + [line]), written := sys.written + [line]), Next(sys, caps, Writes(id)));
    }
  }

  lemma StepKeeps(sys: System, caps: Caps, e: Event)
    requires Kept(sys) && Increasing(Next(sys, caps, e).stamps)
    ensures Kept(Next(sys, caps, e))
  {
    match e
    case Renames(id) => RenamesKeep(sys, caps, id);
    case Writes(id) => WritesKeep(sys, caps, id);
    case _ =>
      FilesAsBefore(sys, caps, e);
      KeptByFiles(sys, Next(sys, caps, e));
  }

  lemma FilesAsBefore(sys: System, caps: Caps, e: Event)
    requires !e.Renames? && !e.Writes?
    ensures var after := Next(sys, caps, e);
            after.rotated == sys.rotated && after.stamps == sys.stamps && after.written == sys.written && CurrentLines(after) == CurrentLines(sys)
  {
  }

  lemma StampsExtend(sys: System, caps: Caps, e: Event)
    ensures sys.stamps <= Next(sys, caps, e).stamps
  {
  }

  /** However appends overlap: if each rename that takes effect has a later stamp than the one before, reading
      yields every line once, in the order in which the lines were written. */
  lemma {:induction false} OverlapLosesNothing(caps: Caps, events: seq<Event>)
    requires Increasing(Ran(caps, events).stamps)
    ensures OnDisk(Ran(caps, events)) == Ran(caps, events).written && Kept(Ran(caps, events))
  {
    if events != [] {
      var front, e := events[..|events| - 1], events[|events| - 1];
      var sys := Ran(caps, front);
      StampsExtend(sys, caps, e);
      assert forall i :: 0 <= i < |sys.stamps| ==> Ran(caps, events).stamps[i] == sys.stamps[i];
      OverlapLosesNothing(caps, front);
      StepKeeps(sys, caps, e);
    }
  }

  // ----- what it does not keep -----

  /** Two appends that overlap both find room: for all caps a segment can hold twice the hard cap. */
  lemma OverlapBreaksBounds(caps: Caps, text: string)
    requires caps.soft <= caps.hard && caps.hard > 0
    ensures var line := Line(text, caps.hard);
            var sys := Ran(caps, [Arrives(line, 0), Arrives(line, 1), Writes(0), Writes(1)]);
            sys.current == Some([line, line]) && Transcript.Bytes([line, line]) == 2 * caps.hard && !Fits([line, line], caps)
  {
    var line := Line(text, caps.hard);
    var a, b, c, d := [Arrives(line, 0)], [Arrives(line, 0), Arrives(line, 1)], [Arrives(line, 0), Arrives(line, 1), Writes(0)],
                      [Arrives(line, 0), Arrives(line, 1), Writes(0), Writes(1)];
    assert a[..0] == [] && b[..1] == a && c[..2] == b && d[..3] == c;
    assert Ran(caps, a) == System(map[], Some([]), 0, 0, map[0 := Writing(line)], 1, [], []);
    assert Ran(caps, b).flights[0] == Writing(line) && Ran(caps, b).flights[1] == Writing(line) && Ran(caps, b).current == Some([]);
    var none: seq<Line> := [];
    assert none + [line] == [line];
    assert Ran(caps, c).flights[1] == Writing(line) && Ran(caps, c).current == Some([line]);
    assert [line] + [line] == [line, line];
    BytesOfAppend(none, line);
    BytesOfAppend([line], line);
  }

  // ----- without overlap -----

  /** One append taken from its arrival to its end; steps it has no use for do nothing. */
  function Alone(sys: System, caps: Caps, a: Append): System {
    var n := sys.next;
    Next(Next(Next(Next(Next(sys, caps, Arrives(a.line, a.stamp)), caps, Renames(n)), caps, Resumes(n)), caps, Writes(n)), caps, Counts(n))
  }

  ghost predicate Quiet(sys: System, f: Files) {
    sys.flights == map[] && sys.current.Some? && Files(sys.rotated, sys.current.value, sys.bytes, sys.historySize) == f
  }

  /** Then it is the single step `Appended`. */
  lemma AloneIsAppended(sys: System, caps: Caps, a: Append, f: Files)
    requires Quiet(sys, f)
    ensures Quiet(Alone(sys, caps, a), Appended(f, caps, a.line, a.stamp).1)
  {
    var n := sys.next;
    var one := Next(sys, caps, Arrives(a.line, a.stamp));
    var two := Next(one, caps, Renames(n));
    var three := Next(two, caps, Resumes(n));
    var four := Next(three, caps, Writes(n));
    if MustRotate(f, caps, a.line) {
      assert one.flights == map[n := Renaming(a.line, a.stamp)];
      assert two.flights == map[n := Renamed(a.line)];
    } else {
      assert three == one;
    }
    if a.line.bytes > caps.hard {
      assert three.flights == map[] && Alone(sys, caps, a) == three;
    } else {
      assert three.flights == map[n := Writing(a.line)];
      assert four.flights == map[n := Written(a.line)];
    }
  }

  function Serial(caps: Caps, appends: seq<Append>): System {
    if appends == [] then FRESH else Alone(Serial(caps, appends[..|appends| - 1]), caps, appends[|appends| - 1])
  }

  /** So everything proved of runs of appends holds of systems in which no two overlap. */
  lemma {:induction false} SerialIsAtomic(caps: Caps, appends: seq<Append>)
    ensures Quiet(Serial(caps, appends), After(caps, appends).files)
  {
    if appends != [] {
      var n := |appends| - 1;
      SerialIsAtomic(caps, appends[..n]);
      AloneIsAppended(Serial(caps, appends[..n]), caps, appends[n], After(caps, appends[..n]).files);
    }
  }

  /** In particular the bounds of the segments. */
  lemma SerialKeepsBounds(caps: Caps, appends: seq<Append>)
    requires caps.soft <= caps.hard && forall i :: 0 <= i < |appends| ==> appends[i].line.bytes > 0
    ensures var sys := Serial(caps, appends);
            && Fits(CurrentLines(sys), caps)
            && forall k :: k in sys.rotated ==> Fits(sys.rotated[k], caps)
  {
    SerialIsAtomic(caps, appends);
    SegmentsAreBounded(caps, appends);
  }
}
