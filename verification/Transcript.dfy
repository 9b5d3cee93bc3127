/** The rotating transcript of a session (src/session/state.ts). A line carries its size in bytes with the
    newline; the soft cap is a parameter; the time stamp in a rotated file's name is a number. */
module Transcript {
  datatype Line = Line(text: string, bytes: nat)

  datatype Caps = Caps(hard: nat, soft: nat)

  /** Rotated segments by the stamp in their name, the current segment, and the counters. */
  datatype Files = Files(rotated: map<nat, seq<Line>>, current: seq<Line>, bytes: nat, historySize: nat)

  const NO_FILES := Files(map[], [], 0, 0)

  /** Renaming onto an existing name replaces that file. */
  function Rotated(f: Files, stamp: nat): Files {
    Files(f.rotated[stamp := f.current], [], 0, f.historySize)
  }

  predicate MustRotate(f: Files, caps: Caps, line: Line) {
    f.bytes > 0 && f.bytes + line.bytes > caps.soft
  }

  function Appended(f: Files, caps: Caps, line: Line, stamp: nat): (bool, Files) {
    var g := if MustRotate(f, caps, line) then Rotated(f, stamp) else f;
    if line.bytes > caps.hard then (false, g)
    else (true, Files(g.rotated, g.current + [line], g.bytes + line.bytes, g.historySize + 1))
  }

  // ----- reading -----

  predicate Least(s: set<nat>, k: nat) {
    k in s && forall x :: x in s ==> k <= x
  }

  lemma {:induction false} LeastExists(s: set<nat>) returns (k: nat)
    requires s != {}
    ensures Least(s, k)
    decreases |s|
  {
    k :| k in s;
    var others := s - {k};
    assert forall x :: x in s ==> x == k || x in others;
    if others != {} {
      var l := LeastExists(others);
      if l < k { k := l; }
    }
  }

  function Smallest(s: set<nat>): (k: nat)
    requires s != {}
    ensures Least(s, k)
  {
    assert exists k :: Least(s, k) by { var k := LeastExists(s); }
    var k :| Least(s, k);
    k
  }

  /** The segments one after the other, oldest stamp first. */
  function InOrder(m: map<nat, seq<Line>>): seq<Line>
    decreases |m|
  {
    if m == map[] then []
    else
      assert m.Keys != {};
      var k := Smallest(m.Keys);
      m[k] + InOrder(m - {k})
  }

  function AllLines(f: Files): seq<Line> {
    InOrder(f.rotated) + f.current
  }

  class TranscriptLog {
    const caps: Caps
    var rotated: map<nat, seq<Line>>
    var current: seq<Line>
    var transcriptBytes: nat
    var historySize: nat

    function Abs(): Files
      reads this
    {
      Files(rotated, current, transcriptBytes, historySize)
    }

    constructor (caps: Caps)
      ensures Abs() == NO_FILES && this.caps == caps
    {
      this.caps := caps;
      rotated, current, transcriptBytes, historySize := map[], [], 0, 0;
    }

    method RotateTranscript(stamp: nat)
      modifies this
      ensures Abs() == Rotated(old(Abs()), stamp)
    {
      rotated := rotated[stamp := current];
      current := [];
      transcriptBytes := 0;
    }

    method AppendTranscript(line: Line, stamp: nat) returns (ok: bool)
      modifies this
      ensures (ok, Abs()) == Appended(old(Abs()), caps, line, stamp)
    {
      if transcriptBytes > 0 && transcriptBytes + line.bytes > caps.soft {
        RotateTranscript(stamp);
      }
      if line.bytes > caps.hard {
        return false;
      }
      current := current + [line];
      transcriptBytes := transcriptBytes + line.bytes;
      historySize := historySize + 1;
      return true;
    }

    method ReadFullTranscript() returns (lines: seq<Line>)
      ensures lines == AllLines(Abs())
    {
      lines := [];
      var left := rotated;
      while left != map[]
        invariant lines + InOrder(left) == InOrder(rotated)
        decreases |left|
      {
        assert left.Keys != {};
        var k := Smallest(left.Keys);
        assert lines + InOrder(left) == lines + left[k] + InOrder(left - {k});
        lines := lines + left[k];
        left := left - {k};
      }
      lines := lines + current;
    }
  }

  // ----- runs -----

  datatype Append = Append(line: Line, stamp: nat)

  /** The files, the accepted lines in order, and the stamps at which there was a rotation. */
  datatype Run = Run(files: Files, accepted: seq<Line>, stamps: seq<nat>)

  function Next(r: Run, caps: Caps, a: Append): Run {
    var (ok, f) := Appended(r.files, caps, a.line, a.stamp);
    Run(f, if ok then r.accepted + [a.line] else r.accepted,
        if MustRotate(r.files, caps, a.line) then r.stamps + [a.stamp] else r.stamps)
  }

  function After(caps: Caps, appends: seq<Append>): Run {
    if appends == [] then Run(NO_FILES, [], [])
    else Next(After(caps, appends[..|appends| - 1]), caps, appends[|appends| - 1])
  }

  predicate Increasing(stamps: seq<nat>) {
    forall i, j :: 0 <= i < j < |stamps| ==> stamps[i] < stamps[j]
  }

  predicate Distinct(stamps: seq<nat>) {
    forall i, j :: 0 <= i < j < |stamps| ==> stamps[i] != stamps[j]
  }

  // ----- bounds -----

  function Bytes(lines: seq<Line>): nat {
    if lines == [] then 0 else lines[0].bytes + Bytes(lines[1..])
  }

  predicate Fits(lines: seq<Line>, caps: Caps) {
    Bytes(lines) <= caps.hard && (|lines| >= 2 ==> Bytes(lines) <= caps.soft)
  }

  ghost predicate Sized(f: Files, caps: Caps) {
    && f.bytes == Bytes(f.current) && Fits(f.current, caps)
    && (f.current != [] ==> f.bytes > 0)
    && forall k :: k in f.rotated ==> f.rotated[k] != [] && Fits(f.rotated[k], caps)
  }

  lemma RotationKeepsSized(f: Files, caps: Caps, stamp: nat)
    requires Sized(f, caps) && f.bytes > 0
    ensures Sized(Rotated(f, stamp), caps)
  {
  }

  lemma {:induction false} BytesOfAppend(lines: seq<Line>, line: Line)
    ensures Bytes(lines + [line]) == Bytes(lines) + line.bytes
  {
    if lines == [] {
      assert lines + [line] == [line] && [line][1..] == lines;
    } else {
      BytesOfAppend(lines[1..], line);
      assert (lines + [line])[1..] == lines[1..] + [line];
    }
  }

  lemma AcceptanceKeepsSized(f: Files, caps: Caps, line: Line, history: nat)
    requires Sized(f, caps) && caps.soft <= caps.hard && 0 < line.bytes <= caps.hard
    requires f.current == [] || f.bytes + line.bytes <= caps.soft
    ensures Sized(Files(f.rotated, f.current + [line], f.bytes + line.bytes, history), caps)
  {
    BytesOfAppend(f.current, line);
  }

  lemma AppendKeepsSized(f: Files, caps: Caps, line: Line, stamp: nat)
    requires Sized(f, caps) && caps.soft <= caps.hard && line.bytes > 0
    ensures Sized(Appended(f, caps, line, stamp).1, caps)
  {
    var g := if MustRotate(f, caps, line) then Rotated(f, stamp) else f;
    if MustRotate(f, caps, line) { RotationKeepsSized(f, caps, stamp); }
    if line.bytes <= caps.hard { AcceptanceKeepsSized(g, caps, line, g.historySize + 1); }
  }

  /** In every run every segment stays within the cap, and within the soft cap as soon as it has two lines. */
  lemma {:induction false} SegmentsAreBounded(caps: Caps, appends: seq<Append>)
    requires caps.soft <= caps.hard && forall i :: 0 <= i < |appends| ==> appends[i].line.bytes > 0
    ensures Sized(After(caps, appends).files, caps)
  {
    if appends != [] {
      var n := |appends| - 1;
      SegmentsAreBounded(caps, appends[..n]);
      AppendKeepsSized(After(caps, appends[..n]).files, caps, appends[n].line, appends[n].stamp);
    }
  }

  // ----- rotation is transparent -----

  /** A segment with the greatest stamp is read last. */
  lemma {:induction false} NewestIsLast(m: map<nat, seq<Line>>, stamp: nat, lines: seq<Line>)
    requires forall k :: k in m ==> k < stamp
    ensures InOrder(m[stamp := lines]) == InOrder(m) + lines
    decreases |m|
  {
    var more := m[stamp := lines];
    assert stamp in more.Keys;
    if m == map[] {
      assert more - {stamp} == map[];
    } else {
      assert m.Keys != {};
      var k := Smallest(m.Keys);
      assert k in more.Keys && forall x :: x in more.Keys ==> k <= x;
      var l := Smallest(more.Keys);
      assert l == k;
      assert more - {k} == (m - {k})[stamp := lines];
      NewestIsLast(m - {k}, stamp, lines);
    }
  }

  ghost predicate Transparent(r: Run) {
    && AllLines(r.files) == r.accepted
    && r.files.rotated.Keys == (set i | 0 <= i < |r.stamps| :: r.stamps[i])
  }

  lemma KeysOfStamps(m: map<nat, seq<Line>>, stamps: seq<nat>, stamp: nat, lines: seq<Line>)
    requires m.Keys == (set i | 0 <= i < |stamps| :: stamps[i])
    ensures m[stamp := lines].Keys == (set i | 0 <= i < |stamps + [stamp]| :: (stamps + [stamp])[i])
  {
    var more := stamps + [stamp];
    assert forall i :: 0 <= i < |stamps| ==> more[i] == stamps[i];
    assert more[|stamps|] == stamp;
  }

  lemma LastIsGreatest(stamps: seq<nat>, stamp: nat)
    requires Increasing(stamps + [stamp])
    ensures forall i :: 0 <= i < |stamps| ==> stamps[i] < stamp
  {
    var more := stamps + [stamp];
    forall i | 0 <= i < |stamps|
      ensures stamps[i] < stamp
    {
      assert more[i] < more[|stamps|];
    }
  }

  lemma StepIsTransparent(r: Run, caps: Caps, a: Append)
    requires Transparent(r) && Increasing(Next(r, caps, a).stamps)
    ensures Transparent(Next(r, caps, a))
  {
    var q := Next(r, caps, a);
    if MustRotate(r.files, caps, a.line) {
      LastIsGreatest(r.stamps, a.stamp);
      KeysOfStamps(r.files.rotated, r.stamps, a.stamp, r.files.current);
      NewestIsLast(r.files.rotated, a.stamp, r.files.current);
    }
  }

  lemma {:induction false} StampsGrow(caps: Caps, appends: seq<Append>)
    requires appends != []
    ensures After(caps, appends[..|appends| - 1]).stamps <= After(caps, appends).stamps
  {
  }

  /** When each rotation has a later stamp than the one before, reading yields all accepted lines in order. */
  lemma {:induction false} ReadsWhatWasAccepted(caps: Caps, appends: seq<Append>)
    requires Increasing(After(caps, appends).stamps)
    ensures Transparent(After(caps, appends))
  {
    if appends != [] {
      var front := After(caps, appends[..|appends| - 1]);
      StampsGrow(caps, appends);
      assert forall i :: 0 <= i < |front.stamps| ==> After(caps, appends).stamps[i] == front.stamps[i];
      ReadsWhatWasAccepted(caps, appends[..|appends| - 1]);
      StepIsTransparent(front, caps, appends[|appends| - 1]);
    }
  }

  /** The accepted lines are those within the cap, whatever was rotated. */
  function WithinCap(caps: Caps, appends: seq<Append>): seq<Line> {
    if appends == [] then []
    else
      var a := appends[|appends| - 1];
      WithinCap(caps, appends[..|appends| - 1]) + if a.line.bytes <= caps.hard then [a.line] else []
  }

  lemma {:induction false} AcceptedAreWithinCap(caps: Caps, appends: seq<Append>)
    ensures After(caps, appends).accepted == WithinCap(caps, appends)
    ensures After(caps, appends).files.historySize == |WithinCap(caps, appends)|
  {
    if appends != [] { AcceptedAreWithinCap(caps, appends[..|appends| - 1]); }
  }

  /** A line over the cap is refused after it has rotated a segment with anything in it: with a later stamp no
      line is lost by that, but the next accepted line starts a segment of its own even where it had room. */
  lemma RefusalRotates(caps: Caps, f: Files, line: Line, stamp: nat, next: Line, later: nat)
    requires caps.soft <= caps.hard < line.bytes && f.bytes > 0 && next.bytes <= caps.hard
    requires forall k :: k in f.rotated ==> k < stamp
    ensures !Appended(f, caps, line, stamp).0 && stamp in Appended(f, caps, line, stamp).1.rotated
    ensures AllLines(Appended(f, caps, line, stamp).1) == AllLines(f)
    ensures Appended(Appended(f, caps, line, stamp).1, caps, next, later).1.current == [next]
    ensures AllLines(Appended(Appended(f, caps, line, stamp).1, caps, next, later).1) == AllLines(f) + [next]
  {
    NewestIsLast(f.rotated, stamp, f.current);
    var g := Rotated(f, stamp);
    assert Appended(f, caps, line, stamp) == (false, g);
    assert Appended(g, caps, next, later) == (true, Files(g.rotated, [] + [next], next.bytes, g.historySize + 1));
  }

  // ----- exactly when lines are lost -----

  lemma {:induction false} InOrderSplits(m: map<nat, seq<Line>>, k: nat)
    requires k in m
    ensures |InOrder(m)| == |m[k]| + |InOrder(m - {k})|
    decreases |m|
  {
    var s := Smallest(m.Keys);
    if s != k {
      InOrderSplits(m - {s}, k);
      assert s in (m - {k}).Keys && Smallest((m - {k}).Keys) == s;
      assert m - {s} - {k} == m - {k} - {s};
    }
  }

  lemma ReplacedSegment(m: map<nat, seq<Line>>, stamp: nat, lines: seq<Line>)
    ensures |InOrder(m[stamp := lines])| == |lines| + |InOrder(m - {stamp})|
  {
    var more := m[stamp := lines];
    InOrderSplits(more, stamp);
    assert more - {stamp} == m - {stamp};
  }

  ghost predicate Counted(r: Run) {
    && r.files.rotated.Keys == (set i | 0 <= i < |r.stamps| :: r.stamps[i])
    && |AllLines(r.files)| <= |r.accepted|
    && (|AllLines(r.files)| == |r.accepted| <==> Distinct(r.stamps))
  }

  lemma RotationCounts(r: Run, caps: Caps, a: Append)
    requires Counted(r) && Sized(r.files, caps) && MustRotate(r.files, caps, a.line)
    ensures Counted(Next(r, caps, a))
  {
    var m := r.files.rotated;
    var stamps := r.stamps + [a.stamp];
    KeysOfStamps(m, r.stamps, a.stamp, r.files.current);
    ReplacedSegment(m, a.stamp, r.files.current);
    if a.stamp in m {
      InOrderSplits(m, a.stamp);
      var i :| 0 <= i < |r.stamps| && r.stamps[i] == a.stamp;
      assert stamps[i] == stamps[|r.stamps|];
    } else {
      assert m - {a.stamp} == m;
      assert forall i :: 0 <= i < |r.stamps| ==> r.stamps[i] in m;
      assert Distinct(stamps) <==> Distinct(r.stamps) by {
        assert forall i :: 0 <= i < |r.stamps| ==> stamps[i] == r.stamps[i] != a.stamp;
      }
    }
  }

  /** No accepted line is lost exactly when no two rotations carry the same stamp. */
  lemma {:induction false} NothingLostIffStampsDistinct(caps: Caps, appends: seq<Append>)
    requires caps.soft <= caps.hard && forall i :: 0 <= i < |appends| ==> appends[i].line.bytes > 0
    ensures Counted(After(caps, appends))
  {
    if appends != [] {
      var n := |appends| - 1;
      NothingLostIffStampsDistinct(caps, appends[..n]);
      SegmentsAreBounded(caps, appends[..n]);
      var r := After(caps, appends[..n]);
      if MustRotate(r.files, caps, appends[n].line) { RotationCounts(r, caps, appends[n]); }
    }
  }

  // ----- when a line joins the current segment and when it starts one -----

  /** After any run: a line joins the current segment as long as the two fit the soft cap together, and otherwise
      closes a segment with anything in it under its stamp and starts the next. Over the cap it is refused. */
  lemma AppendMeans(caps: Caps, appends: seq<Append>, a: Append)
    requires caps.soft <= caps.hard && forall i :: 0 <= i < |appends| ==> appends[i].line.bytes > 0
    ensures var f, g := After(caps, appends).files, After(caps, appends + [a]).files;
            var fits := f.current == [] || Bytes(f.current) + a.line.bytes <= caps.soft;
            && g.rotated == (if fits then f.rotated else f.rotated[a.stamp := f.current])
            && g.current == (if fits then f.current else []) + (if a.line.bytes <= caps.hard then [a.line] else [])
            && g.historySize == f.historySize + if a.line.bytes <= caps.hard then 1 else 0
  {
    SegmentsAreBounded(caps, appends);
    assert (appends + [a])[..|appends|] == appends;
    var f := After(caps, appends).files;
    assert f.current == [] ==> Bytes(f.current) == 0;
  }
}
