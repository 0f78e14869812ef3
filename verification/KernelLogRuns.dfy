/** Whole runs of the tailer on one path, against the lines that were written to it. */
module KernelLogRuns {
  import opened Wrappers
  import opened KernelLog
  import opened Texts

  /** `path` is what the path names now, `out` the file the writer has open, `handle` the
      watcher's. `owed` is the specification: every line written since the watcher first saw the
      file, less those a truncation erased before any pump could read them. */
  datatype World = World(
    files: map<Inode, string>,
    path: Option<Inode>,
    out: Inode,
    handle: Option<Handle>,
    delivered: seq<string>,
    owed: seq<string>
  )

  datatype Event =
    | Append(line: string)
    | Rename                  // the path is moved aside; the writer still has the old file
    | Create(inode: Inode)    // a new empty file takes the path and the writer switches to it
    | Truncate
    | Pump

  const PATH: string := "log"

  /** The disk as a pump meets it; the path can always be opened. */
  function View(w: World): Disk {
    Disk(w.files, if w.path.Some? then map[PATH := w.path.value] else map[], {})
  }

  function Text(w: World, inode: Inode): string {
    Content(View(w), inode)
  }

  ghost function Step(w: World, e: Event, fromStart: bool): World {
    match e
    case Append(line) =>
      w.(files := w.files[w.out := Text(w, w.out) + line + "\n"],
         owed := if w.handle.Some? then w.owed + [line] else w.owed)
    case Rename => w.(path := None)
    case Create(inode) => w.(files := w.files[inode := ""], path := Some(inode), out := inode)
    case Truncate => w.(files := w.files[w.out := ""], owed := w.delivered + Drained(View(w), w.out, w.handle))
    case Pump =>
      var look := LookAt(View(w), PATH, w.handle, fromStart);
      w.(delivered := w.delivered + look.lines,
         handle := look.handle,
         owed := if w.handle.None? then w.delivered + look.lines else w.owed)
  }

  /** The writer's file was truncated behind the watcher's position, and no pump has seen it. */
  predicate Behind(w: World) {
    w.handle.Some? && w.handle.value.inode == w.out && w.handle.value.pos > |Text(w, w.out)|
  }

  predicate RotationPending(w: World) {
    w.handle.Some? && w.handle.value.inode != w.out
  }

  /** What the watcher can keep up with: whole lines, at most one rotation between two pumps, and
      a truncation that is noticed before the file grows back to the old position or is rotated. A
      rotation too many, or too early, does no harm if it leaves an empty file. */
  predicate Legal(w: World, e: Event) {
    match e
    case Append(line) => IsLine(line) && (Behind(w) ==> |Text(w, w.out)| + |line| + 1 < w.handle.value.pos)
    case Rename => w.path == Some(w.out)
    case Create(inode) => w.path.None? && inode !in w.files && (RotationPending(w) || Behind(w) ==> Text(w, w.out) == "")
    case Truncate => true
    case Pump => true
  }

  ghost function Run(first: World, events: seq<Event>, fromStart: bool): World {
    if events == [] then first
    else Step(Run(first, events[..|events| - 1], fromStart), events[|events| - 1], fromStart)
  }

  ghost predicate LegalRun(first: World, events: seq<Event>, fromStart: bool) {
    events != [] ==>
      && LegalRun(first, events[..|events| - 1], fromStart)
      && Legal(Run(first, events[..|events| - 1], fromStart), events[|events| - 1])
  }

  ghost predicate Initial(w: World) {
    && w.out in w.files && w.path == Some(w.out) && Whole(w.files[w.out])
    && w.handle.None? && w.delivered == [] && w.owed == []
  }

  /** The lines the next pump will deliver. */
  function Pending(w: World): seq<string> {
    PumpLines(View(w), w.out, w.handle, false)
  }

  ghost predicate Inv(w: World) {
    && w.out in w.files && Whole(w.files[w.out])
    && (w.path.None? || w.path == Some(w.out))
    && (w.handle.Some? ==>
          && w.handle.value.inode in w.files && !w.handle.value.closed
          && w.owed == w.delivered + Pending(w))
    && (w.handle.None? ==> w.delivered == w.owed == [])
  }

  lemma AppendKeepsInv(w: World, line: string)
    requires Inv(w) && Legal(w, Append(line))
    ensures Inv(Step(w, Append(line), false))
  {
    var w' := Step(w, Append(line), false);
    var text := Text(w, w.out);
    OneLine(line);
    Assoc(text, line, "\n");
    if w.handle.Some? {
      var h := w.handle.value;
      var p := if h.inode == w.out && h.pos <= |text| then h.pos else 0;
      LinesConcat(text, line + "\n", p);
      assert Pending(w') == Pending(w) + [line];
    }
  }

  /** A pump that finds the file delivers what is pending, or on first sight the wanted backlog. */
  lemma PumpIs(w: World, fromStart: bool)
    requires Inv(w) && w.path.Some?
    ensures Step(w, Pump, fromStart).delivered == w.delivered + PumpLines(View(w), w.out, w.handle, fromStart)
    ensures Step(w, Pump, fromStart).handle == Some(PumpHandle(View(w), w.out))
  {
  }

  lemma PumpMisses(w: World, fromStart: bool)
    requires w.path.None? && (w.handle.None? ==> w.delivered == w.owed)
    ensures Step(w, Pump, fromStart) == w
  {
    assert w.delivered + [] == w.delivered;
  }

  lemma PumpKeepsInv(w: World, fromStart: bool)
    requires Inv(w)
    ensures Inv(Step(w, Pump, fromStart))
    ensures w.path.Some? ==> Step(w, Pump, fromStart).delivered == Step(w, Pump, fromStart).owed
  {
    if w.path.Some? {
      PumpIs(w, fromStart);
      assert w.handle.Some? ==> PumpLines(View(w), w.out, w.handle, fromStart) == Pending(w);
    } else {
      PumpMisses(w, fromStart);
    }
  }

  lemma CreateKeepsInv(w: World, inode: Inode)
    requires Inv(w) && Legal(w, Create(inode))
    ensures Inv(Step(w, Create(inode), false))
  {
    var w' := Step(w, Create(inode), false);
    if w.handle.Some? {
      var h := w.handle.value;
      NoLines("");
      NoLines(Text(w, w.out));
      assert Text(w', h.inode) == Text(w, h.inode) && Text(w', inode) == "";
      assert Pending(w') == LinesFrom(Text(w, h.inode), h.pos) + [];
      assert LinesFrom(Text(w, h.inode), h.pos) + [] == LinesFrom(Text(w, h.inode), h.pos);
    }
  }

  lemma NoLines(text: string)
    ensures LinesFrom(text, 0) == [] <==> text == ""
    ensures forall pos: nat :: pos > |text| ==> LinesFrom(text, pos) == []
  {
    assert text[0..] == text;
  }

  lemma StepKeepsInv(w: World, e: Event, fromStart: bool)
    requires Inv(w) && Legal(w, e)
    ensures Inv(Step(w, e, fromStart))
  {
    match e
    case Append(line) => AppendKeepsInv(w, line);
    case Rename =>
    case Create(inode) => CreateKeepsInv(w, inode);
    case Truncate =>
    case Pump => PumpKeepsInv(w, fromStart);
  }

  lemma {:induction false} LegalPrefix(first: World, events: seq<Event>, fromStart: bool, n: nat)
    requires LegalRun(first, events, fromStart) && n <= |events|
    ensures LegalRun(first, events[..n], fromStart)
    decreases |events| - n
  {
    if n == |events| {
      assert events[..n] == events;
    } else {
      LegalPrefix(first, events, fromStart, n + 1);
      assert events[..n + 1][..n] == events[..n];
    }
  }

  lemma {:induction false} InvHolds(first: World, events: seq<Event>, fromStart: bool)
    requires Initial(first) && LegalRun(first, events, fromStart)
    ensures Inv(Run(first, events, fromStart))
  {
    if events != [] {
      InvHolds(first, events[..|events| - 1], fromStart);
      StepKeepsInv(Run(first, events[..|events| - 1], fromStart), events[|events| - 1], fromStart);
    }
  }

  /** Exactly once, in order: after every pump that finds the file, the delivered lines are the
      owed lines, and at no time is anything delivered that was not owed. */
  lemma {:induction false} ExactlyOnce(first: World, events: seq<Event>, fromStart: bool)
    requires Initial(first) && LegalRun(first, events, fromStart)
    ensures Run(first, events, fromStart).delivered <= Run(first, events, fromStart).owed
    ensures var pumped := Step(Run(first, events, fromStart), Pump, fromStart);
            Run(first, events, fromStart).path.Some? ==> pumped.delivered == pumped.owed
  {
    InvHolds(first, events, fromStart);
    PumpKeepsInv(Run(first, events, fromStart), fromStart);
  }

  // ---- What `owed` is without truncation ---------------------------------------------------

  /** The lines appended after the first pump that found the file. */
  ghost function Appended(first: World, events: seq<Event>, fromStart: bool): seq<string> {
    if events == [] then []
    else
      var prior, e := events[..|events| - 1], events[|events| - 1];
      Appended(first, prior, fromStart) +
      if e.Append? && Run(first, prior, fromStart).handle.Some? then [e.line] else []
  }

  ghost predicate NoTruncation(events: seq<Event>) {
    forall i :: 0 <= i < |events| ==> !events[i].Truncate?
  }

  /** What the file held when it was first seen, if the watcher does not skip it. */
  ghost function Backlog(first: World, events: seq<Event>, fromStart: bool): seq<string> {
    if events == [] then []
    else
      var before := Run(first, events[..|events| - 1], fromStart);
      if events[|events| - 1].Pump? && before.handle.None? && before.path.Some? && fromStart
      then LinesFrom(Text(before, before.path.value), 0)
      else Backlog(first, events[..|events| - 1], fromStart)
  }

  /** `owed` is the backlog followed by the appended lines, and nothing before first sight. */
  ghost predicate OwedIs(w: World, backlog: seq<string>, appended: seq<string>) {
    && w.owed == backlog + appended
    && (w.handle.None? ==> w.delivered == backlog == appended == [])
  }

  /** The lines written to the log as far as the watcher is concerned: the backlog it wants, and all
      that was appended since. */
  ghost function Written(first: World, events: seq<Event>, fromStart: bool): seq<string> {
    Backlog(first, events, fromStart) + Appended(first, events, fromStart)
  }

  /** The run up to n ends with a pump that found the file. */
  ghost predicate JustPumped(first: World, events: seq<Event>, fromStart: bool, n: int) {
    0 < n <= |events| && events[n - 1].Pump? && Run(first, events[..n - 1], fromStart).path.Some?
  }

  /** Just after a pump, what was delivered is what was written. */
  lemma CaughtUp(first: World, events: seq<Event>, fromStart: bool, n: nat)
    requires Initial(first) && LegalRun(first, events, fromStart) && NoTruncation(events)
    requires JustPumped(first, events, fromStart, n)
    ensures Run(first, events[..n], fromStart).delivered == Written(first, events[..n], fromStart)
  {
    LegalPrefix(first, events, fromStart, n - 1);
    ExactlyOnce(first, events[..n - 1], fromStart);
    OwedIsAppended(first, events[..n], fromStart);
    assert events[..n][..n - 1] == events[..n - 1];
  }

  /** Nothing that was delivered is taken back. */
  lemma {:induction false} DeliveredGrows(first: World, events: seq<Event>, fromStart: bool, i: nat, j: nat)
    requires i <= j <= |events|
    ensures Run(first, events[..i], fromStart).delivered <= Run(first, events[..j], fromStart).delivered
    decreases j - i
  {
    if i < j {
      DeliveredGrows(first, events, fromStart, i, j - 1);
      assert events[..j][..j - 1] == events[..j - 1];
    }
  }

  /** Without truncation `owed` is the backlog, if it is wanted, and then every line appended since
      the file was first seen. */
  lemma {:induction false} OwedIsAppended(first: World, events: seq<Event>, fromStart: bool)
    requires Initial(first) && NoTruncation(events)
    ensures OwedIs(Run(first, events, fromStart), Backlog(first, events, fromStart), Appended(first, events, fromStart))
  {
    if events != [] {
      var prior, e := events[..|events| - 1], events[|events| - 1];
      assert forall i :: 0 <= i < |prior| ==> prior[i] == events[i];
      OwedIsAppended(first, prior, fromStart);
      var w := Run(first, prior, fromStart);
      OwedStep(w, e, fromStart, Backlog(first, prior, fromStart), Appended(first, prior, fromStart));
    }
  }

  lemma OwedStep(w: World, e: Event, fromStart: bool, backlog: seq<string>, appended: seq<string>)
    requires OwedIs(w, backlog, appended) && !e.Truncate?
    ensures OwedIs(Step(w, e, fromStart),
              if e.Pump? && w.handle.None? && w.path.Some? && fromStart then LinesFrom(Text(w, w.path.value), 0) else backlog,
              appended + if e.Append? && w.handle.Some? then [e.line] else [])
  {
    assert appended + [] == appended;
    if e.Append? {
      assert backlog + appended + [e.line] == backlog + (appended + [e.line]);
    }
  }

  // ---- Beyond what the watcher can keep up with ---------------------------------------------

  function Size(lines: seq<string>): nat {
    if lines == [] then 0 else |lines[0]| + 1 + Size(lines[1..])
  }

  lemma {:induction false} SizeOfLines(text: string)
    requires Whole(text)
    ensures Size(LinesOf(text)) == |text|
  {
    if text != "" {
      SizeOfLines(text[LineEnd(text, 0)..]);
    }
  }

  /** A truncated file that was written again is delivered in full by the next pump exactly when it is
      still shorter than the old position (or nothing had been read): the two readings differ
      otherwise. */
  lemma TruncationRecoveredIff(w: World, refill: string, fromStart: bool)
    requires w.handle.Some? && w.handle.value.inode == w.out && !w.handle.value.closed && w.path == Some(w.out)
    requires Whole(refill) && Text(w, w.out) == refill
    ensures Step(w, Pump, fromStart).delivered == w.delivered + LinesFrom(refill, 0) <==>
            w.handle.value.pos == 0 || |refill| < w.handle.value.pos
  {
    var p := w.handle.value.pos;
    var lines := PumpLines(View(w), w.out, w.handle, fromStart);
    assert Step(w, Pump, fromStart).delivered == w.delivered + lines;
    if 0 < p <= |refill| {
      SizeOfLines(refill[p..]);
      SizeOfLines(refill[0..]);
      assert (w.delivered + lines)[|w.delivered|..] == lines;
      assert (w.delivered + LinesFrom(refill, 0))[|w.delivered|..] == LinesFrom(refill, 0);
    }
  }

  /** A new file takes the path and the next pump finds it: of what was owed, the lines of the file
      that was left are lost if a rotation was pending already or a truncation had not been seen. */
  lemma LostByRotation(w: World, next: Inode, fromStart: bool)
    requires Inv(w) && w.handle.Some? && w.path.None? && next !in w.files
    ensures var pumped := Step(Step(w, Create(next), fromStart), Pump, fromStart);
            pumped.owed ==
            pumped.delivered + if RotationPending(w) || Behind(w) then LinesFrom(Text(w, w.out), 0) else []
  {
    var created := Step(w, Create(next), fromStart);
    assert created.path == Some(next) && created.handle == w.handle;
    NoLines(Text(w, w.out));
    NoLines("");
    var old_ := w.handle.value;
    assert Text(created, old_.inode) == Text(w, old_.inode) && Text(created, next) == "";
    var left := LinesFrom(Text(w, old_.inode), old_.pos);
    assert Step(created, Pump, fromStart).delivered == w.delivered + (left + []);
    assert left + [] == left;
    if RotationPending(w) {
      Assoc(w.delivered, left, LinesFrom(Text(w, w.out), 0));
    }
  }

  /** A pump that finds the file but cannot open it, when it would have to: what was left in a file
      that was rotated away is delivered all the same, and nothing else; an open handle is closed
      for good, and a path not seen before is not counted as seen. */
  lemma LockedPump(w: World, fromStart: bool)
    requires Inv(w) && w.path.Some? && (w.handle.None? || RotationPending(w) || Behind(w))
    ensures var look := LookAt(Disk(w.files, map[PATH := w.out], {PATH}), PATH, w.handle, fromStart);
            && look.outcome == Failed
            && look.lines == (if RotationPending(w) then LinesFrom(w.files[w.handle.value.inode], w.handle.value.pos) else [])
            && (w.handle.None? <==> look.handle.None?)
            && (w.handle.Some? ==> look.handle.value.closed)
  {
  }

  /** In every run that was legal so far: the file is rotated, the path being free, and nothing that is
      owed gets lost exactly when no rotation was pending and no truncation unseen, or the file that
      is left behind is empty. */
  lemma RotationDeliversAllIff(first: World, events: seq<Event>, next: Inode, fromStart: bool)
    requires Initial(first) && LegalRun(first, events, fromStart)
    requires var w := Run(first, events, fromStart);
             w.handle.Some? && w.path.None? && next !in w.files
    ensures var w := Run(first, events, fromStart);
            var pumped := Run(first, events + [Create(next), Pump], fromStart);
            pumped.delivered == pumped.owed <==>
              (!RotationPending(w) && !Behind(w)) || Text(w, w.out) == ""
  {
    var w := Run(first, events, fromStart);
    InvHolds(first, events, fromStart);
    LostByRotation(w, next, fromStart);
    NoLines(Text(w, w.out));
    var all := events + [Create(next), Pump];
    assert all[..|events| + 1][..|events|] == events && all[..|all| - 1] == all[..|events| + 1];
    assert Run(first, all, fromStart) == Step(Step(w, Create(next), fromStart), Pump, fromStart);
  }
}
