/**
 The kernel-log tailer. Files are character sequences behind inodes, a path names one inode at a
 time, and the watcher holds an open handle: an inode and a byte position. The claim is
 exactly-once delivery of whole lines across appends, rename rotations and truncations.
 */
module KernelLog {
  import opened Wrappers
  import opened Tallies
  import opened Texts

  type Inode = int

  // ---- Lines -----------------------------------------------------------------------------

  /** Where the next `readline` stops: after the first line feed, or at the end. */
  function LineEnd(text: string, pos: nat): (end: nat)
    requires pos < |text|
    ensures pos < end <= |text|
    ensures forall i :: pos <= i < end - 1 ==> text[i] != '\n'
    ensures text[end - 1] == '\n' || end == |text|
    decreases |text| - pos
  {
    if text[pos] == '\n' || pos + 1 == |text| then pos + 1 else LineEnd(text, pos + 1)
  }

  function StripNewline(line: string): string {
    if line != "" && line[|line| - 1] == '\n' then line[..|line| - 1] else line
  }

  /** The lines of a text, as `readline` cuts them. */
  function LinesOf(text: string): seq<string> {
    if text == "" then []
    else [StripNewline(text[..LineEnd(text, 0)])] + LinesOf(text[LineEnd(text, 0)..])
  }

  function Rest(text: string, pos: nat): string {
    if pos <= |text| then text[pos..] else ""
  }

  /** What reading from a position to the end hands to the matcher, line by line. */
  function LinesFrom(text: string, pos: nat): seq<string> {
    LinesOf(Rest(text, pos))
  }

  predicate IsLine(line: string) {
    forall i :: 0 <= i < |line| ==> line[i] != '\n'
  }

  predicate Whole(text: string) {
    text == "" || text[|text| - 1] == '\n'
  }

  lemma LineEndUnique(text: string, pos: nat, end: nat)
    requires pos < end <= |text|
    requires forall i :: pos <= i < end - 1 ==> text[i] != '\n'
    requires text[end - 1] == '\n' || end == |text|
    ensures LineEnd(text, pos) == end
  {
    var e := LineEnd(text, pos);
  }

  lemma CutRest(text: string, pos: nat, end: nat)
    requires pos <= end <= |text|
    ensures text[pos..][..end - pos] == text[pos..end] && text[pos..][end - pos..] == text[end..]
  {
  }

  lemma LineEndOfRest(text: string, pos: nat)
    requires pos < |text|
    ensures LineEnd(text[pos..], 0) == LineEnd(text, pos) - pos
  {
    LineEndUnique(text[pos..], 0, LineEnd(text, pos) - pos);
  }

  lemma LinesOfParts(text: string, first: string, rest: string)
    requires text != "" && text[..LineEnd(text, 0)] == first && text[LineEnd(text, 0)..] == rest
    ensures LinesOf(text) == [StripNewline(first)] + LinesOf(rest)
  {
  }

  /** One turn of the reading loop. */
  lemma ReadLine(text: string, pos: nat, end: nat, line: string)
    requires pos < |text| && end == LineEnd(text, pos) && line == StripNewline(text[pos..end])
    ensures LinesFrom(text, pos) == [line] + LinesFrom(text, end)
  {
    LineEndOfRest(text, pos);
    CutRest(text, pos, end);
    LinesOfParts(text[pos..], text[pos..end], text[end..]);
  }

  lemma SplitConcat(a: string, b: string, e: nat)
    requires e <= |a|
    ensures (a + b)[..e] == a[..e] && (a + b)[e..] == a[e..] + b
  {
  }

  /** What follows does not change the first of some whole lines. */
  lemma FirstLineOf(a: string, b: string)
    requires Whole(a) && a != ""
    ensures LineEnd(a + b, 0) == LineEnd(a, 0)
    ensures Whole(a[LineEnd(a, 0)..])
  {
    LineEndUnique(a + b, 0, LineEnd(a, 0));
  }

  /** Whole lines and what follows them are read as lines of their own. */
  lemma {:induction false} LinesOfConcat(a: string, b: string)
    requires Whole(a)
    ensures LinesOf(a + b) == LinesOf(a) + LinesOf(b)
  {
    if a == "" {
      assert a + b == b;
    } else {
      var e := LineEnd(a, 0);
      FirstLineOf(a, b);
      SplitConcat(a, b, e);
      LinesOfConcat(a[e..], b);
      Assoc([StripNewline(a[..e])], LinesOf(a[e..]), LinesOf(b));
    }
  }

  /** Text appended after whole lines is read as lines of its own, from any position before it. */
  lemma LinesConcat(a: string, b: string, p: nat)
    requires Whole(a) && p <= |a|
    ensures LinesFrom(a + b, p) == LinesFrom(a, p) + LinesFrom(b, 0)
  {
    SplitConcat(a, b, p);
    LinesOfConcat(a[p..], b);
    assert b[0..] == b;
  }

  lemma OneLine(line: string)
    requires IsLine(line)
    ensures LinesFrom(line + "\n", 0) == [line]
  {
    var text := line + "\n";
    LineEndUnique(text, 0, |text|);
    assert text[0..] == text && text[..|text|] == text && text[|text|..] == "";
    assert LinesOf("") == [];
  }

  // ---- Rules -----------------------------------------------------------------------------

  datatype Severity = Fatal | Warning | Patch

  /** A rule's regular expression is any predicate on lines. */
  datatype Rule = Rule(name: string, severity: Severity, matches: string -> bool)

  ghost predicate UniqueRules(rules: seq<Rule>) {
    forall i, j :: 0 <= i < j < |rules| ==> rules[i].name != rules[j].name
  }

  /** k is the first rule that matches the line. */
  predicate FirstMatch(rules: seq<Rule>, line: string, k: int) {
    && 0 <= k < |rules| && rules[k].matches(line)
    && forall j :: 0 <= j < k ==> !rules[j].matches(line)
  }

  predicate AnyMatch(rules: seq<Rule>, line: string) {
    exists j :: 0 <= j < |rules| && rules[j].matches(line)
  }

  function FiledUnder(rules: seq<Rule>, lines: seq<string>, k: int): (flags: seq<bool>)
    ensures |flags| == |lines|
    ensures forall i :: 0 <= i < |lines| ==> flags[i] == FirstMatch(rules, lines[i], k)
  {
    seq(|lines|, i requires 0 <= i < |lines| => FirstMatch(rules, lines[i], k))
  }

  function Matched(rules: seq<Rule>, lines: seq<string>): (flags: seq<bool>)
    ensures |flags| == |lines|
    ensures forall i :: 0 <= i < |lines| ==> flags[i] == AnyMatch(rules, lines[i])
  {
    seq(|lines|, i requires 0 <= i < |lines| => AnyMatch(rules, lines[i]))
  }

  // ---- The watcher -----------------------------------------------------------------------

  /** A reopen that fails leaves the closed handle in place. */
  datatype Handle = Handle(inode: Inode, pos: nat, closed: bool)

  /** What the operating system shows: the file behind each inode, open or not, the inode each path
      names now, and the paths that exist but cannot be opened. */
  datatype Disk = Disk(files: map<Inode, string>, paths: map<string, Inode>, locked: set<string>)

  /** How a look at a path ends. `Died` is the exception that the thread does not catch: asking a
      closed handle for its position. */
  datatype Outcome = Read | Failed | Died

  function Content(disk: Disk, inode: Inode): string {
    if inode in disk.files then disk.files[inode] else ""
  }

  class KernelLogWatcher {
    const rules: seq<Rule>
    const fromStart: bool
    var counts: map<string, nat>
    var handles: map<string, Handle>
    var filesOk: map<string, bool>
    var alive: bool                    // the tailing thread
    ghost var delivered: seq<string>   // every line ever passed to the matcher

    ghost predicate Valid()
      reads this
    {
      UniqueRules(rules) && CountsOk(rules, delivered, counts)
    }

    constructor (rules: seq<Rule>, fromStart: bool)
      requires UniqueRules(rules)
      ensures Valid() && delivered == [] && handles == map[] && filesOk == map[] && alive
      ensures this.rules == rules && this.fromStart == fromStart
    {
      this.rules, this.fromStart := rules, fromStart;
      var names := set k | 0 <= k < |rules| :: rules[k].name;
      counts := map name | name in names :: 0;
      handles, filesOk, alive, delivered := map[], map[], true, [];
    }

    method Match(line: string)
      requires Valid()
      modifies this`counts, this`delivered
      ensures Valid()
      ensures delivered == old(delivered) + [line]
    {
      ghost var before := delivered;
      delivered := delivered + [line];
      for k := 0 to |rules|
        invariant counts == old(counts) && delivered == before + [line]
        invariant forall j :: 0 <= j < k ==> !rules[j].matches(line)
      {
        if rules[k].matches(line) {
          CountsStep(rules, before, counts, line, k);
          counts := counts[rules[k].name := counts[rules[k].name] + 1];
          return;
        }
      }
      CountsUnmatched(rules, before, counts, line);
    }

    /** Reads from a position to the end of a file, one line at a time. */
    method Consume(text: string, start: nat) returns (pos: nat)
      requires Valid()
      modifies this`counts, this`delivered
      ensures Valid()
      ensures pos == if start <= |text| then |text| else start
      ensures delivered == old(delivered) + LinesFrom(text, start)
    {
      pos := start;
      ghost var read := [];
      while pos < |text|
        invariant Valid()
        invariant pos == start || start <= pos <= |text|
        invariant LinesFrom(text, start) == read + LinesFrom(text, pos)
        invariant delivered == old(delivered) + read
      {
        var end := LineEnd(text, pos);
        var line := StripNewline(text[pos..end]);
        ReadLine(text, pos, end, line);
        Assoc(read, [line], LinesFrom(text, end));
        Assoc(old(delivered), read, [line]);
        Match(line);
        read := read + [line];
        pos := end;
      }
    }

    /** One look at one path. */
    method Pump(path: string, disk: Disk) returns (outcome: Outcome)
      requires Valid()
      modifies this`counts, this`delivered, this`handles
      ensures Valid()
      ensures var look := LookAt(disk, path, Held(old(handles), path), fromStart);
              && outcome == look.outcome
              && delivered == old(delivered) + look.lines
              && handles == Keep(old(handles), path, look.handle)
    {
      ghost var handle0 := Held(handles, path);
      KeepSame(handles, path);
      LookRefused(disk, path, handle0, fromStart);
      assert delivered + [] == delivered;
      if path !in disk.paths {
        return Failed;
      }
      var inode := disk.paths[path];
      var size := |Content(disk, inode)|;
      var reopen, pos := path !in handles, 0;
      ghost var drained: seq<string> := [];
      if path in handles {
        var handle := handles[path];
        if handle.closed {
          return Died;
        }
        var rotated := handle.inode != inode;
        var truncated := handle.pos > size;
        pos := handle.pos;
        if rotated || truncated {
          if rotated {
            drained := LinesFrom(Content(disk, handle.inode), handle.pos);
            var end := Consume(Content(disk, handle.inode), handle.pos);
          }
          reopen := true;
        }
      }
      assert delivered == old(delivered) + drained;
      if reopen {
        if path in disk.locked {
          if path in handles {
            handles := handles[path := handles[path].(closed := true)];
          }
          return Failed;
        }
        pos := if !fromStart && path !in handles then size else 0;
      }
      LookReads(disk, path, handle0, fromStart);
      Assoc(old(delivered), drained, LinesFrom(Content(disk, inode), pos));
      var end := Consume(Content(disk, inode), pos);
      handles := handles[path := Handle(inode, end, false)];
      outcome := Read;
    }

    ghost function Tail(): Tail
      reads this
    {
      TailOf(handles, filesOk, delivered, alive)
    }

    /** One round of the tailing thread: every path in turn, noting which could be read. */
    method Sweep(paths: seq<string>, disk: Disk)
      requires Valid()
      modifies this
      ensures Valid()
      ensures Tail() == SweepAll(disk, old(Tail()), paths, fromStart)
    {
      if !alive {
        DeadStays(disk, Tail(), paths, fromStart, 0);
        return;
      }
      for k := 0 to |paths|
        invariant Valid() && alive
        invariant Tail() == SweepAll(disk, old(Tail()), paths[..k], fromStart)
      {
        assert paths[..k + 1][..k] == paths[..k];
        var outcome := Pump(paths[k], disk);
        if outcome == Died {
          alive := false;
          DeadStays(disk, old(Tail()), paths, fromStart, k + 1);
          return;
        }
        filesOk := filesOk[paths[k] := outcome == Read];
      }
      assert paths[..|paths|] == paths;
    }

    method SeverityCounts() returns (out: map<Severity, nat>)
      requires Valid()
      ensures forall s: Severity :: s in out && out[s] == BySeverity(rules, delivered, s, |rules|)
      ensures forall s: Severity :: out[s] == |set i | 0 <= i < |delivered| && HasSeverity(rules, delivered[i], s, |rules|)|
    {
      out := map[Fatal := 0, Warning := 0, Patch := 0];
      forall s: Severity
        ensures s in out && out[s] == 0
      {
        assert s == Fatal || s == Warning || s == Patch;
      }
      for k := 0 to |rules|
        invariant forall s: Severity :: s in out && out[s] == BySeverity(rules, delivered, s, k)
      {
        var filed := counts[rules[k].name];
        assert filed == Tally(FiledUnder(rules, delivered, k));
        out := out[rules[k].severity := out[rules[k].severity] + filed];
      }
      forall s: Severity
        ensures out[s] == |set i | 0 <= i < |delivered| && HasSeverity(rules, delivered[i], s, |rules|)|
      {
        SeverityIsCount(rules, delivered, s);
      }
    }
  }

  /** Each counter is the number of delivered lines whose first matching rule is that rule. */
  ghost predicate CountsOk(rules: seq<Rule>, lines: seq<string>, counts: map<string, nat>) {
    forall k :: 0 <= k < |rules| ==>
      rules[k].name in counts && counts[rules[k].name] == Tally(FiledUnder(rules, lines, k))
  }

  lemma CountsStep(rules: seq<Rule>, lines: seq<string>, counts: map<string, nat>, line: string, k: nat)
    requires UniqueRules(rules) && CountsOk(rules, lines, counts)
    requires FirstMatch(rules, line, k)
    ensures CountsOk(rules, lines + [line], counts[rules[k].name := counts[rules[k].name] + 1])
  {
    forall j | 0 <= j < |rules|
      ensures var counts' := counts[rules[k].name := counts[rules[k].name] + 1];
              rules[j].name in counts' && counts'[rules[j].name] == Tally(FiledUnder(rules, lines + [line], j))
    {
      FiledStep(rules, lines, line, j);
      assert FirstMatch(rules, line, j) <==> j == k;
    }
  }

  lemma CountsUnmatched(rules: seq<Rule>, lines: seq<string>, counts: map<string, nat>, line: string)
    requires CountsOk(rules, lines, counts) && !AnyMatch(rules, line)
    ensures CountsOk(rules, lines + [line], counts)
  {
    forall j | 0 <= j < |rules|
      ensures counts[rules[j].name] == Tally(FiledUnder(rules, lines + [line], j))
    {
      FiledStep(rules, lines, line, j);
    }
  }

  lemma FiledStep(rules: seq<Rule>, lines: seq<string>, line: string, k: int)
    ensures Tally(FiledUnder(rules, lines + [line], k)) ==
            Tally(FiledUnder(rules, lines, k)) + if FirstMatch(rules, line, k) then 1 else 0
  {
    var flags := FiledUnder(rules, lines + [line], k);
    assert flags[..|lines|] == FiledUnder(rules, lines, k);
  }

  // ---- Severity totals -------------------------------------------------------------------

  ghost function BySeverity(rules: seq<Rule>, lines: seq<string>, s: Severity, upto: nat): nat
    requires upto <= |rules|
  {
    if upto == 0 then 0
    else BySeverity(rules, lines, s, upto - 1) +
         if rules[upto - 1].severity == s then Tally(FiledUnder(rules, lines, upto - 1)) else 0
  }

  ghost function TotalUpTo(rules: seq<Rule>, lines: seq<string>, upto: nat): nat
    requires upto <= |rules|
  {
    if upto == 0 then 0
    else TotalUpTo(rules, lines, upto - 1) + Tally(FiledUnder(rules, lines, upto - 1))
  }

  /** The severity totals add up to the lines that match any rule. */
  lemma SeveritiesCoverMatches(rules: seq<Rule>, lines: seq<string>)
    ensures BySeverity(rules, lines, Fatal, |rules|) + BySeverity(rules, lines, Warning, |rules|)
            + BySeverity(rules, lines, Patch, |rules|) == Tally(Matched(rules, lines))
  {
    SeveritiesAddUp(rules, lines, |rules|);
    TotalIsMatched(rules, lines);
  }

  lemma {:induction false} SeveritiesAddUp(rules: seq<Rule>, lines: seq<string>, upto: nat)
    requires upto <= |rules|
    ensures BySeverity(rules, lines, Fatal, upto) + BySeverity(rules, lines, Warning, upto) + BySeverity(rules, lines, Patch, upto)
            == TotalUpTo(rules, lines, upto)
  {
    if upto > 0 {
      SeveritiesAddUp(rules, lines, upto - 1);
    }
  }

  /** The first rule that matches the line has this severity. */
  ghost predicate HasSeverity(rules: seq<Rule>, line: string, s: Severity, upto: nat) {
    exists k :: 0 <= k < |rules| && k < upto && rules[k].severity == s && rules[k].matches(line)
                && forall j :: 0 <= j < k ==> !rules[j].matches(line)
  }

  ghost function SeverityFlags(rules: seq<Rule>, lines: seq<string>, s: Severity, upto: nat): (flags: seq<bool>)
    ensures |flags| == |lines|
    ensures forall i :: 0 <= i < |lines| ==> flags[i] == HasSeverity(rules, lines[i], s, upto)
  {
    seq(|lines|, i requires 0 <= i < |lines| => HasSeverity(rules, lines[i], s, upto))
  }

  lemma {:induction false} TallyDisjoint(a: seq<bool>, b: seq<bool>, either: seq<bool>)
    requires |a| == |b| == |either|
    requires forall i :: 0 <= i < |a| ==> (either[i] <==> a[i] || b[i]) && !(a[i] && b[i])
    ensures Tally(either) == Tally(a) + Tally(b)
  {
    if a != [] {
      var n := |a| - 1;
      TallyDisjoint(a[..n], b[..n], either[..n]);
    }
  }

  lemma SeverityOneMore(rules: seq<Rule>, line: string, s: Severity, upto: nat)
    requires upto < |rules|
    ensures rules[upto].severity == s ==>
      && (HasSeverity(rules, line, s, upto + 1) <==> HasSeverity(rules, line, s, upto) || FirstMatch(rules, line, upto))
      && !(HasSeverity(rules, line, s, upto) && FirstMatch(rules, line, upto))
    ensures rules[upto].severity != s ==> (HasSeverity(rules, line, s, upto + 1) <==> HasSeverity(rules, line, s, upto))
  {
  }

  lemma {:induction false} SeverityUpTo(rules: seq<Rule>, lines: seq<string>, s: Severity, upto: nat)
    requires upto <= |rules|
    ensures BySeverity(rules, lines, s, upto) == Tally(SeverityFlags(rules, lines, s, upto))
  {
    var flags := SeverityFlags(rules, lines, s, upto);
    if upto == 0 {
      TallyNone(flags);
    } else {
      SeverityUpTo(rules, lines, s, upto - 1);
      var before := SeverityFlags(rules, lines, s, upto - 1);
      forall i | 0 <= i < |lines|
        ensures rules[upto - 1].severity == s ==>
          && (flags[i] <==> before[i] || FiledUnder(rules, lines, upto - 1)[i])
          && !(before[i] && FiledUnder(rules, lines, upto - 1)[i])
        ensures rules[upto - 1].severity != s ==> flags[i] == before[i]
      {
        SeverityOneMore(rules, lines[i], s, upto - 1);
      }
      if rules[upto - 1].severity == s {
        TallyDisjoint(before, FiledUnder(rules, lines, upto - 1), flags);
      } else {
        assert flags == before;
      }
    }
  }

  /** A severity's total is the number of delivered lines whose first matching rule has it. */
  lemma SeverityIsCount(rules: seq<Rule>, lines: seq<string>, s: Severity)
    ensures BySeverity(rules, lines, s, |rules|) ==
            |set i | 0 <= i < |lines| && HasSeverity(rules, lines[i], s, |rules|)|
  {
    var flags := SeverityFlags(rules, lines, s, |rules|);
    SeverityUpTo(rules, lines, s, |rules|);
    TallyIsCount(flags);
    assert (set i | 0 <= i < |lines| && HasSeverity(rules, lines[i], s, |rules|)) == set i | 0 <= i < |flags| && flags[i];
  }

  /** Every line is filed under at most one rule, so the totals add up to the matched lines. */
  lemma {:induction false} TotalIsMatched(rules: seq<Rule>, lines: seq<string>)
    ensures TotalUpTo(rules, lines, |rules|) == Tally(Matched(rules, lines))
  {
    if lines == [] {
      TotalOfNone(rules, |rules|);
    } else {
      var init, line := lines[..|lines| - 1], lines[|lines| - 1];
      assert init + [line] == lines;
      TotalIsMatched(rules, init);
      TotalStep(rules, init, line, |rules|);
      assert Matched(rules, lines)[..|init|] == Matched(rules, init);
      AnyBelowIff(rules, line, |rules|);
    }
  }

  lemma {:induction false} TotalOfNone(rules: seq<Rule>, upto: nat)
    requires upto <= |rules|
    ensures TotalUpTo(rules, [], upto) == 0
  {
    if upto > 0 {
      TotalOfNone(rules, upto - 1);
    }
  }

  /** Some rule below `upto` matches. */
  predicate AnyBelow(rules: seq<Rule>, line: string, upto: nat)
    requires upto <= |rules|
  {
    upto > 0 && (AnyBelow(rules, line, upto - 1) || rules[upto - 1].matches(line))
  }

  lemma {:induction false} AnyBelowIff(rules: seq<Rule>, line: string, upto: nat)
    requires upto <= |rules|
    ensures AnyBelow(rules, line, upto) <==> exists j :: 0 <= j < upto && rules[j].matches(line)
  {
    if upto > 0 {
      AnyBelowIff(rules, line, upto - 1);
    }
  }

  lemma {:induction false} TotalStep(rules: seq<Rule>, lines: seq<string>, line: string, upto: nat)
    requires upto <= |rules|
    ensures TotalUpTo(rules, lines + [line], upto) ==
            TotalUpTo(rules, lines, upto) + if AnyBelow(rules, line, upto) then 1 else 0
  {
    if upto > 0 {
      TotalStep(rules, lines, line, upto - 1);
      FiledStep(rules, lines, line, upto - 1);
      AnyBelowIff(rules, line, upto - 1);
    }
  }

  // ---- One pump on one path --------------------------------------------------------------

  /** The lines one pump delivers. */
  function PumpLines(disk: Disk, inode: Inode, handle: Option<Handle>, fromStart: bool): seq<string> {
    match handle
    case None => if fromStart then LinesFrom(Content(disk, inode), 0) else []
    case Some(h) =>
      if h.inode != inode then LinesFrom(Content(disk, h.inode), h.pos) + LinesFrom(Content(disk, inode), 0)
      else if h.pos > |Content(disk, inode)| then LinesFrom(Content(disk, inode), 0)
      else LinesFrom(Content(disk, inode), h.pos)
  }

  /** What is left in a file that was rotated away. */
  function Drained(disk: Disk, inode: Inode, handle: Option<Handle>): seq<string> {
    if handle.Some? && handle.value.inode != inode
    then LinesFrom(Content(disk, handle.value.inode), handle.value.pos)
    else []
  }

  /** Where reading the file that the path names begins. */
  function StartAt(disk: Disk, inode: Inode, handle: Option<Handle>, fromStart: bool): nat {
    match handle
    case None => if fromStart then 0 else |Content(disk, inode)|
    case Some(h) => if h.inode != inode || h.pos > |Content(disk, inode)| then 0 else h.pos
  }

  lemma PumpParts(disk: Disk, inode: Inode, handle: Option<Handle>, fromStart: bool)
    ensures PumpLines(disk, inode, handle, fromStart) ==
            Drained(disk, inode, handle) + LinesFrom(Content(disk, inode), StartAt(disk, inode, handle, fromStart))
  {
  }

  function PumpHandle(disk: Disk, inode: Inode): Handle {
    Handle(inode, |Content(disk, inode)|, false)
  }

  function Held(handles: map<string, Handle>, path: string): Option<Handle> {
    if path in handles then Some(handles[path]) else None
  }

  function Keep(handles: map<string, Handle>, path: string, handle: Option<Handle>): map<string, Handle> {
    if handle.Some? then handles[path := handle.value] else handles
  }

  /** The file was not open before, or is another one, or has shrunk. */
  predicate Opens(disk: Disk, inode: Inode, handle: Option<Handle>) {
    handle.None? || handle.value.inode != inode || handle.value.pos > |Content(disk, inode)|
  }

  /** What one look at a path comes to, by its own handle alone. */
  datatype Look = Look(outcome: Outcome, handle: Option<Handle>, lines: seq<string>)

  function LookAt(disk: Disk, path: string, handle: Option<Handle>, fromStart: bool): Look {
    if path !in disk.paths then Look(Failed, handle, [])
    else if handle.Some? && handle.value.closed then Look(Died, handle, [])
    else
      var inode := disk.paths[path];
      if Opens(disk, inode, handle) && path in disk.locked then
        Look(Failed, if handle.Some? then Some(handle.value.(closed := true)) else None, Drained(disk, inode, handle))
      else
        Look(Read, Some(PumpHandle(disk, inode)), PumpLines(disk, inode, handle, fromStart))
  }

  lemma KeepSame(handles: map<string, Handle>, path: string)
    ensures Keep(handles, path, Held(handles, path)) == handles
  {
  }

  lemma LookRefused(disk: Disk, path: string, handle: Option<Handle>, fromStart: bool)
    ensures path !in disk.paths ==> LookAt(disk, path, handle, fromStart) == Look(Failed, handle, [])
    ensures path in disk.paths && handle.Some? && handle.value.closed ==>
              LookAt(disk, path, handle, fromStart) == Look(Died, handle, [])
  {
  }

  lemma LookReads(disk: Disk, path: string, handle: Option<Handle>, fromStart: bool)
    requires path in disk.paths && !(handle.Some? && handle.value.closed)
    requires !(Opens(disk, disk.paths[path], handle) && path in disk.locked)
    ensures var inode := disk.paths[path];
            LookAt(disk, path, handle, fromStart) ==
            Look(Read, Some(PumpHandle(disk, inode)),
                 Drained(disk, inode, handle) + LinesFrom(Content(disk, inode), StartAt(disk, inode, handle, fromStart)))
  {
    PumpParts(disk, disk.paths[path], handle, fromStart);
  }

  // ---- Rounds over several paths -----------------------------------------------------------

  datatype Tail = TailOf(handles: map<string, Handle>, filesOk: map<string, bool>, lines: seq<string>, alive: bool)

  function AfterLook(s: Tail, path: string, look: Look): Tail {
    if look.outcome == Died then s.(alive := false)
    else TailOf(Keep(s.handles, path, look.handle), s.filesOk[path := look.outcome == Read], s.lines + look.lines, true)
  }

  function SweepAll(disk: Disk, s: Tail, paths: seq<string>, fromStart: bool): Tail {
    if paths == [] then s
    else
      var before, path := SweepAll(disk, s, paths[..|paths| - 1], fromStart), paths[|paths| - 1];
      if !before.alive then before
      else AfterLook(before, path, LookAt(disk, path, Held(before.handles, path), fromStart))
  }

  /** A thread that has ended does nothing any more. */
  lemma {:induction false} DeadStays(disk: Disk, s: Tail, paths: seq<string>, fromStart: bool, k: nat)
    requires k <= |paths| && !SweepAll(disk, s, paths[..k], fromStart).alive
    ensures SweepAll(disk, s, paths, fromStart) == SweepAll(disk, s, paths[..k], fromStart)
  {
    if k == |paths| {
      assert paths[..k] == paths;
    } else {
      var init := paths[..|paths| - 1];
      assert init[..k] == paths[..k];
      DeadStays(disk, s, init, fromStart, k);
    }
  }

  ghost predicate Different(paths: seq<string>) {
    forall i, j :: 0 <= i < j < |paths| ==> paths[i] != paths[j]
  }

  /** What looking at each path on its own would deliver, path after path. */
  function EachAlone(disk: Disk, handles: map<string, Handle>, paths: seq<string>, fromStart: bool): seq<string> {
    if paths == [] then []
    else
      var path := paths[|paths| - 1];
      EachAlone(disk, handles, paths[..|paths| - 1], fromStart) +
      LookAt(disk, path, Held(handles, path), fromStart).lines
  }

  /** The look at one of the paths ends the thread. */
  ghost predicate EndsThread(disk: Disk, handles: map<string, Handle>, path: string) {
    path in disk.paths && path in handles && handles[path].closed
  }

  /** What the round leaves for one path: its own look if it is one of them, and else what was there. */
  ghost predicate LooksAlone(disk: Disk, s: Tail, paths: seq<string>, fromStart: bool, p: string) {
    var s', look := SweepAll(disk, s, paths, fromStart), LookAt(disk, p, Held(s.handles, p), fromStart);
    if p in paths then
      Held(s'.handles, p) == look.handle && p in s'.filesOk && s'.filesOk[p] == (look.outcome == Read)
    else
      && Held(s'.handles, p) == Held(s.handles, p)
      && (p in s'.filesOk <==> p in s.filesOk)
      && (p in s.filesOk ==> s'.filesOk[p] == s.filesOk[p])
  }

  lemma LookLeavesOthers(disk: Disk, s: Tail, path: string, fromStart: bool, p: string)
    requires LookAt(disk, path, Held(s.handles, path), fromStart).outcome != Died
    ensures var look := LookAt(disk, path, Held(s.handles, path), fromStart);
            var s' := AfterLook(s, path, look);
            && Held(s'.handles, p) == (if p == path then look.handle else Held(s.handles, p))
            && (p in s'.filesOk <==> p == path || p in s.filesOk)
            && (p in s'.filesOk ==> s'.filesOk[p] == if p == path then look.outcome == Read else s.filesOk[p])
  {
  }

  lemma SweepLast(disk: Disk, s: Tail, paths: seq<string>, path: string, fromStart: bool)
    ensures var before := SweepAll(disk, s, paths, fromStart);
            SweepAll(disk, s, paths + [path], fromStart) ==
            if !before.alive then before
            else AfterLook(before, path, LookAt(disk, path, Held(before.handles, path), fromStart))
  {
    assert (paths + [path])[..|paths|] == paths;
  }

  lemma DifferentInit(paths: seq<string>)
    requires Different(paths) && paths != []
    ensures var init, last := paths[..|paths| - 1], paths[|paths| - 1];
            Different(init) && last !in init && paths == init + [last]
  {
  }

  /** Different paths do not disturb each other: as long as the thread lives, a round leaves for each
      path what its own look gives, whatever the others are. */
  lemma {:induction false} PathsAreIndependent(disk: Disk, s: Tail, paths: seq<string>, fromStart: bool, p: string)
    requires Different(paths) && s.alive && SweepAll(disk, s, paths, fromStart).alive
    ensures LooksAlone(disk, s, paths, fromStart, p)
  {
    if paths != [] {
      var init, last := paths[..|paths| - 1], paths[|paths| - 1];
      DifferentInit(paths);
      SweepLast(disk, s, init, last, fromStart);
      PathsAreIndependent(disk, s, init, fromStart, last);
      PathsAreIndependent(disk, s, init, fromStart, p);
      LookLeavesOthers(disk, SweepAll(disk, s, init, fromStart), last, fromStart, p);
    }
  }

  /** After a round that the thread survives, a path reads as readable exactly when it exists and either
      needed no opening or could be opened. */
  lemma MarkedReadableIff(disk: Disk, s: Tail, paths: seq<string>, fromStart: bool, p: string)
    requires Different(paths) && s.alive && SweepAll(disk, s, paths, fromStart).alive && p in paths
    ensures var marks := SweepAll(disk, s, paths, fromStart).filesOk;
            p in marks && (marks[p] <==>
              p in disk.paths && (Opens(disk, disk.paths[p], Held(s.handles, p)) ==> p !in disk.locked))
  {
    PathsAreIndependent(disk, s, paths, fromStart, p);
    ThreadEndsIff(disk, s, paths, fromStart);
    DiesIff(disk, s.handles, p, fromStart);
  }

  /** And it delivers, path after path, what each look gives. */
  lemma {:induction false} RoundDelivers(disk: Disk, s: Tail, paths: seq<string>, fromStart: bool)
    requires Different(paths) && s.alive && SweepAll(disk, s, paths, fromStart).alive
    ensures SweepAll(disk, s, paths, fromStart).lines == s.lines + EachAlone(disk, s.handles, paths, fromStart)
  {
    if paths != [] {
      var init, last := paths[..|paths| - 1], paths[|paths| - 1];
      DifferentInit(paths);
      SweepLast(disk, s, init, last, fromStart);
      RoundDelivers(disk, s, init, fromStart);
      PathsAreIndependent(disk, s, init, fromStart, last);
      Assoc(s.lines, EachAlone(disk, s.handles, init, fromStart), LookAt(disk, last, Held(s.handles, last), fromStart).lines);
    } else {
      assert s.lines + [] == s.lines;
    }
  }

  lemma DiesIff(disk: Disk, handles: map<string, Handle>, path: string, fromStart: bool)
    ensures LookAt(disk, path, Held(handles, path), fromStart).outcome == Died <==> EndsThread(disk, handles, path)
  {
  }

  lemma LookEnds(disk: Disk, s: Tail, paths: seq<string>, path: string, fromStart: bool)
    requires Different(paths) && path !in paths && s.alive && SweepAll(disk, s, paths, fromStart).alive
    ensures SweepAll(disk, s, paths + [path], fromStart).alive <==> !EndsThread(disk, s.handles, path)
  {
    PathsAreIndependent(disk, s, paths, fromStart, path);
    SweepLast(disk, s, paths, path, fromStart);
    DiesIff(disk, s.handles, path, fromStart);
  }

  /** A round ends the thread exactly when it meets a closed handle on a path that exists. */
  lemma {:induction false} ThreadEndsIff(disk: Disk, s: Tail, paths: seq<string>, fromStart: bool)
    requires Different(paths) && s.alive
    ensures !SweepAll(disk, s, paths, fromStart).alive <==> exists p :: p in paths && EndsThread(disk, s.handles, p)
  {
    if paths != [] {
      var init, last := paths[..|paths| - 1], paths[|paths| - 1];
      assert paths == init + [last];
      ThreadEndsIff(disk, s, init, fromStart);
      if SweepAll(disk, s, init, fromStart).alive {
        LookEnds(disk, s, init, last, fromStart);
      }
    }
  }

  /** A failed reopen is fatal: the file was rotated or truncated and its path could not be opened.
      The next round in which the path exists ends the thread, and nothing is delivered any more. */
  lemma FailedReopenIsFatal(
    disk: Disk, s: Tail, paths: seq<string>, fromStart: bool, p: string, disk': Disk, later: Disk, rest: seq<string>)
    requires Different(paths) && s.alive && SweepAll(disk, s, paths, fromStart).alive
    requires p in paths && p in s.handles && p in disk.paths && p in disk.locked
    requires Opens(disk, disk.paths[p], Some(s.handles[p]))
    requires p in disk'.paths
    ensures var s1 := SweepAll(disk, s, paths, fromStart);
            var s2 := SweepAll(disk', s1, paths, fromStart);
            !s2.alive && SweepAll(later, s2, rest, fromStart) == s2
  {
    PathsAreIndependent(disk, s, paths, fromStart, p);
    var s1 := SweepAll(disk, s, paths, fromStart);
    assert EndsThread(disk', s1.handles, p);
    ThreadEndsIff(disk', s1, paths, fromStart);
    assert rest[..0] == [];
    DeadStays(later, SweepAll(disk', s1, paths, fromStart), rest, fromStart, 0);
  }
}
