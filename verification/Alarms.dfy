/** From log lines to conditions: the tailer's counters feed the evaluator, over whole runs. */
module Alarms {
  import opened Wrappers
  import opened Clock
  import opened Tallies
  import opened KernelLog
  import opened Conditions
  import KernelLogRuns
  import Census

  /** Sample i was taken when `read[i]` was all that had been delivered. */
  ghost predicate Snapshots(rules: seq<Rule>, seen: seq<Sample>, read: seq<seq<string>>) {
    && |read| == |seen|
    && (forall i :: 0 <= i < |seen| ==> CountsOk(rules, read[i], seen[i].counts))
    && (forall i, j :: 0 <= i < j < |read| ==> Extends(read[i], read[j]))
  }

  predicate Extends(a: seq<string>, b: seq<string>) {
    a <= b
  }

  ghost predicate HasRule(rules: seq<Rule>, name: string) {
    exists k :: 0 <= k < |rules| && rules[k].name == name
  }

  /** Different names, each of a rule. */
  ghost predicate Known(rules: seq<Rule>, names: seq<string>) {
    && (forall i :: 0 <= i < |names| ==> HasRule(rules, names[i]))
    && (forall i, j :: 0 <= i < j < |names| ==> names[i] != names[j])
  }

  /** The line's first match is a rule with one of these names. */
  predicate FiledAmong(rules: seq<Rule>, line: string, names: seq<string>) {
    exists k :: 0 <= k < |rules| && FirstMatch(rules, line, k) && rules[k].name in names
  }

  function AmongFlags(rules: seq<Rule>, lines: seq<string>, names: seq<string>): (flags: seq<bool>)
    ensures |flags| == |lines|
    ensures forall i :: 0 <= i < |lines| ==> flags[i] == FiledAmong(rules, lines[i], names)
  {
    seq(|lines|, i requires 0 <= i < |lines| => FiledAmong(rules, lines[i], names))
  }

  /** A line is filed once, so the lines filed under different rules add up. */
  lemma AmongStep(rules: seq<Rule>, lines: seq<string>, names: seq<string>, k: nat)
    requires UniqueRules(rules) && k < |rules| && rules[k].name !in names
    ensures Tally(AmongFlags(rules, lines, names + [rules[k].name])) ==
            Tally(AmongFlags(rules, lines, names)) + Tally(FiledUnder(rules, lines, k))
  {
    var some, one := AmongFlags(rules, lines, names), FiledUnder(rules, lines, k);
    var all := AmongFlags(rules, lines, names + [rules[k].name]);
    forall i | 0 <= i < |lines|
      ensures (all[i] <==> some[i] || one[i]) && !(some[i] && one[i])
    {
      OneMore(rules, lines[i], names, k);
    }
    TallyDisjoint(some, one, all);
  }

  lemma OneMore(rules: seq<Rule>, line: string, names: seq<string>, k: nat)
    requires UniqueRules(rules) && k < |rules| && rules[k].name !in names
    ensures FiledAmong(rules, line, names + [rules[k].name]) <==> FiledAmong(rules, line, names) || FirstMatch(rules, line, k)
    ensures !(FiledAmong(rules, line, names) && FirstMatch(rules, line, k))
  {
    var all := names + [rules[k].name];
    if FirstMatch(rules, line, k) {
      assert all[|names|] == rules[k].name;
      forall j | FirstMatch(rules, line, j)
        ensures j == k
      {
        FiledOnce(rules, line, j, k);
      }
    }
    forall j | FirstMatch(rules, line, j) && j != k
      ensures rules[j].name in all <==> rules[j].name in names
    {
    }
  }

  lemma FiledOnce(rules: seq<Rule>, line: string, j: int, k: int)
    requires FirstMatch(rules, line, j) && FirstMatch(rules, line, k)
    ensures j == k
  {
  }

  /** How far a rule's counter rises while more lines are delivered. */
  lemma CounterRise(rules: seq<Rule>, a: seq<string>, b: seq<string>, k: nat)
    requires a <= b && k < |rules|
    ensures Tally(FiledUnder(rules, b, k)) == Tally(FiledUnder(rules, a, k)) + Tally(FiledUnder(rules, b[|a|..], k))
  {
    assert FiledUnder(rules, b, k) == FiledUnder(rules, a, k) + FiledUnder(rules, b[|a|..], k);
    TallyConcat(FiledUnder(rules, a, k), FiledUnder(rules, b[|a|..], k));
  }

  lemma NameRise(rules: seq<Rule>, a: seq<string>, b: seq<string>, from: Counts, to: Counts, k: nat)
    requires a <= b && k < |rules| && CountsOk(rules, a, from) && CountsOk(rules, b, to)
    ensures Get(to, rules[k].name) == Get(from, rules[k].name) + Tally(FiledUnder(rules, b[|a|..], k))
  {
    CounterRise(rules, a, b, k);
  }

  lemma HitsStep(rules: seq<Rule>, a: seq<string>, b: seq<string>, from: Counts, to: Counts, names: seq<string>, k: nat)
    requires UniqueRules(rules) && k < |rules| && rules[k].name !in names
    requires Extends(a, b) && CountsOk(rules, a, from) && CountsOk(rules, b, to)
    requires Hits(names, from, to) == Tally(AmongFlags(rules, b[|a|..], names))
    ensures var names' := names + [rules[k].name];
            Hits(names', from, to) == Tally(AmongFlags(rules, b[|a|..], names'))
  {
    NameRise(rules, a, b, from, to, k);
    AmongStep(rules, b[|a|..], names, k);
    assert (names + [rules[k].name])[..|names|] == names;
  }

  lemma KnownPrefix(rules: seq<Rule>, names: seq<string>, n: nat)
    requires Known(rules, names) && n < |names|
    ensures Known(rules, names[..n]) && names[n] !in names[..n] && HasRule(rules, names[n])
  {
  }

  /** The hit count of the evaluator is the number of lines delivered between the two samples whose
      first match is one of these rules. */
  lemma {:induction false} HitsCountLines(
    rules: seq<Rule>, a: seq<string>, b: seq<string>, from: Counts, to: Counts, names: seq<string>)
    requires UniqueRules(rules) && Known(rules, names)
    requires Extends(a, b) && CountsOk(rules, a, from) && CountsOk(rules, b, to)
    ensures Hits(names, from, to) == Tally(AmongFlags(rules, b[|a|..], names))
  {
    if names == [] {
      TallyNone(AmongFlags(rules, b[|a|..], names));
    } else {
      var init, last := names[..|names| - 1], names[|names| - 1];
      KnownPrefix(rules, names, |names| - 1);
      HitsCountLines(rules, a, b, from, to, init);
      var k :| 0 <= k < |rules| && rules[k].name == last;
      HitsStep(rules, a, b, from, to, init, k);
      assert names == init + [last];
    }
  }

  /** The tailer's counters never fall, as the evaluator needs. */
  lemma CountersNeverFall(rules: seq<Rule>, seen: seq<Sample>, read: seq<seq<string>>, names: seq<string>)
    requires Snapshots(rules, seen, read) && Known(rules, names)
    ensures Counting(names, seen)
  {
    forall i, j, r | 0 <= i < j < |seen| && r in names
      ensures Get(seen[i].counts, r) <= Get(seen[j].counts, r)
    {
      assert HasRule(rules, r);
      var k :| 0 <= k < |rules| && rules[k].name == r;
      NameRise(rules, read[i], read[j], seen[i].counts, seen[j].counts, k);
    }
  }

  /** How many of the lines that came after `before` have one of these rules as their first match. */
  function FiledSince(rules: seq<Rule>, before: seq<string>, after: seq<string>, names: seq<string>): nat
    requires Extends(before, after)
  {
    Tally(AmongFlags(rules, after[|before|..], names))
  }

  lemma SnapshotPair(rules: seq<Rule>, seen: seq<Sample>, read: seq<seq<string>>, i: nat, j: nat)
    requires Snapshots(rules, seen, read) && i <= j < |seen|
    ensures CountsOk(rules, read[i], seen[i].counts) && CountsOk(rules, read[j], seen[j].counts)
    ensures Extends(read[i], read[j])
  {
  }

  /** One rule set: hits and lines. */
  lemma HitsAreFiled(rules: seq<Rule>, seen: seq<Sample>, read: seq<seq<string>>, s: nat, names: seq<string>)
    requires UniqueRules(rules) && Snapshots(rules, seen, read) && Known(rules, names) && s < |seen|
    ensures Extends(read[s], read[|seen| - 1])
    ensures Hits(names, seen[s].counts, seen[|seen| - 1].counts) ==
            FiledSince(rules, read[s], read[|seen| - 1], names)
  {
    SnapshotPair(rules, seen, read, s, |seen| - 1);
    HitsCountLines(rules, read[s], read[|seen| - 1], seen[s].counts, seen[|seen| - 1].counts, names);
  }

  /** End to end: with s the oldest sample in the window, GPUUnrecoverable is on exactly when some
      line delivered since has a fatal-hang rule as its first match, GPUWorkqueueStalled likewise
      for the hung-worker rule or by a stuck task, and GPUEngineTimeout exactly when enough lines
      are filed under its rules. */
  lemma AlarmIffLines(
    rules: seq<Rule>, seen: seq<Sample>, read: seq<seq<string>>, s: nat, window: real,
    signals: Signals, recurrence: int)
    requires UniqueRules(rules) && Snapshots(rules, seen, read)
    requires Known(rules, FATAL_HANG_RULES) && Known(rules, WORKQUEUE_RULES) && Known(rules, ENGINE_RULES)
    requires IsBaseline(seen, window, s) && signals.counts == seen[|seen| - 1].counts
    ensures var out := Judge(signals, seen[s].counts, recurrence);
            var before, after := read[s], read[|seen| - 1];
            && Extends(before, after)
            && (out.unrecoverable <==> FiledSince(rules, before, after, FATAL_HANG_RULES) > 0)
            && (out.workqueueStalled <==> signals.gpuStuck > 0 || FiledSince(rules, before, after, WORKQUEUE_RULES) > 0)
            && (out.engineTimeout <==> FiledSince(rules, before, after, ENGINE_RULES) >= recurrence)
  {
    HitsAreFiled(rules, seen, read, s, FATAL_HANG_RULES);
    HitsAreFiled(rules, seen, read, s, WORKQUEUE_RULES);
    HitsAreFiled(rules, seen, read, s, ENGINE_RULES);
  }

  /** Counter rises inside the window and lines delivered since the baseline are the same thing. */
  lemma RisesAreLines(
    rules: seq<Rule>, seen: seq<Sample>, read: seq<seq<string>>, s: nat, window: real, names: seq<string>)
    requires UniqueRules(rules) && Snapshots(rules, seen, read) && Known(rules, names)
    requires Forward(seen) && IsBaseline(seen, window, s)
    ensures Extends(read[s], read[|seen| - 1])
    ensures RisesInWindow(names, seen, window, |seen|) == FiledSince(rules, read[s], read[|seen| - 1], names)
  {
    CountersNeverFall(rules, seen, read, names);
    HitsAreRisesInWindow(names, seen, window, s);
    HitsAreFiled(rules, seen, read, s, names);
  }

  /** Sample i was taken from the tailer's counters after the first at[i] events of a run. */
  ghost predicate Sampled(
    rules: seq<Rule>, seen: seq<Sample>, first: KernelLogRuns.World, events: seq<KernelLogRuns.Event>,
    fromStart: bool, at: seq<nat>)
  {
    && |at| == |seen|
    && (forall i :: 0 <= i < |at| ==> at[i] <= |events|)
    && (forall i, j :: 0 <= i < j < |at| ==> at[i] <= at[j])
    && (forall i :: 0 <= i < |at| ==> CountsOk(rules, Delivered(first, events, fromStart, at[i]), seen[i].counts))
  }

  ghost function Delivered(
    first: KernelLogRuns.World, events: seq<KernelLogRuns.Event>, fromStart: bool, n: nat): seq<string>
    requires n <= |events|
  {
    KernelLogRuns.Run(first, events[..n], fromStart).delivered
  }

  lemma SampledIsSnapshots(
    rules: seq<Rule>, seen: seq<Sample>, first: KernelLogRuns.World, events: seq<KernelLogRuns.Event>,
    fromStart: bool, at: seq<nat>)
    returns (read: seq<seq<string>>)
    requires Sampled(rules, seen, first, events, fromStart, at)
    ensures Snapshots(rules, seen, read)
    ensures forall i :: 0 <= i < |at| ==> read[i] == Delivered(first, events, fromStart, at[i])
  {
    read := seq(|at|, i requires 0 <= i < |at| => Delivered(first, events, fromStart, at[i]));
    forall i, j | 0 <= i < j < |at|
      ensures Extends(read[i], read[j])
    {
      KernelLogRuns.DeliveredGrows(first, events, fromStart, at[i], at[j]);
    }
  }

  /** From the log file to the alarm, over any run of appends, rotations and pumps: if the newest
      sample and the oldest one in the window were taken just after a pump, each log-driven
      condition is decided by the lines written to the file between these two pumps. */
  lemma AlarmIffWritten(
    rules: seq<Rule>, seen: seq<Sample>, first: KernelLogRuns.World, events: seq<KernelLogRuns.Event>,
    fromStart: bool, at: seq<nat>, s: nat, window: real, signals: Signals, recurrence: int)
    requires UniqueRules(rules) && Sampled(rules, seen, first, events, fromStart, at)
    requires Known(rules, FATAL_HANG_RULES) && Known(rules, WORKQUEUE_RULES) && Known(rules, ENGINE_RULES)
    requires KernelLogRuns.Initial(first) && KernelLogRuns.LegalRun(first, events, fromStart)
    requires KernelLogRuns.NoTruncation(events)
    requires IsBaseline(seen, window, s) && signals.counts == seen[|seen| - 1].counts
    requires KernelLogRuns.JustPumped(first, events, fromStart, at[s])
    requires KernelLogRuns.JustPumped(first, events, fromStart, at[|seen| - 1])
    ensures var out := Judge(signals, seen[s].counts, recurrence);
            var before := KernelLogRuns.Written(first, events[..at[s]], fromStart);
            var after := KernelLogRuns.Written(first, events[..at[|seen| - 1]], fromStart);
            && Extends(before, after)
            && (out.unrecoverable <==> FiledSince(rules, before, after, FATAL_HANG_RULES) > 0)
            && (out.workqueueStalled <==> signals.gpuStuck > 0 || FiledSince(rules, before, after, WORKQUEUE_RULES) > 0)
            && (out.engineTimeout <==> FiledSince(rules, before, after, ENGINE_RULES) >= recurrence)
  {
    var read := SampledIsSnapshots(rules, seen, first, events, fromStart, at);
    KernelLogRuns.CaughtUp(first, events, fromStart, at[s]);
    KernelLogRuns.CaughtUp(first, events, fromStart, at[|seen| - 1]);
    AlarmIffLines(rules, seen, read, s, window, signals, recurrence);
  }

  // ---- Blind data ------------------------------------------------------------------------------

  /** A configured log file could not be read in the last round: it is missing, or it had to be opened
      and could not be. */
  ghost predicate Unread(disk: Disk, tail: Tail, path: string) {
    || path !in disk.paths
    || (path in disk.locked
        && (path !in tail.handles || tail.handles[path].inode != disk.paths[path]
            || tail.handles[path].pos > |Content(disk, disk.paths[path])|))
  }

  /** The marks after a round tell of every configured path whether it could be read. */
  lemma MarksTell(disk: Disk, tail: Tail, paths: seq<string>, fromStart: bool)
    requires Different(paths) && tail.alive && SweepAll(disk, tail, paths, fromStart).alive
    requires forall p :: p in tail.filesOk ==> p in paths
    ensures var marks := SweepAll(disk, tail, paths, fromStart).filesOk;
            (exists p :: p in marks && !marks[p]) <==> exists p :: p in paths && Unread(disk, tail, p)
  {
    var marks := SweepAll(disk, tail, paths, fromStart).filesOk;
    forall p
      ensures p in marks <==> p in paths
      ensures p in paths ==> p in marks && (!marks[p] <==> Unread(disk, tail, p))
    {
      MarkTells(disk, tail, paths, fromStart, p);
    }
  }

  lemma MarkTells(disk: Disk, tail: Tail, paths: seq<string>, fromStart: bool, p: string)
    requires Different(paths) && tail.alive && SweepAll(disk, tail, paths, fromStart).alive
    requires forall q :: q in tail.filesOk ==> q in paths
    ensures var marks := SweepAll(disk, tail, paths, fromStart).filesOk;
            && (p in marks <==> p in paths)
            && (p in paths ==> (!marks[p] <==> Unread(disk, tail, p)))
  {
    PathsAreIndependent(disk, tail, paths, fromStart, p);
    if p in paths {
      MarkedReadableIff(disk, tail, paths, fromStart, p);
    }
  }

  /** From the disk, /proc and the exporter to the two conditions about the data itself: the health data
      is stale exactly when /proc could not be listed or some configured log file could not be read
      in the round before, and the probe failed exactly when the exporter did not answer or reports
      an unhealthy GPU. */
  lemma BlindIff(
    disk: Disk, tail: Tail, paths: seq<string>, fromStart: bool,
    census: Census.Config, since: map<Census.Key, Time>, listing: Option<seq<Census.Entry>>, now: Time,
    signals: Signals, baseline: Counts, recurrence: int)
    requires Different(paths) && tail.alive && SweepAll(disk, tail, paths, fromStart).alive
    requires forall p :: p in tail.filesOk ==> p in paths
    requires signals.filesOk == SweepAll(disk, tail, paths, fromStart).filesOk
    requires var report := Census.ReportOf(census, since, listing, now);
             signals.procReadable == Some(report.readable) && signals.gpuStuck == report.gpuStuck
    ensures var out := Judge(signals, baseline, recurrence);
            && (out.dataStale <==> listing.None? || exists p :: p in paths && Unread(disk, tail, p))
            && (out.probeFailed <==> signals.reachable == Some(false) || signals.unhealthyGpus > 0)
  {
    MarksTell(disk, tail, paths, fromStart);
    VerdictIff(signals, baseline, recurrence);
  }

  /** From /proc to the condition: without a log line, the work queue counts as stalled exactly when
      some task in D belongs to the GPU and has waited for the threshold. */
  lemma StalledIffTask(
    census: Census.Config, since: map<Census.Key, Time>, entries: seq<Census.Entry>, now: Time,
    signals: Signals, baseline: Counts, recurrence: int)
    requires signals.gpuStuck == Census.ReportOf(census, since, Some(entries), now).gpuStuck
    requires RiseOf("gpu_workqueue_blocked", baseline, signals.counts) == 0
    ensures Judge(signals, baseline, recurrence).workqueueStalled <==>
            exists i :: 0 <= i < |entries| && Census.Belongs(census, since, entries[i], now, Census.StuckGpu)
  {
    VerdictIff(signals, baseline, recurrence);
    Census.TotalsAre(census, since, entries, now);
    var those := Census.Those(census, since, entries, now, Census.StuckGpu);
    forall i | 0 <= i < |entries| && Census.Belongs(census, since, entries[i], now, Census.StuckGpu)
      ensures i in those
    {
    }
    if |those| > 0 {
      var i :| i in those;
      assert Census.Belongs(census, since, entries[i], now, Census.StuckGpu);
    }
  }
}
