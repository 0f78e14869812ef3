/**
 The condition evaluator: cumulative counters, a pruned history of samples, and conditions that
 look at the difference to the oldest sample still in the window. The pruned history is compared
 with the full one, and each condition with the counter rises inside the window.
 */
module Conditions {
  import opened Wrappers
  import opened Clock

  type Counts = map<string, nat>

  const FATAL_HANG_RULES: seq<string> := ["mes_unrecoverable", "gpu_reset_begin", "vram_lost", "sched_killed_entity"]
  const WORKQUEUE_RULES: seq<string> := ["gpu_workqueue_blocked"]
  const ENGINE_RULES: seq<string> := ["ring_timeout", "job_timedout"]

  datatype Sample = Sample(at: Time, counts: Counts)

  /** One round of signals: the tailer's counters and marks, the census's stuck GPU tasks and whether it
      could read /proc, the exporter's answer and its unhealthy GPUs. A signal that is missing reads
      as neither failed nor stuck. */
  datatype Signals = Signals(
    counts: Counts,
    filesOk: map<string, bool>,
    gpuStuck: int,
    procReadable: Option<bool>,
    reachable: Option<bool>,
    unhealthyGpus: nat
  )

  datatype Verdict = Verdict(
    unrecoverable: bool,
    workqueueStalled: bool,
    engineTimeout: bool,
    probeFailed: bool,
    dataStale: bool
  )

  function Get(counts: Counts, rule: string): nat {
    if rule in counts then counts[rule] else 0
  }

  function Excess(a: int, b: int): nat {
    if a > b then a - b else 0
  }

  /** How far the counters of these rules rose from one sample to another; falls count as zero. */
  function Hits(rules: seq<string>, from: Counts, to: Counts): nat {
    if rules == [] then 0
    else Hits(rules[..|rules| - 1], from, to) +
         Excess(Get(to, rules[|rules| - 1]), Get(from, rules[|rules| - 1]))
  }

  function Judge(signals: Signals, baseline: Counts, recurrence: int): Verdict {
    Verdict(
      Hits(FATAL_HANG_RULES, baseline, signals.counts) > 0,
      Hits(WORKQUEUE_RULES, baseline, signals.counts) > 0 || signals.gpuStuck > 0,
      Hits(ENGINE_RULES, baseline, signals.counts) >= recurrence,
      signals.reachable == Some(false) || signals.unhealthyGpus > 0,
      signals.procReadable == Some(false) || exists path :: path in signals.filesOk && !signals.filesOk[path])
  }

  ghost predicate Forward(seen: seq<Sample>) {
    forall i, j :: 0 <= i < j < |seen| ==> seen[i].at <= seen[j].at
  }

  function Age(seen: seq<Sample>, i: int): Time
    requires 0 <= i < |seen|
  {
    seen[|seen| - 1].at - seen[i].at
  }

  /** s is the first sample whose age is within the window, or the newest if there is none. */
  ghost predicate IsBaseline(seen: seq<Sample>, window: Time, s: int) {
    && 0 <= s < |seen|
    && (s < |seen| - 1 ==> Age(seen, s) <= window)
    && (forall i :: 0 <= i < s ==> Age(seen, i) > window)
  }

  class ConditionEvaluator {
    const window: Time
    const recurrence: int
    var history: seq<Sample>
    ghost var seen: seq<Sample>   // every sample ever taken
    ghost var dropped: nat        // how many of them were popped

    ghost predicate Valid()
      reads this
    {
      && dropped <= |seen|
      && history == seen[dropped..]
      && (seen == [] ==> dropped == 0)
      && (seen != [] && Forward(seen) ==> IsBaseline(seen, window, dropped))
    }

    constructor (window: Time, recurrence: int)
      ensures Valid() && seen == [] && history == []
      ensures this.window == window && this.recurrence == recurrence
    {
      this.window, this.recurrence := window, recurrence;
      history, seen, dropped := [], [], 0;
    }

    /** Adds one sample and pops those that have left the window, but never the newest. */
    method Remember(now: Time, counts: Counts)
      requires Valid()
      modifies this
      ensures Valid()
      ensures seen == old(seen) + [Sample(now, counts)]
      ensures history != []
    {
      ghost var before, first := seen, dropped;
      SuffixGrows(seen, dropped, Sample(now, counts));
      history := history + [Sample(now, counts)];
      seen := seen + [Sample(now, counts)];
      while |history| > 1 && now - history[0].at > window
        invariant seen == before + [Sample(now, counts)]
        invariant first <= dropped < |seen| && history == seen[dropped..]
        invariant forall i :: first <= i < dropped ==> now - seen[i].at > window
        decreases |history|
      {
        SuffixPops(seen, dropped);
        history := history[1..];
        dropped := dropped + 1;
      }
      BaselineFound(before, window, first, dropped, Sample(now, counts));
    }

    method Evaluate(now: Time, signals: Signals) returns (out: Verdict)
      requires Valid()
      modifies this
      ensures Valid()
      ensures seen == old(seen) + [Sample(now, signals.counts)]
      ensures history != []
      ensures Forward(seen) && window >= 0.0 ==> history == Recent(seen, |seen|, now, window)
      ensures out == Judge(signals, history[0].counts, recurrence)
      ensures Forward(seen) ==> IsBaseline(seen, window, dropped) && out == Judge(signals, seen[dropped].counts, recurrence)
    {
      Remember(now, signals.counts);
      var baseline := history[0].counts;
      var fatal := Hits(FATAL_HANG_RULES, baseline, signals.counts);
      var wqLog := Hits(WORKQUEUE_RULES, baseline, signals.counts);
      var eng := Hits(ENGINE_RULES, baseline, signals.counts);
      var blind := AnyUnreadable(signals.filesOk);
      out := Verdict(
        fatal > 0,
        wqLog > 0 || signals.gpuStuck > 0,
        eng >= recurrence,
        signals.reachable == Some(false) || signals.unhealthyGpus > 0,
        signals.procReadable == Some(false) || blind);
      if Forward(seen) && window >= 0.0 {
        KeptIsWindow(seen, window, dropped);
      }
    }
  }

  method AnyUnreadable(filesOk: map<string, bool>) returns (blind: bool)
    ensures blind <==> exists path :: path in filesOk && !filesOk[path]
  {
    blind := false;
    var paths := filesOk.Keys;
    while paths != {}
      invariant paths <= filesOk.Keys
      invariant blind <==> exists p :: p in filesOk && p !in paths && !filesOk[p]
      decreases |paths|
    {
      var path :| path in paths;
      if !filesOk[path] {
        blind := true;
      }
      paths := paths - {path};
    }
  }

  lemma SuffixGrows<T>(all: seq<T>, from: nat, x: T)
    requires from <= |all|
    ensures (all + [x])[from..] == all[from..] + [x]
  {
  }

  lemma SuffixPops<T>(all: seq<T>, from: nat)
    requires from < |all|
    ensures all[from..][1..] == all[from + 1..] && all[from..][0] == all[from]
  {
  }

  /** Popping from the old baseline on, while the head is too old, ends at the new baseline. */
  lemma BaselineFound(seen: seq<Sample>, window: Time, first: nat, dropped: nat, last: Sample)
    requires seen != [] && Forward(seen) ==> IsBaseline(seen, window, first)
    requires seen == [] ==> first == 0
    requires first <= dropped <= |seen|
    requires forall i :: first <= i < dropped ==> last.at - (seen + [last])[i].at > window
    requires dropped < |seen| ==> last.at - (seen + [last])[dropped].at <= window
    ensures Forward(seen + [last]) ==> IsBaseline(seen + [last], window, dropped)
  {
    var seen' := seen + [last];
    ForwardPrefix(seen');
    assert seen'[..|seen|] == seen;
    if Forward(seen') {
      forall i | 0 <= i < dropped
        ensures Age(seen', i) > window
      {
        if i < first {
          assert Age(seen, i) > window && seen'[i] == seen[i] && seen'[|seen| - 1] == seen[|seen| - 1];
        }
      }
    }
  }

  lemma ForwardPrefix(seen: seq<Sample>)
    requires seen != []
    ensures Forward(seen) ==> Forward(seen[..|seen| - 1])
  {
    var init := seen[..|seen| - 1];
    assert forall i :: 0 <= i < |init| ==> init[i] == seen[i];
  }

  // ---- The pruned history is the window --------------------------------------------------

  /** The samples of age at most the window, oldest first, out of the first n. */
  function Recent(seen: seq<Sample>, n: nat, now: Time, window: Time): seq<Sample>
    requires n <= |seen|
  {
    if n == 0 then []
    else Recent(seen, n - 1, now, window) + if now - seen[n - 1].at <= window then [seen[n - 1]] else []
  }

  lemma {:induction false} RecentIsSuffix(seen: seq<Sample>, n: nat, window: Time, s: nat)
    requires Forward(seen) && IsBaseline(seen, window, s) && window >= 0.0 && n <= |seen|
    ensures Recent(seen, n, seen[|seen| - 1].at, window) == if n <= s then [] else seen[s..n]
  {
    if n > 0 {
      RecentIsSuffix(seen, n - 1, window, s);
      if n <= s {
        assert Age(seen, n - 1) > window;
      } else {
        assert Age(seen, n - 1) <= window;
        assert seen[s..n] == seen[s..n - 1] + [seen[n - 1]];
      }
    }
  }

  /** With time going forward and a window of at least zero, the pruned history is exactly the
      samples ever taken that are at most a window old, and it is never empty. */
  lemma KeptIsWindow(seen: seq<Sample>, window: Time, s: nat)
    requires Forward(seen) && IsBaseline(seen, window, s) && window >= 0.0
    ensures seen[s..] == Recent(seen, |seen|, seen[|seen| - 1].at, window) != []
  {
    RecentIsSuffix(seen, |seen|, window, s);
  }

  // ---- Conditions are counter rises inside the window ------------------------------------

  /** The counters of these rules never fall. */
  ghost predicate Counting(rules: seq<string>, seen: seq<Sample>) {
    forall i, j, r :: 0 <= i < j < |seen| && r in rules ==> Get(seen[i].counts, r) <= Get(seen[j].counts, r)
  }

  /** All rises between neighbouring samples i and i + 1 < upto whose earlier end is in the window. */
  ghost function RisesInWindow(rules: seq<string>, seen: seq<Sample>, window: Time, upto: nat): nat
    requires upto <= |seen|
  {
    if upto <= 1 then 0
    else
      RisesInWindow(rules, seen, window, upto - 1) +
      if Age(seen, upto - 2) <= window then Hits(rules, seen[upto - 2].counts, seen[upto - 1].counts) else 0
  }

  lemma {:induction false} HitsAdd(rules: seq<string>, a: Counts, b: Counts, c: Counts)
    requires forall r :: r in rules ==> Get(a, r) <= Get(b, r) <= Get(c, r)
    ensures Hits(rules, a, c) == Hits(rules, a, b) + Hits(rules, b, c)
  {
    if rules != [] {
      HitsAdd(rules[..|rules| - 1], a, b, c);
    }
  }

  lemma {:induction false} HitsNone(rules: seq<string>, a: Counts, b: Counts)
    ensures Hits(rules, a, b) == 0 <==> forall r :: r in rules ==> Get(b, r) <= Get(a, r)
  {
    if rules != [] {
      var init, last := rules[..|rules| - 1], rules[|rules| - 1];
      HitsNone(init, a, b);
      assert rules == init + [last];
    }
  }

  lemma {:induction false} RisesTelescope(rules: seq<string>, seen: seq<Sample>, window: Time, s: nat, upto: nat)
    requires Forward(seen) && Counting(rules, seen) && IsBaseline(seen, window, s) && upto <= |seen|
    ensures RisesInWindow(rules, seen, window, upto) ==
            if s < upto then Hits(rules, seen[s].counts, seen[upto - 1].counts) else 0
  {
    HitsNone(rules, seen[s].counts, seen[s].counts);
    if upto > 1 {
      RisesTelescope(rules, seen, window, s, upto - 1);
      if s < upto - 1 {
        HitsAdd(rules, seen[s].counts, seen[upto - 2].counts, seen[upto - 1].counts);
      }
    }
  }

  /** The number behind each log-driven condition is the sum of all counter rises between
      neighbouring samples whose earlier one is at most a window old. */
  lemma HitsAreRisesInWindow(rules: seq<string>, seen: seq<Sample>, window: Time, s: nat)
    requires Forward(seen) && Counting(rules, seen) && IsBaseline(seen, window, s)
    ensures Hits(rules, seen[s].counts, seen[|seen| - 1].counts) == RisesInWindow(rules, seen, window, |seen|)
  {
    RisesTelescope(rules, seen, window, s, |seen|);
  }

  /** A rise of one of the rules right after sample i, with sample i still in the window. */
  ghost predicate RiseAt(rules: seq<string>, seen: seq<Sample>, window: Time, i: int) {
    && 0 <= i < |seen| - 1
    && Age(seen, i) <= window
    && exists r :: r in rules && Get(seen[i].counts, r) < Get(seen[i + 1].counts, r)
  }

  lemma {:induction false} RisesIff(rules: seq<string>, seen: seq<Sample>, window: Time, upto: nat)
    requires upto <= |seen|
    ensures RisesInWindow(rules, seen, window, upto) > 0 <==> exists i :: i < upto - 1 && RiseAt(rules, seen, window, i)
  {
    if upto > 1 {
      RisesIff(rules, seen, window, upto - 1);
      HitsNone(rules, seen[upto - 2].counts, seen[upto - 1].counts);
      if Age(seen, upto - 2) <= window && Hits(rules, seen[upto - 2].counts, seen[upto - 1].counts) > 0 {
        assert RiseAt(rules, seen, window, upto - 2);
      }
    }
  }

  /** GPUUnrecoverable (and the log half of GPUWorkqueueStalled) is on iff an event was counted
      after a sample that is still in the window; GPUEngineTimeout iff enough of them were. */
  lemma ActiveIffRise(seen: seq<Sample>, window: Time, s: nat, signals: Signals, recurrence: int)
    requires Forward(seen) && IsBaseline(seen, window, s)
    requires Counting(FATAL_HANG_RULES, seen) && Counting(WORKQUEUE_RULES, seen) && Counting(ENGINE_RULES, seen)
    requires signals.counts == seen[|seen| - 1].counts
    ensures var out := Judge(signals, seen[s].counts, recurrence);
            && (out.unrecoverable <==> exists i :: RiseAt(FATAL_HANG_RULES, seen, window, i))
            && (out.workqueueStalled <==> signals.gpuStuck > 0 || exists i :: RiseAt(WORKQUEUE_RULES, seen, window, i))
            && (out.engineTimeout <==> RisesInWindow(ENGINE_RULES, seen, window, |seen|) >= recurrence)
  {
    HitsAreRisesInWindow(FATAL_HANG_RULES, seen, window, s);
    HitsAreRisesInWindow(WORKQUEUE_RULES, seen, window, s);
    HitsAreRisesInWindow(ENGINE_RULES, seen, window, s);
    RisesIff(FATAL_HANG_RULES, seen, window, |seen|);
    RisesIff(WORKQUEUE_RULES, seen, window, |seen|);
  }

  /** Some counter of these rules rose since the previous evaluation. */
  predicate JustRose(rules: seq<string>, seen: seq<Sample>)
    requires |seen| >= 2
  {
    exists r :: r in rules && Get(seen[|seen| - 2].counts, r) < Get(seen[|seen| - 1].counts, r)
  }

  ghost function RiseOf(rule: string, from: Counts, to: Counts): int {
    var a, b := if rule in from then from[rule] else 0, if rule in to then to[rule] else 0;
    if b > a then b - a else 0
  }

  lemma HitsOfFour(a: string, b: string, c: string, d: string, from: Counts, to: Counts)
    ensures Hits([a, b, c, d], from, to) == RiseOf(a, from, to) + RiseOf(b, from, to) + RiseOf(c, from, to) + RiseOf(d, from, to)
  {
    assert [a, b, c, d][..3] == [a, b, c];
    HitsOfTwo(a, b, from, to);
    assert [a, b, c][..2] == [a, b];
  }

  lemma HitsOfTwo(a: string, b: string, from: Counts, to: Counts)
    ensures Hits([a, b], from, to) == RiseOf(a, from, to) + RiseOf(b, from, to)
    ensures Hits([a], from, to) == RiseOf(a, from, to)
  {
    var none: seq<string> := [];
    assert [a, b][..1] == [a] && [a][..0] == none;
    assert Hits(none, from, to) == 0;
  }

  /** Each of the five verdicts, exactly, by the named counters and the other signals. */
  lemma VerdictIff(signals: Signals, baseline: Counts, recurrence: int)
    ensures var out := Judge(signals, baseline, recurrence);
            var rise := (rule: string) => RiseOf(rule, baseline, signals.counts);
            && (out.unrecoverable <==>
                  rise("mes_unrecoverable") > 0 || rise("gpu_reset_begin") > 0 || rise("vram_lost") > 0
                  || rise("sched_killed_entity") > 0)
            && (out.workqueueStalled <==> rise("gpu_workqueue_blocked") > 0 || signals.gpuStuck > 0)
            && (out.engineTimeout <==> rise("ring_timeout") + rise("job_timedout") >= recurrence)
            && (out.probeFailed <==> signals.reachable == Some(false) || signals.unhealthyGpus > 0)
            && (out.dataStale <==>
                  signals.procReadable == Some(false) || exists path :: path in signals.filesOk && !signals.filesOk[path])
  {
    HitsOfFour("mes_unrecoverable", "gpu_reset_begin", "vram_lost", "sched_killed_entity", baseline, signals.counts);
    HitsOfTwo("gpu_workqueue_blocked", "", baseline, signals.counts);
    HitsOfTwo("ring_timeout", "job_timedout", baseline, signals.counts);
  }

  /** An event counted since the previous evaluation turns its condition on at once, if that
      evaluation is at most one window ago. */
  lemma TurnsOn(seen: seq<Sample>, window: Time, s: nat, signals: Signals, recurrence: int)
    requires Forward(seen) && IsBaseline(seen, window, s) && |seen| >= 2
    requires Counting(FATAL_HANG_RULES, seen) && Counting(WORKQUEUE_RULES, seen)
    requires signals.counts == seen[|seen| - 1].counts
    requires seen[|seen| - 1].at - seen[|seen| - 2].at <= window
    ensures JustRose(FATAL_HANG_RULES, seen) ==> Judge(signals, seen[s].counts, recurrence).unrecoverable
    ensures JustRose(WORKQUEUE_RULES, seen) ==> Judge(signals, seen[s].counts, recurrence).workqueueStalled
  {
    HitsNone(FATAL_HANG_RULES, seen[s].counts, signals.counts);
    HitsNone(WORKQUEUE_RULES, seen[s].counts, signals.counts);
    assert Age(seen, |seen| - 2) <= window && s <= |seen| - 2;
    assert forall r :: r in FATAL_HANG_RULES || r in WORKQUEUE_RULES ==>
             Get(seen[s].counts, r) <= Get(seen[|seen| - 2].counts, r);
  }

  /** If the previous evaluation is more than a window ago, every log-driven condition is off (a
      positive threshold for the engine), whatever was counted in between. */
  lemma LongGapLosesEvents(seen: seq<Sample>, window: Time, s: nat, signals: Signals, recurrence: int)
    requires Forward(seen) && IsBaseline(seen, window, s) && |seen| >= 2
    requires signals.counts == seen[|seen| - 1].counts
    requires seen[|seen| - 1].at - seen[|seen| - 2].at > window
    ensures var out := Judge(signals, seen[s].counts, recurrence);
            && !out.unrecoverable
            && (out.workqueueStalled <==> signals.gpuStuck > 0)
            && (recurrence > 0 ==> !out.engineTimeout)
  {
    assert s == |seen| - 1;
    HitsNone(FATAL_HANG_RULES, signals.counts, signals.counts);
    HitsNone(WORKQUEUE_RULES, signals.counts, signals.counts);
    HitsNone(ENGINE_RULES, signals.counts, signals.counts);
  }

  ghost predicate AgreeInWindow(rules: seq<string>, seen: seq<Sample>, window: Time)
    requires seen != []
  {
    forall i, r :: 0 <= i < |seen| && Age(seen, i) <= window && r in rules ==>
      Get(seen[i].counts, r) == Get(seen[|seen| - 1].counts, r)
  }

  /** No condition outlives its window: once all samples in the window agree on a rule set, the
      condition it drives is off. */
  lemma TurnsOff(seen: seq<Sample>, window: Time, s: nat, signals: Signals, recurrence: int)
    requires Forward(seen) && IsBaseline(seen, window, s)
    requires signals.counts == seen[|seen| - 1].counts
    ensures var out := Judge(signals, seen[s].counts, recurrence);
            && (AgreeInWindow(FATAL_HANG_RULES, seen, window) ==> !out.unrecoverable)
            && (AgreeInWindow(WORKQUEUE_RULES, seen, window) ==> (out.workqueueStalled <==> signals.gpuStuck > 0))
            && (AgreeInWindow(ENGINE_RULES, seen, window) && recurrence > 0 ==> !out.engineTimeout)
  {
    HitsNone(FATAL_HANG_RULES, seen[s].counts, signals.counts);
    HitsNone(WORKQUEUE_RULES, seen[s].counts, signals.counts);
    HitsNone(ENGINE_RULES, seen[s].counts, signals.counts);
  }
}
