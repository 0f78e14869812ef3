/**
 The guard process: repeated passes over the fleet with a sliding window of its own cordons.
 Leader election, the node listing, the outcome of each PATCH and the exporter pass are inputs.
 */
module Guards {
  import opened Wrappers
  import opened Clock
  import opened Tallies
  import opened Policy
  import opened PolicyProperties

  /** One turn of the loop. `listing` is None when listing the nodes raises; `patchFails` are the
      positions whose PATCH is refused; `stop` is Some(k) when something else raises after k of the
      decisions were carried out; `exportersRaise` says the exporter pass raises, which happens
      after the cordons were made. */
  datatype Pass = Pass(
    now: Time,
    leader: bool,
    listing: Option<seq<Node>>,
    patchFails: set<nat>,
    stop: Option<nat>,
    exportersRaise: bool
  )

  /** `log` is every successful cordon of this process, which the program does not keep. */
  datatype State = State(recent: seq<Time>, total: nat, log: seq<Time>)

  function LandedFlags(ds: seq<Decision>, patchFails: set<nat>): (flags: seq<bool>)
    ensures |flags| == |ds|
    ensures forall i :: 0 <= i < |ds| ==> flags[i] == (ds[i].action == Cordon && i !in patchFails)
  {
    seq(|ds|, i requires 0 <= i < |ds| => ds[i].action == Cordon && i !in patchFails)
  }

  /** How many of n decisions are carried out. */
  function Done(stop: Option<nat>, n: nat): (k: nat)
    ensures k <= n
  {
    if stop.Some? && stop.value < n then stop.value else n
  }

  function Landed(ds: seq<Decision>, patchFails: set<nat>, stop: Option<nat>): nat {
    Tally(LandedFlags(ds, patchFails)[..Done(stop, |ds|)])
  }

  /** The decisions whose PATCH went through: cordons that were carried out and not refused. */
  ghost function WentThrough(ds: seq<Decision>, patchFails: set<nat>, stop: Option<nat>): set<int> {
    set i | 0 <= i < |ds| && ds[i].action == Cordon && i !in patchFails && (stop.Some? ==> i < stop.value)
  }

  lemma LandedIsCount(ds: seq<Decision>, patchFails: set<nat>, stop: Option<nat>)
    ensures Landed(ds, patchFails, stop) == |WentThrough(ds, patchFails, stop)|
  {
    var flags := LandedFlags(ds, patchFails)[..Done(stop, |ds|)];
    TallyIsCount(flags);
    assert WentThrough(ds, patchFails, stop) == set i | 0 <= i < |flags| && flags[i];
  }

  function Repeat(t: Time, n: nat): (ts: seq<Time>)
    ensures |ts| == n && forall i :: 0 <= i < n ==> ts[i] == t
  {
    seq(n, _ => t)
  }

  lemma AppendRepeat(ts: seq<Time>, t: Time, n: nat)
    ensures ts + Repeat(t, n) + [t] == ts + Repeat(t, n + 1)
  {
  }

  function Since(ts: seq<Time>, cutoff: Time): seq<Time> {
    if ts == [] then []
    else Since(ts[..|ts| - 1], cutoff) + if ts[|ts| - 1] >= cutoff then [ts[|ts| - 1]] else []
  }

  /** The history after a batch. */
  function Remembered(ts: seq<Time>, stop: Option<nat>, cutoff: Time): seq<Time> {
    if stop.Some? then ts else Since(ts, cutoff)
  }

  /** Keeping what is recent is done stamp by stamp, in order. */
  lemma {:induction false} SinceConcat(a: seq<Time>, b: seq<Time>, cutoff: Time)
    ensures Since(a + b, cutoff) == Since(a, cutoff) + Since(b, cutoff)
  {
    if b == [] {
      assert a + b == a;
    } else {
      var init := b[..|b| - 1];
      SinceConcat(a, init, cutoff);
      assert (a + b)[..|a + b| - 1] == a + init;
    }
  }

  lemma SinceOfOne(t: Time, cutoff: Time)
    ensures Since([t], cutoff) == if t >= cutoff then [t] else []
  {
    assert [t][..0] == [];
  }

  /** What the guard reports about itself. */
  datatype Public = Public(isLeader: bool, lastLoop: Time, healthyCapacity: nat, decisions: seq<Decision>, loopErrors: nat)

  class Guard {
    const cfg: Config
    var isLeader: bool
    var recentCordons: seq<Time>
    var cordonsTotal: nat
    var loopErrors: nat
    var healthyCapacity: nat
    var decisions: seq<Decision>
    var lastLoop: Time
    ghost var cordonLog: seq<Time>

    constructor (cfg: Config)
      ensures this.cfg == cfg
      ensures recentCordons == [] && cordonsTotal == 0 && cordonLog == [] && loopErrors == 0 && !isLeader
    {
      this.cfg := cfg;
      isLeader, recentCordons, cordonsTotal, loopErrors := false, [], 0, 0;
      healthyCapacity, decisions, lastLoop, cordonLog := 0, [], 0.0, [];
    }

    ghost function View(): Public
      reads this
    {
      Public(isLeader, lastLoop, healthyCapacity, decisions, loopErrors)
    }

    /** Carries out one batch. If something raises on the way, the history is left unpruned. */
    method RunNodes(now: Time, nodes: seq<Node>, patchFails: set<nat>, stop: Option<nat>)
      returns (ds: seq<Decision>, capacity: nat, cordoned: nat, raised: bool)
      modifies this`recentCordons, this`cordonLog
      ensures ds == Decisions(nodes, now, cfg, old(recentCordons))
      ensures capacity == Capacity(nodes, now, cfg.minAge, {})
      ensures raised == stop.Some?
      ensures cordoned == Landed(Decisions(nodes, now, cfg, old(recentCordons)), patchFails, stop)
      ensures recentCordons == Remembered(old(recentCordons) + Repeat(now, cordoned), stop, now - cfg.window)
      ensures cordonLog == old(cordonLog) + Repeat(now, cordoned)
    {
      ds := Decide(nodes, now, cfg, recentCordons);
      capacity := HealthyCapacity(nodes, now, cfg.minAge, {});
      cordoned := 0;
      ghost var flags := LandedFlags(ds, patchFails);
      for k := 0 to Done(stop, |ds|)
        invariant cordoned == Tally(flags[..k])
        invariant recentCordons == old(recentCordons) + Repeat(now, cordoned)
        invariant cordonLog == old(cordonLog) + Repeat(now, cordoned)
      {
        TallyStep(flags, k);
        if ds[k].action == Cordon {
          if k in patchFails {
            continue;
          }
          AppendRepeat(old(recentCordons), now, cordoned);
          AppendRepeat(old(cordonLog), now, cordoned);
          recentCordons := recentCordons + [now];
          cordonLog := cordonLog + [now];
          cordoned := cordoned + 1;
        }
      }
      raised := stop.Some?;
      if !raised {
        Prune(now - cfg.window);
      }
    }

    /** Drops the history that has aged out. */
    method Prune(cutoff: Time)
      modifies this`recentCordons
      ensures recentCordons == Since(old(recentCordons), cutoff)
    {
      var kept := [];
      for k := 0 to |recentCordons|
        invariant recentCordons == old(recentCordons)
        invariant kept == Since(recentCordons[..k], cutoff)
      {
        assert recentCordons[..k + 1][..k] == recentCordons[..k];
        if recentCordons[k] >= cutoff {
          kept := kept + [recentCordons[k]];
        }
      }
      assert recentCordons[..|recentCordons|] == recentCordons;
      recentCordons := kept;
    }

    /** One turn of `run_forever`: `loop_once` and the handler that outlives whatever it raises. */
    method LoopOnce(pass: Pass)
      modifies this
      ensures State(recentCordons, cordonsTotal, cordonLog) ==
              Next(cfg, State(old(recentCordons), old(cordonsTotal), old(cordonLog)), pass)
      ensures View() == NextPublic(cfg, old(recentCordons), old(View()), pass)
    {
      if !pass.leader {
        isLeader, lastLoop := false, pass.now;
        return;
      }
      if pass.listing.None? {
        loopErrors := loopErrors + 1;
        return;
      }
      Lead(pass);
    }

    /** The leader's part of the turn, once the nodes are listed. */
    method Lead(pass: Pass)
      requires pass.leader && pass.listing.Some?
      modifies this
      ensures State(recentCordons, cordonsTotal, cordonLog) ==
              Next(cfg, State(old(recentCordons), old(cordonsTotal), old(cordonLog)), pass)
      ensures View() == NextPublic(cfg, old(recentCordons), old(View()), pass)
    {
      ghost var s, v := State(recentCordons, cordonsTotal, cordonLog), View();
      var ds, capacity, cordoned, raised := RunNodes(pass.now, pass.listing.value, pass.patchFails, pass.stop);
      Settle(pass, ds, capacity, cordoned, raised, s, v);
    }

    /** What the turn leaves behind after its batch. */
    method Settle(
      pass: Pass, ds: seq<Decision>, capacity: nat, cordoned: nat, raised: bool, ghost s: State, ghost v: Public)
      requires pass.leader && pass.listing.Some? && raised == pass.stop.Some?
      requires s.total == cordonsTotal && v == View()
      requires recentCordons == Remembered(s.recent + Repeat(pass.now, cordoned), pass.stop, pass.now - cfg.window)
      requires cordonLog == s.log + Repeat(pass.now, cordoned)
      modifies this
      ensures State(recentCordons, cordonsTotal, cordonLog) == NextWith(cfg.window, s, pass, cordoned)
      ensures View() == if Raises(pass) then v.(loopErrors := v.loopErrors + 1)
                        else Public(true, pass.now, capacity, ds, v.loopErrors)
    {
      if raised || pass.exportersRaise {
        loopErrors := loopErrors + 1;
        return;
      }
      isLeader, lastLoop, healthyCapacity, decisions := true, pass.now, capacity, ds;
      cordonsTotal := cordonsTotal + cordoned;
    }
  }

  // ---- Whole runs ------------------------------------------------------------------------

  predicate Raises(pass: Pass) {
    pass.leader && (pass.listing.None? || pass.stop.Some? || pass.exportersRaise)
  }

  /** How many cordons a pass lands, given the history it starts from. */
  function LandedIn(cfg: Config, recent: seq<Time>, pass: Pass): nat {
    if !pass.leader || pass.listing.None? then 0
    else Landed(Decisions(pass.listing.value, pass.now, cfg, recent), pass.patchFails, pass.stop)
  }

  /** A pass that is not the leader's reports only that; one that raises only counts an error. */
  function NextPublic(cfg: Config, recent: seq<Time>, v: Public, pass: Pass): Public {
    if !pass.leader then v.(isLeader := false, lastLoop := pass.now)
    else if Raises(pass) then v.(loopErrors := v.loopErrors + 1)
    else
      var nodes := pass.listing.value;
      Public(true, pass.now, Capacity(nodes, pass.now, cfg.minAge, {}), Decisions(nodes, pass.now, cfg, recent), v.loopErrors)
  }

  /** A pass that landed n cordons. */
  ghost function NextWith(window: Time, s: State, pass: Pass, n: nat): State {
    State(
      Remembered(s.recent + Repeat(pass.now, n), pass.stop, pass.now - window),
      s.total + (if Raises(pass) then 0 else n),
      s.log + Repeat(pass.now, n))
  }

  ghost function Next(cfg: Config, s: State, pass: Pass): State {
    if !pass.leader || pass.listing.None? then s
    else NextWith(cfg.window, s, pass, LandedIn(cfg, s.recent, pass))
  }

  const START := State([], 0, [])

  ghost function Run(cfg: Config, passes: seq<Pass>): State {
    if passes == [] then START
    else Next(cfg, Run(cfg, passes[..|passes| - 1]), passes[|passes| - 1])
  }

  ghost predicate Forward(passes: seq<Pass>) {
    forall i, j :: 0 <= i < j < |passes| ==> passes[i].now <= passes[j].now
  }

  lemma {:induction false} PrunedStampsNeverCount(ts: seq<Time>, cutoff: Time, now: Time, window: Time)
    requires cutoff <= now - window
    ensures Tally(InWindow(Since(ts, cutoff), now, window)) == Tally(InWindow(ts, now, window))
  {
    if ts != [] {
      var init, t := ts[..|ts| - 1], ts[|ts| - 1];
      PrunedStampsNeverCount(init, cutoff, now, window);
      assert InWindow(ts, now, window)[..|init|] == InWindow(init, now, window);
      var kept := Since(init, cutoff);
      if t >= cutoff {
        assert InWindow(kept + [t], now, window)[..|kept|] == InWindow(kept, now, window);
      } else {
        assert Since(ts, cutoff) == kept;
      }
    }
  }

  lemma WindowConcat(a: seq<Time>, b: seq<Time>, now: Time, window: Time)
    ensures Tally(InWindow(a + b, now, window)) == Tally(InWindow(a, now, window)) + Tally(InWindow(b, now, window))
  {
    assert InWindow(a + b, now, window) == InWindow(a, now, window) + InWindow(b, now, window);
    TallyConcat(InWindow(a, now, window), InWindow(b, now, window));
  }

  lemma FreshCordonsCount(now: Time, n: nat, window: Time)
    ensures Tally(InWindow(Repeat(now, n), now, window)) == if window > 0.0 then n else 0
  {
    if window > 0.0 {
      TallyAll(InWindow(Repeat(now, n), now, window));
    } else {
      TallyNone(InWindow(Repeat(now, n), now, window));
    }
  }

  lemma RunStep(cfg: Config, passes: seq<Pass>, pass: Pass)
    ensures Run(cfg, passes + [pass]) == Next(cfg, Run(cfg, passes), pass)
  {
    assert (passes + [pass])[..|passes|] == passes;
  }

  /** What a leader's turn does, by the number of its cordons that went through: the log and the
      history gain as many stamps, and the total as many, if nothing raised. */
  ghost predicate Gains(window: Time, s: State, pass: Pass, s': State, gained: nat) {
    && s'.log == s.log + Repeat(pass.now, gained)
    && s'.total == s.total + (if pass.stop.Some? || pass.exportersRaise then 0 else gained)
    && s'.recent == if pass.stop.Some? then s.recent + Repeat(pass.now, gained)
                    else Since(s.recent + Repeat(pass.now, gained), pass.now - window)
  }

  lemma NextGains(cfg: Config, s: State, pass: Pass)
    requires pass.leader && pass.listing.Some?
    ensures Gains(cfg.window, s, pass, Next(cfg, s, pass),
              |WentThrough(Decisions(pass.listing.value, pass.now, cfg, s.recent), pass.patchFails, pass.stop)|)
  {
    var n := LandedIn(cfg, s.recent, pass);
    LandedIsCount(Decisions(pass.listing.value, pass.now, cfg, s.recent), pass.patchFails, pass.stop);
    GainsWith(cfg.window, s, pass, n);
    assert Next(cfg, s, pass) == NextWith(cfg.window, s, pass, n);
  }

  lemma GainsWith(window: Time, s: State, pass: Pass, n: nat)
    requires pass.leader && pass.listing.Some?
    ensures Gains(window, s, pass, NextWith(window, s, pass, n), n)
  {
  }

  /** Over any run, a turn adds one stamp for each cordon that went through, and nothing if it is not
      the leader or cannot list the nodes. */
  lemma PassGains(cfg: Config, passes: seq<Pass>, pass: Pass)
    ensures var s, s' := Run(cfg, passes), Run(cfg, passes + [pass]);
            if pass.leader && pass.listing.Some? then
              Gains(cfg.window, s, pass, s',
                |WentThrough(Decisions(pass.listing.value, pass.now, cfg, s.recent), pass.patchFails, pass.stop)|)
            else s' == s
  {
    RunStep(cfg, passes, pass);
    if pass.leader && pass.listing.Some? {
      NextGains(cfg, Run(cfg, passes), pass);
    }
  }

  /** What a completed leader's turn reports: the decisions on the history before it, and as capacity
      the number of usable nodes. Any other turn leaves both as they were. */
  lemma ReportIs(cfg: Config, recent: seq<Time>, v: Public, pass: Pass)
    ensures var v' := NextPublic(cfg, recent, v, pass);
            if pass.leader && pass.listing.Some? && pass.stop.None? && !pass.exportersRaise then
              && v'.isLeader && v'.lastLoop == pass.now && v'.loopErrors == v.loopErrors
              && v'.decisions == Decisions(pass.listing.value, pass.now, cfg, recent)
              && v'.healthyCapacity == |UsableNodes(pass.listing.value, {})|
            else
              && v'.decisions == v.decisions && v'.healthyCapacity == v.healthyCapacity
              && v'.loopErrors == v.loopErrors + (if pass.leader then 1 else 0)
              && (v'.isLeader <==> pass.leader && v.isLeader)
  {
    if pass.leader && pass.listing.Some? {
      CapacityIsUsable(pass.listing.value, pass.now, cfg.minAge, {});
    }
  }

  lemma NoGain(window: Time, s: State, pass: Pass, s': State, now: Time)
    requires Gains(window, s, pass, s', 0) && pass.now <= now
    ensures s'.log == s.log && s'.total == s.total
    ensures Tally(InWindow(s'.recent, now, window)) == Tally(InWindow(s.recent, now, window))
  {
    assert s.recent + Repeat(pass.now, 0) == s.recent;
    PrunedStampsNeverCount(s.recent, pass.now - window, now, window);
  }

  lemma NothingWentThrough(ds: seq<Decision>, patchFails: set<nat>, stop: Option<nat>)
    requires forall i :: 0 <= i < |ds| && ds[i].action == Cordon ==> i in patchFails
    ensures |WentThrough(ds, patchFails, stop)| == 0
  {
    assert WentThrough(ds, patchFails, stop) == {};
  }

  /** A refused PATCH costs nothing: after a turn whose cordons were all refused, every later budget
      is what it would have been without the turn, and so are the log and the total. */
  lemma RefusedPatchesCostNothing(cfg: Config, passes: seq<Pass>, pass: Pass, now: Time)
    requires pass.leader && pass.listing.Some? && pass.now <= now
    requires var ds := Decisions(pass.listing.value, pass.now, cfg, Run(cfg, passes).recent);
             forall i :: 0 <= i < |ds| && ds[i].action == Cordon ==> i in pass.patchFails
    ensures var s, s' := Run(cfg, passes), Run(cfg, passes + [pass]);
            s'.log == s.log && s'.total == s.total && Budget(cfg, now, s'.recent) == Budget(cfg, now, s.recent)
  {
    PassGains(cfg, passes, pass);
    NothingWentThrough(Decisions(pass.listing.value, pass.now, cfg, Run(cfg, passes).recent), pass.patchFails, pass.stop);
    NoGain(cfg.window, Run(cfg, passes), pass, Run(cfg, passes + [pass]), now);
  }

  /** A pass never lands more cordons than its budget allows. */
  lemma LandedWithinBudget(cfg: Config, recent: seq<Time>, pass: Pass)
    ensures LandedIn(cfg, recent, pass) <= Max(0, Budget(cfg, pass.now, recent))
  {
    if pass.leader && pass.listing.Some? {
      var nodes := pass.listing.value;
      var ds := Decisions(nodes, pass.now, cfg, recent);
      CordonsAreFirstCandidates(nodes, pass.now, cfg, recent);
      var flags := LandedFlags(ds, pass.patchFails);
      TallyPrefix(flags, Done(pass.stop, |ds|), |ds|);
      assert flags[..|ds|] == flags;
      TallyImplies(flags, CordonFlags(ds));
    }
  }

  /** At each cordon the window up to it held no more than the allowance. */
  ghost predicate LogBounded(cfg: Config, log: seq<Time>) {
    log != [] ==>
      && LogBounded(cfg, log[..|log| - 1])
      && Tally(InWindow(log, log[|log| - 1], cfg.window)) <= Max(0, cfg.maxCordons)
  }

  /** Pruning the history never changes a later budget: the guard decides as if it remembered
      every cordon it ever made. */
  lemma {:induction false} PruningKeepsBudget(cfg: Config, passes: seq<Pass>, now: Time)
    requires Forward(passes)
    requires forall i :: 0 <= i < |passes| ==> passes[i].now <= now
    ensures Budget(cfg, now, Run(cfg, passes).recent) == Budget(cfg, now, Run(cfg, passes).log)
  {
    if passes != [] {
      var prior, pass := passes[..|passes| - 1], passes[|passes| - 1];
      PruningKeepsBudget(cfg, prior, now);
      var s := Run(cfg, prior);
      NextKeepsBudget(cfg.window, s, pass, LandedIn(cfg, s.recent, pass), now);
    }
  }

  lemma NextKeepsBudget(window: Time, s: State, pass: Pass, n: nat, now: Time)
    requires pass.now <= now
    requires Tally(InWindow(s.recent, now, window)) == Tally(InWindow(s.log, now, window))
    ensures var s' := NextWith(window, s, pass, n);
            Tally(InWindow(s'.recent, now, window)) == Tally(InWindow(s'.log, now, window))
  {
    PruneKeepsCount(s.recent, s.log, Repeat(pass.now, n), pass.stop, pass.now, now, window);
  }

  lemma PruneKeepsCount(
    recent: seq<Time>, log: seq<Time>, batch: seq<Time>, stop: Option<nat>, passed: Time, now: Time, window: Time)
    requires passed <= now
    requires Tally(InWindow(recent, now, window)) == Tally(InWindow(log, now, window))
    ensures Tally(InWindow(Remembered(recent + batch, stop, passed - window), now, window)) ==
            Tally(InWindow(log + batch, now, window))
  {
    PrunedStampsNeverCount(recent + batch, passed - window, now, window);
    WindowConcat(recent, batch, now, window);
    WindowConcat(log, batch, now, window);
  }

  lemma {:induction false} RunInvariant(cfg: Config, passes: seq<Pass>)
    requires Forward(passes)
    ensures LogBounded(cfg, Run(cfg, passes).log)
  {
    if passes != [] {
      var prior, pass := passes[..|passes| - 1], passes[|passes| - 1];
      RunInvariant(cfg, prior);
      var s := Run(cfg, prior);
      if pass.leader && pass.listing.Some? {
        LandedWithinBudget(cfg, s.recent, pass);
        PruningKeepsBudget(cfg, prior, pass.now);
        AppendKeepsBound(cfg, s.log, pass.now, LandedIn(cfg, s.recent, pass));
      }
    }
  }

  /** A batch within the budget keeps the bound, cordon by cordon. */
  lemma {:induction false} AppendKeepsBound(cfg: Config, log: seq<Time>, now: Time, n: nat)
    requires LogBounded(cfg, log)
    requires n <= Max(0, Budget(cfg, now, log))
    ensures LogBounded(cfg, log + Repeat(now, n))
  {
    if n == 0 {
      assert log + Repeat(now, n) == log;
    } else {
      AppendKeepsBound(cfg, log, now, n - 1);
      AppendRepeat(log, now, n - 1);
      assert (log + Repeat(now, n))[..|log| + n - 1] == log + Repeat(now, n - 1);
      BatchInWindow(cfg, log, now, n);
    }
  }

  lemma BatchInWindow(cfg: Config, log: seq<Time>, now: Time, n: nat)
    requires n <= Max(0, Budget(cfg, now, log))
    ensures Tally(InWindow(log + Repeat(now, n), now, cfg.window)) <= Max(0, cfg.maxCordons) || n == 0
  {
    WindowConcat(log, Repeat(now, n), now, cfg.window);
    FreshCordonsCount(now, n, cfg.window);
  }

  function InInterval(ts: seq<Time>, from: Time, upto: Time): (flags: seq<bool>)
    ensures |flags| == |ts|
    ensures forall i :: 0 <= i < |ts| ==> flags[i] == (from <= ts[i] < upto)
  {
    seq(|ts|, i requires 0 <= i < |ts| => from <= ts[i] < upto)
  }

  /** Whatever lies in an interval up to its newest stamp was in the window when that one was made. */
  lemma NewestBounds(ts: seq<Time>, from: Time, window: Time)
    requires ts != [] && from <= ts[|ts| - 1] < from + window
    ensures Tally(InInterval(ts, from, from + window)) <= Tally(InWindow(ts, ts[|ts| - 1], window))
  {
    TallyImplies(InInterval(ts, from, from + window), InWindow(ts, ts[|ts| - 1], window));
  }

  lemma OutsideAddsNothing(ts: seq<Time>, from: Time, upto: Time)
    requires ts != [] && !(from <= ts[|ts| - 1] < upto)
    ensures Tally(InInterval(ts, from, upto)) == Tally(InInterval(ts[..|ts| - 1], from, upto))
  {
    assert InInterval(ts, from, upto)[..|ts| - 1] == InInterval(ts[..|ts| - 1], from, upto);
  }

  lemma IntervalStep(log: seq<Time>, from: Time, window: Time, most: int)
    requires log != [] && Tally(InWindow(log, log[|log| - 1], window)) <= most
    requires Tally(InInterval(log[..|log| - 1], from, from + window)) <= most
    ensures Tally(InInterval(log, from, from + window)) <= most
  {
    if from <= log[|log| - 1] < from + window {
      NewestBounds(log, from, window);
    } else {
      OutsideAddsNothing(log, from, from + window);
    }
  }

  lemma {:induction false} IntervalBound(cfg: Config, log: seq<Time>, from: Time)
    requires LogBounded(cfg, log)
    ensures Tally(InInterval(log, from, from + cfg.window)) <= Max(0, cfg.maxCordons)
  {
    if log != [] {
      IntervalBound(cfg, log[..|log| - 1], from);
      IntervalStep(log, from, cfg.window, Max(0, cfg.maxCordons));
    }
  }

  /** The rate limit over a whole run of one process: no half-open interval as long as the window
      holds more than max(0, maxCordons) successful cordons, whatever fails in between. */
  lemma RateLimitHolds(cfg: Config, passes: seq<Pass>, from: Time)
    requires Forward(passes)
    ensures Tally(InInterval(Run(cfg, passes).log, from, from + cfg.window)) <= Max(0, cfg.maxCordons)
  {
    RunInvariant(cfg, passes);
    IntervalBound(cfg, Run(cfg, passes).log, from);
  }

  /** Cordons made by passes that raised afterwards. */
  ghost function Uncounted(cfg: Config, passes: seq<Pass>): nat {
    if passes == [] then 0
    else
      var prior, pass := passes[..|passes| - 1], passes[|passes| - 1];
      Uncounted(cfg, prior) + if Raises(pass) then LandedIn(cfg, Run(cfg, prior).recent, pass) else 0
  }

  /** `cordons_total` misses exactly the cordons of passes that raise later, so it never exceeds
      the successful cordons and equals them when no leader pass raises. */
  lemma {:induction false} TotalCountsAllButRaisingPasses(cfg: Config, passes: seq<Pass>)
    ensures Run(cfg, passes).total + Uncounted(cfg, passes) == |Run(cfg, passes).log|
    ensures (forall i :: 0 <= i < |passes| ==> !Raises(passes[i])) ==>
              Run(cfg, passes).total == |Run(cfg, passes).log|
  {
    if passes != [] {
      var prior := passes[..|passes| - 1];
      TotalCountsAllButRaisingPasses(cfg, prior);
      assert forall i :: 0 <= i < |prior| ==> prior[i] == passes[i];
    }
  }
}
