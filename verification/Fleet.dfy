/**
 Leader election and rate limit together. Several guard processes share one lease; a pass acts
 only when its write to the lease went through. Each process remembers only its own cordons.
 */
module Fleet {
  import opened Wrappers
  import opened Clock
  import opened Tallies
  import opened Policy
  import opened PolicyProperties
  import Guards
  import Leases

  /** Every pass that acts as leader rests on an applied write to the lease, by that guard and with
      that pass's clock reading. */
  ghost predicate Elected(id: string, passes: seq<Guards.Pass>, writes: seq<Leases.Message>) {
    forall k :: 0 <= k < |passes| && passes[k].leader ==> Wrote(id, passes[k].now, writes)
  }

  ghost predicate Wrote(id: string, now: Time, writes: seq<Leases.Message>) {
    exists w :: 0 <= w < |writes| && writes[w].id == id && writes[w].now == now
  }

  lemma {:induction false} CordonsAreLeaderPasses(cfg: Config, passes: seq<Guards.Pass>, t: Time)
    requires t in Guards.Run(cfg, passes).log
    ensures exists k :: 0 <= k < |passes| && passes[k].leader && passes[k].now == t
  {
    var n := |passes| - 1;
    var prior := passes[..n];
    if t in Guards.Run(cfg, prior).log {
      CordonsAreLeaderPasses(cfg, prior, t);
      var k :| 0 <= k < |prior| && prior[k].leader && prior[k].now == t;
      assert passes[k] == prior[k];
    } else {
      assert passes[n].leader && passes[n].now == t;
    }
  }

  /** Cordons of different guards are more than duration - 1 seconds apart. */
  lemma CordonsOfTwoGuards(
    cfg: Config, duration: int, initial: Option<Leases.Stored>, events: seq<Leases.Event>,
    a: string, passesA: seq<Guards.Pass>, t: Time, b: string, passesB: seq<Guards.Pass>, u: Time)
    requires duration >= 0 && a != b
    requires Elected(a, passesA, Leases.Run(duration, initial, events).writes)
    requires Elected(b, passesB, Leases.Run(duration, initial, events).writes)
    requires t in Guards.Run(cfg, passesA).log && u in Guards.Run(cfg, passesB).log
    ensures u - t > duration as Time - 1.0 || t - u > duration as Time - 1.0
  {
    CordonsAreLeaderPasses(cfg, passesA, t);
    CordonsAreLeaderPasses(cfg, passesB, u);
    var writes := Leases.Run(duration, initial, events).writes;
    assert Wrote(a, t, writes) && Wrote(b, u, writes);
    var i :| 0 <= i < |writes| && writes[i].id == a && writes[i].now == t;
    var j :| 0 <= j < |writes| && writes[j].id == b && writes[j].now == u;
    if i < j {
      Leases.WritesApart(duration, initial, events, i, j);
    } else {
      Leases.WritesApart(duration, initial, events, j, i);
    }
  }

  /** A guard process. One that is restarted in place has the same identity again. */
  datatype Process = Process(id: string, passes: seq<Guards.Pass>)

  ghost function CordonsOf(cfg: Config, p: Process, from: Time, upto: Time): nat {
    Tally(Guards.InInterval(Guards.Run(cfg, p.passes).log, from, upto))
  }

  /** The cordons of all processes between two times. */
  ghost function FleetCordons(cfg: Config, fleet: seq<Process>, from: Time, upto: Time): nat {
    if fleet == [] then 0
    else FleetCordons(cfg, fleet[..|fleet| - 1], from, upto) + CordonsOf(cfg, fleet[|fleet| - 1], from, upto)
  }

  ghost predicate FleetOk(fleet: seq<Process>, writes: seq<Leases.Message>) {
    forall i :: 0 <= i < |fleet| ==>
      Guards.Forward(fleet[i].passes) && Elected(fleet[i].id, fleet[i].passes, writes)
  }

  /** How many processes of this identity cordon in the interval. */
  ghost function ActiveAs(cfg: Config, fleet: seq<Process>, id: string, from: Time, upto: Time): nat {
    if fleet == [] then 0
    else
      var last := fleet[|fleet| - 1];
      ActiveAs(cfg, fleet[..|fleet| - 1], id, from, upto) +
      if last.id == id && CordonsOf(cfg, last, from, upto) > 0 then 1 else 0
  }

  ghost predicate AtMostActive(cfg: Config, fleet: seq<Process>, from: Time, upto: Time, n: nat) {
    forall id :: ActiveAs(cfg, fleet, id, from, upto) <= n
  }

  lemma NotBothWithin(
    cfg: Config, duration: int, initial: Option<Leases.Stored>, events: seq<Leases.Event>,
    p: Process, t: Time, q: Process, u: Time, from: Time, length: Time)
    requires duration >= 0 && length <= duration as Time - 1.0 && p.id != q.id
    requires Elected(p.id, p.passes, Leases.Run(duration, initial, events).writes)
    requires Elected(q.id, q.passes, Leases.Run(duration, initial, events).writes)
    requires t in Guards.Run(cfg, p.passes).log && u in Guards.Run(cfg, q.passes).log
    ensures !(from <= t < from + length && from <= u < from + length)
  {
    CordonsOfTwoGuards(cfg, duration, initial, events, p.id, p.passes, t, q.id, q.passes, u);
  }

  lemma QuietIfNone(cfg: Config, p: Process, from: Time, upto: Time)
    requires forall t :: t in Guards.Run(cfg, p.passes).log ==> !(from <= t < upto)
    ensures CordonsOf(cfg, p, from, upto) == 0
  {
    var log := Guards.Run(cfg, p.passes).log;
    var flags := Guards.InInterval(log, from, upto);
    TallyNone(flags);
    forall i | 0 <= i < |flags|
      ensures !flags[i]
    {
      assert log[i] in log;
    }
  }

  /** If one guard cordons in the interval, a process of any other identity does not. */
  lemma OthersAreQuiet(
    cfg: Config, duration: int, initial: Option<Leases.Stored>, events: seq<Leases.Event>,
    p: Process, q: Process, from: Time, length: Time)
    requires duration >= 0 && length <= duration as Time - 1.0 && p.id != q.id
    requires Elected(p.id, p.passes, Leases.Run(duration, initial, events).writes)
    requires Elected(q.id, q.passes, Leases.Run(duration, initial, events).writes)
    requires CordonsOf(cfg, p, from, from + length) > 0
    ensures CordonsOf(cfg, q, from, from + length) == 0
  {
    var t := CordonIn(cfg, p, from, from + length);
    forall u | u in Guards.Run(cfg, q.passes).log
      ensures !(from <= u < from + length)
    {
      NotBothWithin(cfg, duration, initial, events, p, t, q, u, from, length);
    }
    QuietIfNone(cfg, q, from, from + length);
  }

  lemma CordonIn(cfg: Config, p: Process, from: Time, upto: Time) returns (t: Time)
    requires CordonsOf(cfg, p, from, upto) > 0
    ensures t in Guards.Run(cfg, p.passes).log && from <= t < upto
  {
    var log := Guards.Run(cfg, p.passes).log;
    var flags := Guards.InInterval(log, from, upto);
    TallyNone(flags);
    var k :| 0 <= k < |flags| && flags[k];
    t := log[k];
  }

  /** With one identity alone in the interval, the cordons are bounded process by process. */
  lemma {:induction false} BoundByIdentity(
    cfg: Config, fleet: seq<Process>, id: string, from: Time, upto: Time, each: nat)
    requires forall i :: 0 <= i < |fleet| ==> CordonsOf(cfg, fleet[i], from, upto) <= each
    requires forall i :: 0 <= i < |fleet| && fleet[i].id != id ==> CordonsOf(cfg, fleet[i], from, upto) == 0
    ensures FleetCordons(cfg, fleet, from, upto) <= ActiveAs(cfg, fleet, id, from, upto) * each
  {
    if fleet != [] {
      var prior, last := fleet[..|fleet| - 1], fleet[|fleet| - 1];
      BoundByIdentity(cfg, prior, id, from, upto, each);
      var c := CordonsOf(cfg, last, from, upto);
      OneMore(ActiveAs(cfg, prior, id, from, upto), each, if last.id == id && c > 0 then 1 else 0, c);
    }
  }

  lemma OneMore(n: nat, each: nat, more: nat, c: nat)
    requires c <= more * each
    ensures n * each + c <= (n + more) * each
  {
  }

  lemma {:induction false} NoneActive(cfg: Config, fleet: seq<Process>, from: Time, upto: Time)
    requires forall i :: 0 <= i < |fleet| ==> CordonsOf(cfg, fleet[i], from, upto) == 0
    ensures FleetCordons(cfg, fleet, from, upto) == 0
  {
    if fleet != [] {
      NoneActive(cfg, fleet[..|fleet| - 1], from, upto);
    }
  }

  /** In any interval no longer than the rate window and than duration - 1, all processes together
      land at most n * max(0, maxCordons) cordons, if no identity has more than n processes that
      cordon in it. With one process of each identity, overlapping guards cannot add up. */
  lemma FleetRateLimit(
    cfg: Config, duration: int, initial: Option<Leases.Stored>, events: seq<Leases.Event>,
    fleet: seq<Process>, from: Time, length: Time, n: nat)
    requires duration >= 0 && length <= cfg.window && length <= duration as Time - 1.0
    requires FleetOk(fleet, Leases.Run(duration, initial, events).writes)
    requires AtMostActive(cfg, fleet, from, from + length, n)
    ensures FleetCordons(cfg, fleet, from, from + length) <= n * Max(0, cfg.maxCordons)
  {
    var each, upto := Max(0, cfg.maxCordons), from + length;
    forall i | 0 <= i < |fleet|
      ensures CordonsOf(cfg, fleet[i], from, upto) <= each
    {
      ProcessBound(cfg, fleet[i], from, length);
    }
    if i :| 0 <= i < |fleet| && CordonsOf(cfg, fleet[i], from, upto) > 0 {
      forall j | 0 <= j < |fleet| && fleet[j].id != fleet[i].id
        ensures CordonsOf(cfg, fleet[j], from, upto) == 0
      {
        OthersAreQuiet(cfg, duration, initial, events, fleet[i], fleet[j], from, length);
      }
      BoundByIdentity(cfg, fleet, fleet[i].id, from, upto, each);
      Scale(ActiveAs(cfg, fleet, fleet[i].id, from, upto), n, each);
    } else {
      NoneActive(cfg, fleet, from, upto);
    }
  }

  lemma Scale(a: nat, b: nat, c: nat)
    requires a <= b
    ensures a * c <= b * c
  {
  }

  lemma ProcessBound(cfg: Config, p: Process, from: Time, length: Time)
    requires Guards.Forward(p.passes) && length <= cfg.window
    ensures CordonsOf(cfg, p, from, from + length) <= Max(0, cfg.maxCordons)
  {
    var log := Guards.Run(cfg, p.passes).log;
    Guards.RateLimitHolds(cfg, p.passes, from);
    TallyImplies(Guards.InInterval(log, from, from + length), Guards.InInterval(log, from, from + cfg.window));
  }

  // ---- A process that cordons as often as it may ---------------------------------------------

  function ScopeName(cfg: Config): string {
    if cfg.enforceNodes == [] then "node" else cfg.enforceNodes[0]
  }

  function Sick(cfg: Config, now: Time): Node {
    Node(Some(ScopeName(cfg)), false, [Condition(GPUUnrecoverable, "True", Some(Stamp(now - cfg.minAge)))])
  }

  function Spare(cfg: Config, i: nat): Node {
    Node(Some(ScopeName(cfg) + seq(i + 1, _ => 'x')), false, [Condition(Ready, "True", None)])
  }

  /** One sick node and enough healthy ones for the capacity floor. */
  function SickFleet(cfg: Config, now: Time): (nodes: seq<Node>)
    ensures |nodes| == 1 + Max(0, cfg.minHealthyNodes) && nodes[0] == Sick(cfg, now)
    ensures forall i :: 0 < i < |nodes| ==> nodes[i] == Spare(cfg, i - 1)
  {
    [Sick(cfg, now)] + seq(Max(0, cfg.minHealthyNodes), i requires 0 <= i => Spare(cfg, i))
  }

  lemma IndexOfOne(c: Condition)
    requires c.ctype != Untyped
    ensures ConditionIndex([c]) == map[c.ctype := c]
  {
    assert [c][..0] == [];
  }

  lemma SpareCounts(cfg: Config, i: nat, now: Time)
    ensures Counts(Spare(cfg, i), now, cfg.minAge, {ScopeName(cfg)})
    ensures forall t :: !HeldLongEnough(Spare(cfg, i), t, now, cfg.minAge)
  {
    var node := Spare(cfg, i);
    IndexOfOne(node.conditions[0]);
    SearchIsSeverityScan(node);
    assert |node.name.value| > |ScopeName(cfg)|;
    forall t | t in {GPUUnrecoverable, GPUWorkqueueStalled, GPUEngineTimeout}
      ensures !IsTrue(node, t)
    {
    }
  }

  lemma SickIsHeld(cfg: Config, now: Time)
    ensures HeldLongEnough(Sick(cfg, now), GPUUnrecoverable, now, cfg.minAge)
    ensures !IsTrue(Sick(cfg, now), GPUHealthDataStale)
  {
    IndexOfOne(Sick(cfg, now).conditions[0]);
    assert SEVERITY[0] == GPUUnrecoverable && MostSevere(Sick(cfg, now), 0);
  }

  lemma FloorIsKept(cfg: Config, now: Time)
    ensures Capacity(SickFleet(cfg, now), now, cfg.minAge, {ScopeName(cfg)}) >= cfg.minHealthyNodes
  {
    var nodes := SickFleet(cfg, now);
    var flags := CapacityFlags(nodes, now, cfg.minAge, {ScopeName(cfg)});
    forall i | 0 <= i < |nodes| - 1
      ensures flags[1..][i]
    {
      SpareCounts(cfg, i, now);
    }
    TallyAll(flags[1..]);
    TallyConcat(flags[..1], flags[1..]);
    assert flags == flags[..1] + flags[1..];
  }

  function SickPass(cfg: Config, now: Time): Guards.Pass {
    Guards.Pass(now, true, Some(SickFleet(cfg, now)), {}, None, false)
  }

  lemma SpareIsLeft(cfg: Config, now: Time, recent: seq<Time>, i: nat)
    requires 0 < i < |SickFleet(cfg, now)|
    ensures Decisions(SickFleet(cfg, now), now, cfg, recent)[i].action == Noop
  {
    SpareCounts(cfg, i - 1, now);
    CordonIff(SickFleet(cfg, now), i, now, cfg, recent);
  }

  /** While there is budget, such a pass lands exactly one cordon. */
  lemma SickPassLands(cfg: Config, now: Time, recent: seq<Time>)
    requires cfg.mode == "enforce" && Budget(cfg, now, recent) > 0
    ensures Guards.LandedIn(cfg, recent, SickPass(cfg, now)) == 1
  {
    SickIsCordoned(cfg, now, recent);
    forall i | 0 < i < |SickFleet(cfg, now)|
      ensures Decisions(SickFleet(cfg, now), now, cfg, recent)[i].action == Noop
    {
      SpareIsLeft(cfg, now, recent, i);
    }
    FirstLands(Decisions(SickFleet(cfg, now), now, cfg, recent));
  }

  lemma FirstLands(ds: seq<Decision>)
    requires ds != [] && ds[0].action == Cordon && forall i :: 0 < i < |ds| ==> ds[i].action == Noop
    ensures Guards.Landed(ds, {}, None) == 1
  {
    var flags := Guards.LandedFlags(ds, {});
    OnlyFirst(flags);
    assert flags[..|ds|] == flags;
  }

  lemma SickIsCordoned(cfg: Config, now: Time, recent: seq<Time>)
    requires cfg.mode == "enforce" && Budget(cfg, now, recent) > 0
    ensures Decisions(SickFleet(cfg, now), now, cfg, recent)[0].action == Cordon
  {
    var nodes := SickFleet(cfg, now);
    SickIsHeld(cfg, now);
    FloorIsKept(cfg, now);
    assert CandidateFlags(nodes, now, cfg)[..0] == [];
    CordonIff(nodes, 0, now, cfg, recent);
  }

  lemma OnlyFirst(flags: seq<bool>)
    requires flags != [] && flags[0] && forall i :: 0 < i < |flags| ==> !flags[i]
    ensures Tally(flags) == 1
  {
    TallyNone(flags[1..]);
    TallyAll(flags[..1]);
    TallyConcat(flags[..1], flags[1..]);
    assert flags == flags[..1] + flags[1..];
  }

  function Burst(cfg: Config, now: Time, n: nat): (passes: seq<Guards.Pass>)
    ensures |passes| == n && forall i :: 0 <= i < n ==> passes[i] == SickPass(cfg, now)
  {
    seq(n, _ => SickPass(cfg, now))
  }

  lemma {:induction false} SinceKeepsFresh(now: Time, n: nat, cutoff: Time)
    requires cutoff <= now
    ensures Guards.Since(Guards.Repeat(now, n), cutoff) == Guards.Repeat(now, n)
  {
    if n > 0 {
      SinceKeepsFresh(now, n - 1, cutoff);
      assert Guards.Repeat(now, n)[..n - 1] == Guards.Repeat(now, n - 1);
    }
  }

  lemma FreshStep(window: Time, s: Guards.State, pass: Guards.Pass, n: nat)
    requires window > 0.0 && n > 0 && pass.stop.None?
    requires s.log == Guards.Repeat(pass.now, n - 1) && s.recent == Guards.Repeat(pass.now, n - 1)
    ensures var s' := Guards.NextWith(window, s, pass, 1);
            s'.log == Guards.Repeat(pass.now, n) && s'.recent == Guards.Repeat(pass.now, n)
  {
    assert Guards.Repeat(pass.now, n - 1) + Guards.Repeat(pass.now, 1) == Guards.Repeat(pass.now, n);
    SinceKeepsFresh(pass.now, n, pass.now - window);
  }

  lemma BurstStep(cfg: Config, now: Time, n: nat, s: Guards.State)
    requires cfg.mode == "enforce" && cfg.window > 0.0 && 0 < n <= cfg.maxCordons
    requires s.log == Guards.Repeat(now, n - 1) && s.recent == Guards.Repeat(now, n - 1)
    ensures var s' := Guards.Next(cfg, s, SickPass(cfg, now));
            s'.log == Guards.Repeat(now, n) && s'.recent == Guards.Repeat(now, n)
  {
    var pass := SickPass(cfg, now);
    Guards.FreshCordonsCount(now, n - 1, cfg.window);
    SickPassLands(cfg, now, s.recent);
    FreshStep(cfg.window, s, pass, n);
    assert Guards.Next(cfg, s, pass) == Guards.NextWith(cfg.window, s, pass, 1);
  }

  /** A process on its own can use up its whole allowance. */
  lemma {:induction false} BurstCordons(cfg: Config, now: Time, n: nat)
    requires cfg.mode == "enforce" && cfg.window > 0.0 && n <= cfg.maxCordons
    ensures var s := Guards.Run(cfg, Burst(cfg, now, n));
            s.log == Guards.Repeat(now, n) && s.recent == Guards.Repeat(now, n)
  {
    var passes := Burst(cfg, now, n);
    if n > 0 {
      BurstCordons(cfg, now, n - 1);
      assert passes[..n - 1] == Burst(cfg, now, n - 1);
      BurstStep(cfg, now, n, Guards.Run(cfg, passes[..n - 1]));
    }
  }

  lemma BurstCount(cfg: Config, id: string, now: Time, n: nat, from: Time, upto: Time)
    requires cfg.mode == "enforce" && cfg.window > 0.0 && n <= cfg.maxCordons && from <= now < upto
    ensures CordonsOf(cfg, Process(id, Burst(cfg, now, n)), from, upto) == n
  {
    BurstCordons(cfg, now, n);
    TallyAll(Guards.InInterval(Guards.Repeat(now, n), from, upto));
  }

  // ---- Where the bound ends -------------------------------------------------------------------

  lemma SumOfTwo(cfg: Config, p: Process, q: Process, from: Time, upto: Time)
    ensures FleetCordons(cfg, [p, q], from, upto) == CordonsOf(cfg, p, from, upto) + CordonsOf(cfg, q, from, upto)
    ensures AtMostActive(cfg, [p, q], from, upto, if p.id == q.id then 2 else 1)
  {
    var none: seq<Process> := [];
    assert [p, q][..1] == [p] && [p][..0] == none;
    assert FleetCordons(cfg, none, from, upto) == 0;
    assert FleetCordons(cfg, [p], from, upto) == CordonsOf(cfg, p, from, upto);
    forall id
      ensures ActiveAs(cfg, [p, q], id, from, upto) <= (if p.id == id then 1 else 0) + (if q.id == id then 1 else 0)
    {
      assert ActiveAs(cfg, none, id, from, upto) == 0;
      assert ActiveAs(cfg, [p], id, from, upto) <= if p.id == id then 1 else 0;
    }
  }

  lemma WrittenBy(writes: seq<Leases.Message>, w: nat)
    requires w < |writes|
    ensures Wrote(writes[w].id, writes[w].now, writes)
  {
  }

  lemma BurstIsElected(cfg: Config, id: string, now: Time, n: nat, writes: seq<Leases.Message>)
    requires Wrote(id, now, writes)
    ensures Guards.Forward(Burst(cfg, now, n)) && Elected(id, Burst(cfg, now, n), writes)
  {
  }

  /** If this is a fleet of processes that hold the lease in this run, at most n of each identity
      cordoning in the interval, then the allowance bounds them all together. */
  ghost predicate Bounded(
    cfg: Config, duration: int, initial: Option<Leases.Stored>, events: seq<Leases.Event>,
    fleet: seq<Process>, from: Time, length: Time, n: nat)
  {
    && FleetOk(fleet, Leases.Run(duration, initial, events).writes)
    && AtMostActive(cfg, fleet, from, from + length, n)
    ==> FleetCordons(cfg, fleet, from, from + length) <= Max(0, cfg.maxCordons)
  }

  lemma MoreActive(cfg: Config, fleet: seq<Process>, from: Time, upto: Time, m: nat, n: nat)
    requires m <= n && AtMostActive(cfg, fleet, from, upto, m)
    ensures AtMostActive(cfg, fleet, from, upto, n)
  {
    forall id
      ensures ActiveAs(cfg, fleet, id, from, upto) <= n
    {
      assert ActiveAs(cfg, fleet, id, from, upto) <= m;
    }
  }

  /** Two processes, of which the first uses its allowance up at t and the second cordons at u. */
  ghost predicate InTurn(fleet: seq<Process>, a: string, t: Time, b: string, u: Time) {
    && |fleet| == 2 && fleet[0].id == a && fleet[1].id == b
    && (forall k :: 0 <= k < |fleet[0].passes| ==> fleet[0].passes[k].now == t)
    && (forall k :: 0 <= k < |fleet[1].passes| ==> fleet[1].passes[k].now == u)
  }

  function Turns(cfg: Config, a: string, t: Time, m: nat, b: string, u: Time, n: nat): seq<Process> {
    [Process(a, Burst(cfg, t, m)), Process(b, Burst(cfg, u, n))]
  }

  lemma TurnsCount(
    cfg: Config, a: string, t: Time, m: nat, b: string, u: Time, k: nat, from: Time, upto: Time, n: nat,
    fleet: seq<Process>)
    requires cfg.mode == "enforce" && m <= cfg.maxCordons && k <= cfg.maxCordons && cfg.window > 0.0
    requires from <= t < upto && from <= u < upto && fleet == Turns(cfg, a, t, m, b, u, k)
    requires n >= if a == b then 2 else 1
    ensures FleetCordons(cfg, fleet, from, upto) == m + k
    ensures AtMostActive(cfg, fleet, from, upto, n)
    ensures InTurn(fleet, a, t, b, u)
  {
    BurstCount(cfg, a, t, m, from, upto);
    BurstCount(cfg, b, u, k, from, upto);
    SumOfTwo(cfg, Process(a, Burst(cfg, t, m)), Process(b, Burst(cfg, u, k)), from, upto);
    MoreActive(cfg, fleet, from, upto, if a == b then 2 else 1, n);
  }

  lemma TurnsAreElected(
    cfg: Config, a: string, t: Time, m: nat, b: string, u: Time, n: nat,
    writes: seq<Leases.Message>, fleet: seq<Process>)
    requires |writes| == 2 && fleet == Turns(cfg, a, t, m, b, u, n)
    requires writes[0].id == a && writes[0].now == t && writes[1].id == b && writes[1].now == u
    ensures FleetOk(fleet, writes)
  {
    WrittenBy(writes, 0);
    WrittenBy(writes, 1);
    BurstIsElected(cfg, a, t, m, writes);
    BurstIsElected(cfg, b, u, n, writes);
  }

  /** Wherever two such turns fit into an interval, the allowance is exceeded in it. */
  lemma TurnsExceed(
    cfg: Config, duration: int, a: string, t: Time, b: string, u: Time, from: Time, upto: Time, n: nat)
    returns (events: seq<Leases.Event>, fleet: seq<Process>)
    requires cfg.mode == "enforce" && cfg.maxCordons > 0 && cfg.window > 0.0
    requires from <= t < upto && from <= u < upto
    requires if a == b then t <= u && n >= 2 else u - Stamp(t) as Time > duration as Time && n >= 1
    ensures InTurn(fleet, a, t, b, u)
    ensures FleetOk(fleet, Leases.Run(duration, None, events).writes)
    ensures AtMostActive(cfg, fleet, from, upto, n)
    ensures FleetCordons(cfg, fleet, from, upto) == cfg.maxCordons + 1
  {
    events := Leases.TwoTurns(duration, a, t, b, u);
    fleet := Turns(cfg, a, t, cfg.maxCordons, b, u, 1);
    TurnsAreElected(cfg, a, t, cfg.maxCordons, b, u, 1, Leases.Run(duration, None, events).writes, fleet);
    TurnsCount(cfg, a, t, cfg.maxCordons, b, u, 1, from, upto, n, fleet);
  }

  /** A restart in place forgets the window: the new process has the old identity, renews the lease
      at once and starts with an empty history. In every interval, however short and under whatever
      lease duration, the two can exceed the allowance. */
  lemma RestartForgets(cfg: Config, duration: int, from: Time, length: Time, n: nat)
    returns (events: seq<Leases.Event>, fleet: seq<Process>)
    requires cfg.mode == "enforce" && cfg.maxCordons > 0 && cfg.window > 0.0 && length > 0.0 && n > 1
    ensures exists id, t, u :: t < u && InTurn(fleet, id, t, id, u)
    ensures !Bounded(cfg, duration, None, events, fleet, from, length, n)
  {
    events, fleet := TurnsExceed(cfg, duration, "a", from, "a", from + length / 2.0, from, from + length, n);
  }

  /** Where two turns of different guards go, in an interval longer than duration - 1. */
  lemma TwoTurnsFit(duration: int, length: Time) returns (t: Time, u: Time)
    requires duration >= 0 && length > 0.0 && length > duration as Time - 1.0
    ensures t <= u < t + length && u - Stamp(t) as Time > duration as Time
  {
    var d := duration as Time;
    if length > d {
      t, u := 0.0, d + (length - d) / 2.0;
    } else {
      var gap := d - length;
      t, u := (1.0 + gap) / 2.0, d + (1.0 - gap) / 4.0;
      assert Stamp(t) == 0;
    }
  }

  /** The window does not survive a change of leader either: in every interval longer than
      duration - 1 two guards, one after the other, can exceed the allowance. */
  lemma LimitIsPerProcess(cfg: Config, duration: int, length: Time)
    returns (events: seq<Leases.Event>, fleet: seq<Process>, from: Time)
    requires cfg.mode == "enforce" && cfg.maxCordons > 0 && cfg.window > 0.0
    requires duration >= 0 && length > 0.0 && length > duration as Time - 1.0
    ensures exists a, t, b, u :: a != b && t <= u && InTurn(fleet, a, t, b, u)
    ensures !Bounded(cfg, duration, None, events, fleet, from, length, 1)
  {
    assert "a"[0] != "b"[0];
    var t, u := TwoTurnsFit(duration, length);
    events, fleet := TurnsExceed(cfg, duration, "a", t, "b", u, t, t + length, 1);
    from := t;
  }

  /** One allowance for the whole fleet: in enforce mode, for intervals up to the window, it holds in
      every run exactly when no identity is used by two processes in the interval and the interval
      is no longer than duration - 1. */
  lemma FleetRateLimitIff(cfg: Config, duration: int, length: Time, n: nat)
    requires cfg.mode == "enforce" && cfg.maxCordons > 0 && 0.0 < length <= cfg.window
    requires duration >= 0 && n > 0
    ensures (forall initial, events, fleet, from :: Bounded(cfg, duration, initial, events, fleet, from, length, n)) <==>
            n == 1 && length <= duration as Time - 1.0
  {
    if n > 1 {
      var events, fleet := RestartForgets(cfg, duration, 0.0, length, n);
    } else if length > duration as Time - 1.0 {
      var events, fleet, from := LimitIsPerProcess(cfg, duration, length);
      assert !Bounded(cfg, duration, None, events, fleet, from, length, n);
    } else {
      forall initial, events, fleet, from
        ensures Bounded(cfg, duration, initial, events, fleet, from, length, n)
      {
        if FleetOk(fleet, Leases.Run(duration, initial, events).writes) && AtMostActive(cfg, fleet, from, from + length, n) {
          FleetRateLimit(cfg, duration, initial, events, fleet, from, length, n);
        }
      }
    }
  }
}
