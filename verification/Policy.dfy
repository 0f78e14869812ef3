/**
 The guard's decision: node conditions, a trigger level, ordered guardrails and a budget that
 runs down while the fleet is scanned. `Decide` is the scan; `Decisions` says, node by node and
 without any running state, what the scan must return.
 */
module Policy {
  import opened Wrappers
  import opened Clock
  import opened Tallies

  /** A condition's `type`. The five agent conditions, the kubelet's Ready, anything else, and
      an entry whose type is missing or empty. */
  datatype CondType =
    | GPUUnrecoverable
    | GPUWorkqueueStalled
    | GPUEngineTimeout
    | GPUProbeFailed
    | GPUHealthDataStale
    | Ready
    | Foreign(name: string)
    | Untyped

  /** `since` is the parsed lastTransitionTime; None when it is missing or malformed. */
  datatype Condition = Condition(ctype: CondType, status: string, since: Option<int>)

  datatype Node = Node(name: Option<string>, unschedulable: bool, conditions: seq<Condition>)

  datatype Level = L1 | L2 | L3

  const LEVEL_RULES: seq<(Level, seq<CondType>)> :=
    [(L3, [GPUUnrecoverable, GPUWorkqueueStalled]), (L2, [GPUEngineTimeout]), (L1, [GPUProbeFailed])]

  const CORDON_LEVELS: set<Level> := {L2, L3}

  datatype Config = Config(
    mode: string,
    enforceNodes: seq<string>,
    minAge: Time,
    minHealthyNodes: int,
    maxCordons: int,
    window: Time
  )

  datatype Action = Cordon | Noop

  datatype Reason =
    | Healthy
    | AlreadyCordoned
    | ReportOnly
    | TooYoung
    | StaleData
    | ObserveMode
    | OutOfScope
    | CapacityFloor
    | RateLimit
    | Cordoned

  datatype Decision = Decision(
    node: string,
    action: Action,
    reason: Reason,
    level: Option<Level>,
    ctype: Option<CondType>
  )

  // ---- Conditions of one node ------------------------------------------------------------

  /** Conditions by type; of two entries of one type the later one is kept. */
  function ConditionIndex(cs: seq<Condition>): (index: map<CondType, Condition>)
    ensures Untyped !in index
    ensures forall t :: t in index ==> index[t].ctype == t
  {
    if cs == [] then map[]
    else
      var c := cs[|cs| - 1];
      var index := ConditionIndex(cs[..|cs| - 1]);
      if c.ctype == Untyped then index else index[c.ctype := c]
  }

  /** Entry i is the last one of its type. */
  ghost predicate LastOf(cs: seq<Condition>, t: CondType, i: int) {
    0 <= i < |cs| && cs[i].ctype == t && forall j :: i < j < |cs| ==> cs[j].ctype != t
  }

  /** A type is found exactly if it is not missing and some entry has it, and then the last one counts. */
  lemma {:induction false} IndexIsLast(cs: seq<Condition>, t: CondType)
    ensures t in ConditionIndex(cs) <==> t != Untyped && exists i :: LastOf(cs, t, i)
    ensures t in ConditionIndex(cs) ==> forall i :: LastOf(cs, t, i) ==> ConditionIndex(cs)[t] == cs[i]
  {
    if cs != [] {
      var n := |cs| - 1;
      var init := cs[..n];
      IndexIsLast(init, t);
      if cs[n].ctype == t {
        assert LastOf(cs, t, n);
      } else {
        forall i
          ensures LastOf(cs, t, i) <==> LastOf(init, t, i)
        {
        }
      }
    }
  }

  predicate IsTrue(node: Node, t: CondType) {
    var index := ConditionIndex(node.conditions);
    t in index && index[t].status == "True"
  }

  /** The node's last entry of this type says "True". */
  ghost predicate ShowsTrue(node: Node, t: CondType) {
    exists i :: LastOf(node.conditions, t, i) && node.conditions[i].status == "True"
  }

  lemma IsTrueIff(node: Node, t: CondType)
    requires t != Untyped
    ensures IsTrue(node, t) <==> ShowsTrue(node, t)
  {
    IndexIsLast(node.conditions, t);
  }

  predicate Schedulable(node: Node) {
    !node.unschedulable
  }

  predicate IsReady(node: Node) {
    IsTrue(node, Ready)
  }

  function DisplayName(node: Node): string {
    if node.name.Some? then node.name.value else ""
  }

  // ---- Trigger level ---------------------------------------------------------------------

  datatype Trigger = Quiet | Active(level: Level, cond: Condition, tooYoung: bool)

  function FirstTrue(node: Node, types: seq<CondType>): Option<CondType> {
    if types == [] then None
    else if IsTrue(node, types[0]) then Some(types[0])
    else FirstTrue(node, types[1..])
  }

  function SearchLevels(node: Node, rules: seq<(Level, seq<CondType>)>): Option<(Level, CondType)> {
    if rules == [] then None
    else match FirstTrue(node, rules[0].1)
         case Some(t) => Some((rules[0].0, t))
         case None => SearchLevels(node, rules[1..])
  }

  predicate Young(cond: Condition, now: Time, minAge: Time) {
    cond.since.None? || now - cond.since.value as Time < minAge
  }

  lemma {:induction false} FirstTrueIsTrue(node: Node, types: seq<CondType>)
    ensures FirstTrue(node, types).Some? ==> IsTrue(node, FirstTrue(node, types).value)
  {
    if types != [] {
      FirstTrueIsTrue(node, types[1..]);
    }
  }

  lemma {:induction false} SearchFindsTrue(node: Node, rules: seq<(Level, seq<CondType>)>)
    ensures SearchLevels(node, rules).Some? ==> IsTrue(node, SearchLevels(node, rules).value.1)
  {
    if rules != [] {
      FirstTrueIsTrue(node, rules[0].1);
      SearchFindsTrue(node, rules[1..]);
    }
  }

  function TriggerLevel(node: Node, now: Time, minAge: Time): Trigger {
    match SearchLevels(node, LEVEL_RULES)
    case None => Quiet
    case Some((level, t)) =>
      SearchFindsTrue(node, LEVEL_RULES);
      var cond := ConditionIndex(node.conditions)[t];
      Active(level, cond, Young(cond, now, minAge))
  }

  /** The conditions that can trigger, most severe first, and the level each one stands for. */
  const SEVERITY: seq<CondType> := [GPUUnrecoverable, GPUWorkqueueStalled, GPUEngineTimeout, GPUProbeFailed]

  function LevelOf(t: CondType): Level {
    if t == GPUProbeFailed then L1 else if t == GPUEngineTimeout then L2 else L3
  }

  predicate MostSevere(node: Node, k: nat)
    requires k < |SEVERITY|
  {
    && IsTrue(node, SEVERITY[k])
    && forall j :: 0 <= j < k ==> !IsTrue(node, SEVERITY[j])
  }

  lemma SearchIsSeverityScan(node: Node)
    ensures SearchLevels(node, LEVEL_RULES) ==
            if IsTrue(node, GPUUnrecoverable) then Some((L3, GPUUnrecoverable))
            else if IsTrue(node, GPUWorkqueueStalled) then Some((L3, GPUWorkqueueStalled))
            else if IsTrue(node, GPUEngineTimeout) then Some((L2, GPUEngineTimeout))
            else if IsTrue(node, GPUProbeFailed) then Some((L1, GPUProbeFailed))
            else None
  {
    var l3, l2, l1 := LEVEL_RULES[0].1, LEVEL_RULES[1].1, LEVEL_RULES[2].1;
    assert l3[1..] == [GPUWorkqueueStalled] && l3[1..][1..] == [];
    assert FirstTrue(node, l3) == if IsTrue(node, GPUUnrecoverable) then Some(GPUUnrecoverable)
                                  else FirstTrue(node, l3[1..]);
    assert l2[1..] == [] && l1[1..] == [];
    var r1 := LEVEL_RULES[1..];
    var r2 := r1[1..];
    assert r2[1..] == [] && r1[0] == LEVEL_RULES[1] && r2[0] == LEVEL_RULES[2];
    assert SearchLevels(node, r2) == match FirstTrue(node, l1) case Some(t) => Some((L1, t)) case None => None;
    assert SearchLevels(node, r1) == match FirstTrue(node, l2) case Some(t) => Some((L2, t))
                                                               case None => SearchLevels(node, r2);
  }

  /** The trigger is the most severe True condition, whatever its age; only its own time stamp
      decides whether it counts as too young. */
  lemma TriggerIsMostSevere(node: Node, now: Time, minAge: Time)
    ensures TriggerLevel(node, now, minAge).Quiet? <==> forall k :: 0 <= k < |SEVERITY| ==> !IsTrue(node, SEVERITY[k])
    ensures var trig := TriggerLevel(node, now, minAge);
            trig.Active? ==>
              && (exists k :: 0 <= k < |SEVERITY| && SEVERITY[k] == trig.cond.ctype && MostSevere(node, k))
              && trig.level == LevelOf(trig.cond.ctype)
              && trig.cond == ConditionIndex(node.conditions)[trig.cond.ctype]
              && (trig.tooYoung <==> trig.cond.since.None? || now - trig.cond.since.value as Time < minAge)
  {
    SearchIsSeverityScan(node);
    assert SEVERITY[0] == GPUUnrecoverable && SEVERITY[1] == GPUWorkqueueStalled;
    assert SEVERITY[2] == GPUEngineTimeout && SEVERITY[3] == GPUProbeFailed;
    if TriggerLevel(node, now, minAge).Active? {
      var t := TriggerLevel(node, now, minAge).cond.ctype;
      var k := if t == GPUUnrecoverable then 0 else if t == GPUWorkqueueStalled then 1 else if t == GPUEngineTimeout then 2 else 3;
      assert MostSevere(node, k);
    }
  }

  // ---- Healthy capacity ------------------------------------------------------------------

  predicate Triggering(node: Node, now: Time, minAge: Time) {
    var trig := TriggerLevel(node, now, minAge);
    trig.Active? && trig.level in CORDON_LEVELS
  }

  /** A node that is not excluded by name and could still take work. */
  predicate Counts(node: Node, now: Time, minAge: Time, exclude: set<string>) {
    && !(node.name.Some? && node.name.value in exclude)
    && IsReady(node) && Schedulable(node)
    && !Triggering(node, now, minAge)
  }

  function CapacityFlags(nodes: seq<Node>, now: Time, minAge: Time, exclude: set<string>): (flags: seq<bool>)
    ensures |flags| == |nodes|
    ensures forall i :: 0 <= i < |nodes| ==> flags[i] == Counts(nodes[i], now, minAge, exclude)
  {
    seq(|nodes|, i requires 0 <= i < |nodes| => Counts(nodes[i], now, minAge, exclude))
  }

  function Capacity(nodes: seq<Node>, now: Time, minAge: Time, exclude: set<string>): nat {
    Tally(CapacityFlags(nodes, now, minAge, exclude))
  }

  /** A node that can take work: Ready, schedulable, and none of the three conditions that cordon,
      however young. */
  ghost predicate Usable(node: Node) {
    && ShowsTrue(node, Ready)
    && !node.unschedulable
    && !ShowsTrue(node, GPUUnrecoverable)
    && !ShowsTrue(node, GPUWorkqueueStalled)
    && !ShowsTrue(node, GPUEngineTimeout)
  }

  /** The positions of the usable nodes, without those of an excluded name. */
  ghost function UsableNodes(nodes: seq<Node>, exclude: set<string>): set<int> {
    set i | 0 <= i < |nodes| && Usable(nodes[i]) && !(nodes[i].name.Some? && nodes[i].name.value in exclude)
  }

  lemma CountsIff(node: Node, now: Time, minAge: Time, exclude: set<string>)
    ensures Counts(node, now, minAge, exclude) <==>
            Usable(node) && !(node.name.Some? && node.name.value in exclude)
  {
    SearchIsSeverityScan(node);
    IsTrueIff(node, Ready);
    IsTrueIff(node, GPUUnrecoverable);
    IsTrueIff(node, GPUWorkqueueStalled);
    IsTrueIff(node, GPUEngineTimeout);
  }

  /** The capacity is the number of usable nodes. */
  lemma CapacityIsUsable(nodes: seq<Node>, now: Time, minAge: Time, exclude: set<string>)
    ensures Capacity(nodes, now, minAge, exclude) == |UsableNodes(nodes, exclude)|
  {
    var flags := CapacityFlags(nodes, now, minAge, exclude);
    TallyIsCount(flags);
    forall i | 0 <= i < |nodes|
      ensures flags[i] <==> i in UsableNodes(nodes, exclude)
    {
      CountsIff(nodes[i], now, minAge, exclude);
    }
    assert UsableNodes(nodes, exclude) == set i | 0 <= i < |flags| && flags[i];
  }

  method HealthyCapacity(nodes: seq<Node>, now: Time, minAge: Time, exclude: set<string>) returns (count: nat)
    ensures count == Capacity(nodes, now, minAge, exclude) == |UsableNodes(nodes, exclude)|
  {
    count := 0;
    ghost var flags := CapacityFlags(nodes, now, minAge, exclude);
    for k := 0 to |nodes|
      invariant count == Tally(flags[..k])
    {
      TallyStep(flags, k);
      var node := nodes[k];
      if node.name.Some? && node.name.value in exclude {
        continue;
      }
      if !IsReady(node) || !Schedulable(node) {
        continue;
      }
      var trig := TriggerLevel(node, now, minAge);
      if trig.Active? && trig.level in CORDON_LEVELS {
        continue;
      }
      count := count + 1;
    }
    assert flags[..|nodes|] == flags;
    CapacityIsUsable(nodes, now, minAge, exclude);
  }

  // ---- The budget ------------------------------------------------------------------------

  function InWindow(stamps: seq<Time>, now: Time, window: Time): (flags: seq<bool>)
    ensures |flags| == |stamps|
    ensures forall i :: 0 <= i < |stamps| ==> flags[i] == (now - stamps[i] < window)
  {
    seq(|stamps|, i requires 0 <= i < |stamps| => now - stamps[i] < window)
  }

  function Budget(cfg: Config, now: Time, recent: seq<Time>): int {
    cfg.maxCordons - Tally(InWindow(recent, now, cfg.window))
  }

  method InitialBudget(cfg: Config, now: Time, recent: seq<Time>) returns (budget: int)
    ensures budget == Budget(cfg, now, recent)
  {
    var spent := 0;
    ghost var flags := InWindow(recent, now, cfg.window);
    for k := 0 to |recent|
      invariant spent == Tally(flags[..k])
    {
      TallyStep(flags, k);
      if now - recent[k] < cfg.window {
        spent := spent + 1;
      }
    }
    assert flags[..|recent|] == flags;
    budget := cfg.maxCordons - spent;
  }

  // ---- The decision ----------------------------------------------------------------------

  /** The guardrails up to and including the capacity floor, in order; None if all of them pass.
      They depend on the snapshot alone: not on the budget, the mode or the scope. */
  function Refusal(nodes: seq<Node>, node: Node, now: Time, cfg: Config): Option<Reason> {
    match TriggerLevel(node, now, cfg.minAge)
    case Quiet => Some(Healthy)
    case Active(level, cond, tooYoung) =>
      if tooYoung then Some(TooYoung)
      else if level !in CORDON_LEVELS then Some(ReportOnly)
      else if IsTrue(node, GPUHealthDataStale) then Some(StaleData)
      else if !Schedulable(node) then Some(AlreadyCordoned)
      else if Capacity(nodes, now, cfg.minAge, {DisplayName(node)}) < cfg.minHealthyNodes then Some(CapacityFloor)
      else None
  }

  predicate InScope(node: Node, cfg: Config) {
    cfg.enforceNodes == [] || DisplayName(node) in cfg.enforceNodes
  }

  predicate Candidate(nodes: seq<Node>, node: Node, now: Time, cfg: Config) {
    Refusal(nodes, node, now, cfg).None? && InScope(node, cfg)
  }

  function CandidateFlags(nodes: seq<Node>, now: Time, cfg: Config): (flags: seq<bool>)
    ensures |flags| == |nodes|
    ensures forall i :: 0 <= i < |nodes| ==> flags[i] == Candidate(nodes, nodes[i], now, cfg)
  {
    seq(|nodes|, i requires 0 <= i < |nodes| => Candidate(nodes, nodes[i], now, cfg))
  }

  /** Why node i comes out as it does. In enforce mode the budget is gone for node i exactly when
      at least `budget` candidates stand before it. */
  function ReasonAt(nodes: seq<Node>, i: nat, now: Time, cfg: Config, budget: int): Reason
    requires i < |nodes|
  {
    match Refusal(nodes, nodes[i], now, cfg)
    case Some(reason) => reason
    case None =>
      if cfg.mode != "enforce" then (if budget <= 0 then RateLimit else ObserveMode)
      else if Tally(CandidateFlags(nodes, now, cfg)[..i]) >= budget then RateLimit
      else if !InScope(nodes[i], cfg) then OutOfScope
      else Cordoned
  }

  function DecisionFor(node: Node, now: Time, cfg: Config, reason: Reason): Decision {
    var trig := TriggerLevel(node, now, cfg.minAge);
    Decision(
      DisplayName(node),
      if reason == Cordoned then Cordon else Noop,
      reason,
      if trig.Active? then Some(trig.level) else None,
      if trig.Active? then Some(trig.cond.ctype) else None)
  }

  function Decisions(nodes: seq<Node>, now: Time, cfg: Config, recent: seq<Time>): (ds: seq<Decision>)
    ensures |ds| == |nodes|
    ensures forall i :: 0 <= i < |nodes| ==>
      ds[i] == DecisionFor(nodes[i], now, cfg, ReasonAt(nodes, i, now, cfg, Budget(cfg, now, recent)))
  {
    seq(|nodes|, i requires 0 <= i < |nodes| =>
      DecisionFor(nodes[i], now, cfg, ReasonAt(nodes, i, now, cfg, Budget(cfg, now, recent))))
  }

  /** The running budget after so many candidates. */
  function Remaining(cfg: Config, initial: int, used: nat): int {
    if cfg.mode != "enforce" || initial <= 0 then initial else Max(0, initial - used)
  }

  /** The reason given while so much budget is left. */
  function ReasonWith(nodes: seq<Node>, node: Node, now: Time, cfg: Config, budget: int): Reason {
    match Refusal(nodes, node, now, cfg)
    case Some(reason) => reason
    case None =>
      if budget <= 0 then RateLimit
      else if cfg.mode != "enforce" then ObserveMode
      else if !InScope(node, cfg) then OutOfScope
      else Cordoned
  }

  /** The guardrails for one node, in order. */
  method Examine(nodes: seq<Node>, node: Node, now: Time, cfg: Config, budget: int) returns (reason: Reason)
    ensures reason == ReasonWith(nodes, node, now, cfg, budget)
  {
    var trig := TriggerLevel(node, now, cfg.minAge);
    if trig.Quiet? {
      return Healthy;
    }
    if trig.tooYoung {
      return TooYoung;
    }
    if trig.level !in CORDON_LEVELS {
      return ReportOnly;
    }
    if IsTrue(node, GPUHealthDataStale) {
      return StaleData;
    }
    if !Schedulable(node) {
      return AlreadyCordoned;
    }
    var remaining := HealthyCapacity(nodes, now, cfg.minAge, {DisplayName(node)});
    if remaining < cfg.minHealthyNodes {
      return CapacityFloor;
    }
    if budget <= 0 {
      return RateLimit;
    }
    if cfg.mode != "enforce" {
      return ObserveMode;
    }
    if cfg.enforceNodes != [] && DisplayName(node) !in cfg.enforceNodes {
      return OutOfScope;
    }
    return Cordoned;
  }

  lemma ReasonStep(nodes: seq<Node>, k: nat, now: Time, cfg: Config, initial: int)
    requires k < |nodes|
    ensures var flags := CandidateFlags(nodes, now, cfg);
            var budget := Remaining(cfg, initial, Tally(flags[..k]));
            var reason := ReasonWith(nodes, nodes[k], now, cfg, budget);
            && reason == ReasonAt(nodes, k, now, cfg, initial)
            && Remaining(cfg, initial, Tally(flags[..k + 1])) == if reason == Cordoned then budget - 1 else budget
  {
    TallyStep(CandidateFlags(nodes, now, cfg), k);
  }

  method Decide(nodes: seq<Node>, now: Time, cfg: Config, recent: seq<Time>) returns (ds: seq<Decision>)
    ensures ds == Decisions(nodes, now, cfg, recent)
  {
    var budget := InitialBudget(cfg, now, recent);
    ghost var initial := budget;
    ghost var flags := CandidateFlags(nodes, now, cfg);
    ghost var spec := Decisions(nodes, now, cfg, recent);
    ds := [];
    for k := 0 to |nodes|
      invariant ds == spec[..k]
      invariant budget == Remaining(cfg, initial, Tally(flags[..k]))
    {
      ReasonStep(nodes, k, now, cfg, initial);
      assert spec[..k + 1] == spec[..k] + [spec[k]];
      var reason := Examine(nodes, nodes[k], now, cfg, budget);
      if reason == Cordoned {
        budget := budget - 1;
      }
      ds := ds + [DecisionFor(nodes[k], now, cfg, reason)];
    }
  }
}
