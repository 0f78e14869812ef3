/** What a batch of decisions means: who is cordoned, and what it does to the fleet. */
module PolicyProperties {
  import opened Wrappers
  import opened Clock
  import opened Tallies
  import opened Policy

  // ---- A single decision -----------------------------------------------------------------

  /** The node's most severe True condition is one that cordons and has held for minAge. */
  ghost predicate HeldLongEnough(node: Node, t: CondType, now: Time, minAge: Time) {
    && t in {GPUUnrecoverable, GPUWorkqueueStalled, GPUEngineTimeout}
    && (exists k :: 0 <= k < |SEVERITY| && SEVERITY[k] == t && MostSevere(node, k))
    && ConditionIndex(node.conditions)[t].since.Some?
    && now - ConditionIndex(node.conditions)[t].since.value as Time >= minAge
  }

  /** The trigger is old enough and cordons exactly when such a condition holds, and it is that one. */
  lemma HeldIffTriggers(node: Node, now: Time, minAge: Time)
    ensures var trig := TriggerLevel(node, now, minAge);
            var acts := trig.Active? && !trig.tooYoung && trig.level in CORDON_LEVELS;
            && (acts <==> exists t :: HeldLongEnough(node, t, now, minAge))
            && (acts ==> HeldLongEnough(node, trig.cond.ctype, now, minAge))
  {
    TriggerIsMostSevere(node, now, minAge);
    SearchIsSeverityScan(node);
    assert SEVERITY[0] == GPUUnrecoverable && SEVERITY[1] == GPUWorkqueueStalled;
    assert SEVERITY[2] == GPUEngineTimeout && SEVERITY[3] == GPUProbeFailed;
    var trig := TriggerLevel(node, now, minAge);
    if trig.Active? && !trig.tooYoung && trig.level in CORDON_LEVELS {
      assert HeldLongEnough(node, trig.cond.ctype, now, minAge);
    }
    forall t | HeldLongEnough(node, t, now, minAge)
      ensures trig.Active? && trig.cond.ctype == t && !trig.tooYoung && trig.level in CORDON_LEVELS
    {
      var k :| 0 <= k < |SEVERITY| && SEVERITY[k] == t && MostSevere(node, k);
      assert forall j :: 0 <= j < k ==> !IsTrue(node, SEVERITY[j]);
    }
  }

  /** A cordon needs every guardrail at once, and with every guardrail passed it happens. */
  lemma CordonIff(nodes: seq<Node>, i: nat, now: Time, cfg: Config, recent: seq<Time>)
    requires i < |nodes|
    ensures Decisions(nodes, now, cfg, recent)[i].action == Cordon <==>
            && cfg.mode == "enforce"
            && (exists t :: HeldLongEnough(nodes[i], t, now, cfg.minAge))
            && !IsTrue(nodes[i], GPUHealthDataStale)
            && Schedulable(nodes[i])
            && Capacity(nodes, now, cfg.minAge, {DisplayName(nodes[i])}) >= cfg.minHealthyNodes
            && (cfg.enforceNodes == [] || DisplayName(nodes[i]) in cfg.enforceNodes)
            && Tally(CandidateFlags(nodes, now, cfg)[..i]) < Budget(cfg, now, recent)
    ensures var d := Decisions(nodes, now, cfg, recent)[i];
            d.action == Cordon ==> d.ctype.Some? && HeldLongEnough(nodes[i], d.ctype.value, now, cfg.minAge)
  {
    HeldIffTriggers(nodes[i], now, cfg.minAge);
  }

  /** A young condition hides every condition below it, however old: the node is not cordoned. */
  lemma YoungSevereMasksMilder(nodes: seq<Node>, i: nat, now: Time, cfg: Config, recent: seq<Time>, k: nat)
    requires i < |nodes| && k < |SEVERITY| && MostSevere(nodes[i], k)
    requires var cond := ConditionIndex(nodes[i].conditions)[SEVERITY[k]];
             cond.since.None? || now - cond.since.value as Time < cfg.minAge
    ensures Decisions(nodes, now, cfg, recent)[i].action == Noop
    ensures Decisions(nodes, now, cfg, recent)[i].reason == TooYoung
  {
    SearchIsSeverityScan(nodes[i]);
    assert SEVERITY[0] == GPUUnrecoverable && SEVERITY[1] == GPUWorkqueueStalled;
    assert SEVERITY[2] == GPUEngineTimeout && SEVERITY[3] == GPUProbeFailed;
    assert k == 0 || !IsTrue(nodes[i], SEVERITY[0]);
    assert k <= 1 || !IsTrue(nodes[i], SEVERITY[1]);
    assert k <= 2 || !IsTrue(nodes[i], SEVERITY[2]);
  }

  // ---- The batch as a selection ----------------------------------------------------------

  function CordonFlags(ds: seq<Decision>): (flags: seq<bool>)
    ensures |flags| == |ds|
    ensures forall i :: 0 <= i < |ds| ==> flags[i] == (ds[i].action == Cordon)
  {
    seq(|ds|, i requires 0 <= i < |ds| => ds[i].action == Cordon)
  }

  /** Selecting the candidates with fewer than b candidates before them selects min(b, all). */
  lemma {:induction false} SelectFirst(flags: seq<bool>, chosen: seq<bool>, b: nat, n: nat)
    requires |chosen| == |flags| && n <= |flags|
    requires forall i :: 0 <= i < |flags| ==> (chosen[i] <==> flags[i] && Tally(flags[..i]) < b)
    ensures Tally(chosen[..n]) == Min(b, Tally(flags[..n]))
  {
    if n > 0 {
      SelectFirst(flags, chosen, b, n - 1);
      TallyStep(flags, n - 1);
      TallyStep(chosen, n - 1);
    }
  }

  /** In enforce mode the cordoned nodes are the first max(0, budget) candidates, in order; in
      any other mode nothing is cordoned. */
  lemma CordonsAreFirstCandidates(nodes: seq<Node>, now: Time, cfg: Config, recent: seq<Time>)
    ensures var ds := Decisions(nodes, now, cfg, recent);
            var candidates := CandidateFlags(nodes, now, cfg);
            var b := Max(0, Budget(cfg, now, recent));
            if cfg.mode == "enforce" then
              && (forall i :: 0 <= i < |nodes| ==>
                    (ds[i].action == Cordon <==> candidates[i] && Tally(candidates[..i]) < b))
              && Tally(CordonFlags(ds)) == Min(b, Tally(candidates))
            else
              Tally(CordonFlags(ds)) == 0
  {
    var ds := Decisions(nodes, now, cfg, recent);
    var candidates := CandidateFlags(nodes, now, cfg);
    var chosen := CordonFlags(ds);
    if cfg.mode == "enforce" {
      SelectFirst(candidates, chosen, Max(0, Budget(cfg, now, recent)), |nodes|);
      assert chosen[..|nodes|] == chosen && candidates[..|nodes|] == candidates;
    } else {
      TallyNone(chosen);
    }
  }

  /** Observe mode tells what enforce mode does: the same refusals on the same nodes, and every
      node that passes the guardrails is reported, all of them or none by the initial budget. */
  lemma ObserveMirrorsEnforce(nodes: seq<Node>, i: nat, now: Time, enforce: Config, observe: Config, recent: seq<Time>)
    requires i < |nodes|
    requires enforce.mode == "enforce" && observe == enforce.(mode := observe.mode) && observe.mode != "enforce"
    ensures var e := Decisions(nodes, now, enforce, recent)[i];
            var o := Decisions(nodes, now, observe, recent)[i];
            && o.action == Noop
            && (Refusal(nodes, nodes[i], now, enforce).Some? <==> Refusal(nodes, nodes[i], now, observe).Some?)
            && (Refusal(nodes, nodes[i], now, enforce).Some? ==> e == o && e.action == Noop)
            && (Refusal(nodes, nodes[i], now, enforce).None? ==>
                  && e.reason in {RateLimit, OutOfScope, Cordoned}
                  && o.reason == if Budget(enforce, now, recent) > 0 then ObserveMode else RateLimit)
            && (e.action == Cordon ==> o.reason == ObserveMode)
  {
  }

  // ---- Why each decision comes out as it does --------------------------------------------------

  /** The agent's conditions that trigger, told by the node's entries alone: t is the most severe
      one that says "True", at entry i. */
  ghost predicate TriggersBy(node: Node, t: CondType, i: int) {
    && LastOf(node.conditions, t, i) && node.conditions[i].status == "True"
    && t in {GPUUnrecoverable, GPUWorkqueueStalled, GPUEngineTimeout, GPUProbeFailed}
    && (t != GPUUnrecoverable ==> !ShowsTrue(node, GPUUnrecoverable))
    && (t in {GPUEngineTimeout, GPUProbeFailed} ==> !ShowsTrue(node, GPUWorkqueueStalled))
    && (t == GPUProbeFailed ==> !ShowsTrue(node, GPUEngineTimeout))
  }

  ghost predicate OldEntry(node: Node, i: int, now: Time, minAge: Time)
    requires 0 <= i < |node.conditions|
  {
    node.conditions[i].since.Some? && now - node.conditions[i].since.value as Time >= minAge
  }

  /** The trigger is the entry that triggers, with its level, and too young if the entry is not old. */
  lemma TriggerIsEntry(node: Node, now: Time, minAge: Time, t: CondType, i: int)
    requires TriggersBy(node, t, i)
    ensures TriggerLevel(node, now, minAge) ==
            Active(if t == GPUProbeFailed then L1 else if t == GPUEngineTimeout then L2 else L3,
                   node.conditions[i], !OldEntry(node, i, now, minAge))
  {
    IsTrueIff(node, GPUUnrecoverable);
    IsTrueIff(node, GPUWorkqueueStalled);
    IsTrueIff(node, GPUEngineTimeout);
    IsTrueIff(node, GPUProbeFailed);
    IndexIsLast(node.conditions, t);
    SearchIsSeverityScan(node);
  }

  lemma QuietIff(node: Node, now: Time, minAge: Time)
    ensures TriggerLevel(node, now, minAge).Quiet? <==> forall t, i :: !TriggersBy(node, t, i)
    ensures TriggerLevel(node, now, minAge).Quiet? ==>
              && !ShowsTrue(node, GPUUnrecoverable) && !ShowsTrue(node, GPUWorkqueueStalled)
              && !ShowsTrue(node, GPUEngineTimeout) && !ShowsTrue(node, GPUProbeFailed)
  {
    forall t, i | TriggersBy(node, t, i)
      ensures TriggerLevel(node, now, minAge).Active?
    {
      TriggerIsEntry(node, now, minAge, t, i);
    }
    IsTrueIff(node, GPUUnrecoverable);
    IsTrueIff(node, GPUWorkqueueStalled);
    IsTrueIff(node, GPUEngineTimeout);
    IsTrueIff(node, GPUProbeFailed);
    SearchIsSeverityScan(node);
    if TriggerLevel(node, now, minAge).Active? {
      var t := SearchLevels(node, LEVEL_RULES).value.1;
      var i :| LastOf(node.conditions, t, i) && node.conditions[i].status == "True";
      assert TriggersBy(node, t, i);
    }
  }

  /** What an old cordon-level entry still has to pass. */
  ghost predicate Acts(node: Node, now: Time, minAge: Time) {
    exists t, i :: TriggersBy(node, t, i) && t != GPUProbeFailed && OldEntry(node, i, now, minAge)
  }

  /** What the refusals up to the floor are, by the node's entries and the fleet's usable nodes. */
  lemma RefusalIff(nodes: seq<Node>, node: Node, now: Time, cfg: Config)
    ensures var r := Refusal(nodes, node, now, cfg);
            var acts := Acts(node, now, cfg.minAge);
            var others := |UsableNodes(nodes, {DisplayName(node)})|;
            && (r == Some(Healthy) <==> forall t, i :: !TriggersBy(node, t, i))
            && (r == Some(TooYoung) <==> exists t, i :: TriggersBy(node, t, i) && !OldEntry(node, i, now, cfg.minAge))
            && (r == Some(ReportOnly) <==>
                  exists i :: TriggersBy(node, GPUProbeFailed, i) && OldEntry(node, i, now, cfg.minAge))
            && (r == Some(StaleData) <==> acts && ShowsTrue(node, GPUHealthDataStale))
            && (r == Some(AlreadyCordoned) <==> acts && !ShowsTrue(node, GPUHealthDataStale) && node.unschedulable)
            && (r == Some(CapacityFloor) <==>
                  acts && !ShowsTrue(node, GPUHealthDataStale) && !node.unschedulable && others < cfg.minHealthyNodes)
            && (r == None <==>
                  acts && !ShowsTrue(node, GPUHealthDataStale) && !node.unschedulable && others >= cfg.minHealthyNodes)
  {
    IsTrueIff(node, GPUHealthDataStale);
    CapacityIsUsable(nodes, now, cfg.minAge, {DisplayName(node)});
    QuietIff(node, now, cfg.minAge);
    forall t, i | TriggersBy(node, t, i)
      ensures TriggerLevel(node, now, cfg.minAge) ==
              Active(if t == GPUProbeFailed then L1 else if t == GPUEngineTimeout then L2 else L3,
                     node.conditions[i], !OldEntry(node, i, now, cfg.minAge))
    {
      TriggerIsEntry(node, now, cfg.minAge, t, i);
    }
  }

  /** How many cordons the batch decides before position i. */
  function CordonsBefore(ds: seq<Decision>, i: nat): nat
    requires i <= |ds|
  {
    Tally(CordonFlags(ds)[..i])
  }

  /** The budget is gone for node i exactly when the cordons decided before it have used it up. */
  lemma BudgetGoneIff(nodes: seq<Node>, i: nat, now: Time, cfg: Config, recent: seq<Time>)
    requires i < |nodes|
    ensures var before := CordonsBefore(Decisions(nodes, now, cfg, recent), i);
            before >= Budget(cfg, now, recent) <==>
            if cfg.mode == "enforce" then Tally(CandidateFlags(nodes, now, cfg)[..i]) >= Budget(cfg, now, recent)
            else Budget(cfg, now, recent) <= 0
  {
    var ds, candidates := Decisions(nodes, now, cfg, recent), CandidateFlags(nodes, now, cfg);
    CordonsAreFirstCandidates(nodes, now, cfg, recent);
    if cfg.mode == "enforce" {
      SelectFirst(candidates, CordonFlags(ds), Max(0, Budget(cfg, now, recent)), i);
    } else {
      TallyNone(CordonFlags(ds));
      TallyNone(CordonFlags(ds)[..i]);
    }
  }

  /** The node that got past the floor, told without the trigger level and the capacity. */
  ghost predicate PassesFloor(nodes: seq<Node>, i: int, now: Time, cfg: Config)
    requires 0 <= i < |nodes|
  {
    && Acts(nodes[i], now, cfg.minAge) && !ShowsTrue(nodes[i], GPUHealthDataStale) && !nodes[i].unschedulable
    && |UsableNodes(nodes, {DisplayName(nodes[i])})| >= cfg.minHealthyNodes
  }

  /** Each of the last four reasons, exactly: by what passed the floor, the cordons decided before
      this node, the mode and the scope. Only a cordon has the reason Cordoned. */
  lemma ReasonIff(nodes: seq<Node>, i: nat, now: Time, cfg: Config, recent: seq<Time>)
    requires i < |nodes|
    ensures var ds := Decisions(nodes, now, cfg, recent);
            var passes := PassesFloor(nodes, i, now, cfg);
            var spent := CordonsBefore(ds, i) >= Budget(cfg, now, recent);
            var inScope := cfg.enforceNodes == [] || DisplayName(nodes[i]) in cfg.enforceNodes;
            && (ds[i].reason == RateLimit <==> passes && spent)
            && (ds[i].reason == ObserveMode <==> passes && !spent && cfg.mode != "enforce")
            && (ds[i].reason == OutOfScope <==> passes && !spent && cfg.mode == "enforce" && !inScope)
            && (ds[i].reason == Cordoned <==> passes && !spent && cfg.mode == "enforce" && inScope)
            && (ds[i].action == Cordon <==> ds[i].reason == Cordoned)
            && (!passes ==> Refusal(nodes, nodes[i], now, cfg) == Some(ds[i].reason))
  {
    RefusalIff(nodes, nodes[i], now, cfg);
    BudgetGoneIff(nodes, i, now, cfg, recent);
  }

  /** What else a decision says: the node's name, and the level and type of the entry that triggers. */
  lemma DecisionNames(nodes: seq<Node>, i: nat, now: Time, cfg: Config, recent: seq<Time>)
    requires i < |nodes|
    ensures var d := Decisions(nodes, now, cfg, recent)[i];
            && d.node == (if nodes[i].name.Some? then nodes[i].name.value else "")
            && (d.reason == Healthy ==> d.level.None? && d.ctype.None?)
            && forall t, k :: TriggersBy(nodes[i], t, k) ==>
                 d.ctype == Some(t)
                 && d.level == Some(if t == GPUProbeFailed then L1 else if t == GPUEngineTimeout then L2 else L3)
  {
    forall t, k | TriggersBy(nodes[i], t, k)
      ensures TriggerLevel(nodes[i], now, cfg.minAge).Active?
              && TriggerLevel(nodes[i], now, cfg.minAge).cond.ctype == t
              && TriggerLevel(nodes[i], now, cfg.minAge).level ==
                 if t == GPUProbeFailed then L1 else if t == GPUEngineTimeout then L2 else L3
    {
      TriggerIsEntry(nodes[i], now, cfg.minAge, t, k);
    }
  }

  /** A cordon leaves enough: with the node itself gone, at least the floor of other nodes are Ready,
      schedulable and without a condition that cordons. */
  lemma CordonLeavesUsable(nodes: seq<Node>, i: nat, now: Time, cfg: Config, recent: seq<Time>)
    requires i < |nodes| && Decisions(nodes, now, cfg, recent)[i].action == Cordon
    ensures |UsableNodes(nodes, {DisplayName(nodes[i])})| >= cfg.minHealthyNodes
    ensures i !in UsableNodes(nodes, {DisplayName(nodes[i])})
  {
    ReasonIff(nodes, i, now, cfg, recent);
  }

  // ---- Capacity --------------------------------------------------------------------------

  ghost predicate UniqueNames(nodes: seq<Node>) {
    forall i, j :: 0 <= i < j < |nodes| ==> DisplayName(nodes[i]) != DisplayName(nodes[j])
  }

  /** A node that triggers a cordon is never part of the capacity, so leaving it out by name
      changes nothing: the floor is measured against one total for the whole batch. */
  lemma ExcludedCountIsTotal(nodes: seq<Node>, i: nat, now: Time, minAge: Time)
    requires UniqueNames(nodes)
    requires i < |nodes| && Triggering(nodes[i], now, minAge)
    ensures Capacity(nodes, now, minAge, {DisplayName(nodes[i])}) == Capacity(nodes, now, minAge, {})
  {
    var excluded := CapacityFlags(nodes, now, minAge, {DisplayName(nodes[i])});
    var total := CapacityFlags(nodes, now, minAge, {});
    forall j | 0 <= j < |nodes|
      ensures excluded[j] == total[j]
    {
      assert j != i ==> DisplayName(nodes[i]) != DisplayName(nodes[j]);
    }
    assert excluded == total;
  }

  /** The fleet after a PATCH by name for every cordon decision. */
  function AfterCordons(nodes: seq<Node>, ds: seq<Decision>): (after: seq<Node>)
    ensures |after| == |nodes|
    ensures forall i :: 0 <= i < |nodes| ==>
      after[i] == nodes[i].(unschedulable := nodes[i].unschedulable || Patched(nodes[i], ds))
  {
    seq(|nodes|, i requires 0 <= i < |nodes| =>
      nodes[i].(unschedulable := nodes[i].unschedulable || Patched(nodes[i], ds)))
  }

  predicate Patched(node: Node, ds: seq<Decision>) {
    node.name.Some? && exists j :: 0 <= j < |ds| && ds[j].action == Cordon && ds[j].node == node.name.value
  }

  lemma CordonIsTriggering(nodes: seq<Node>, i: nat, now: Time, cfg: Config, recent: seq<Time>)
    requires i < |nodes| && Decisions(nodes, now, cfg, recent)[i].action == Cordon
    ensures Triggering(nodes[i], now, cfg.minAge)
    ensures Capacity(nodes, now, cfg.minAge, {DisplayName(nodes[i])}) >= cfg.minHealthyNodes
  {
  }

  /** Carrying out one whole batch leaves the healthy capacity as it was, and if anything was
      cordoned that capacity is at least the floor, although the scan never updates its snapshot. */
  lemma {:induction false} BatchKeepsCapacity(nodes: seq<Node>, now: Time, cfg: Config, recent: seq<Time>)
    requires UniqueNames(nodes)
    ensures var ds := Decisions(nodes, now, cfg, recent);
            var after := AfterCordons(nodes, ds);
            && Capacity(after, now, cfg.minAge, {}) == Capacity(nodes, now, cfg.minAge, {})
            && ((exists i :: 0 <= i < |ds| && ds[i].action == Cordon) ==>
                  Capacity(after, now, cfg.minAge, {}) >= cfg.minHealthyNodes)
  {
    var ds := Decisions(nodes, now, cfg, recent);
    var after := AfterCordons(nodes, ds);
    var flags := CapacityFlags(nodes, now, cfg.minAge, {});
    var flags' := CapacityFlags(after, now, cfg.minAge, {});
    forall i | 0 <= i < |nodes|
      ensures flags'[i] == flags[i]
    {
      assert after[i].conditions == nodes[i].conditions;
      if Patched(nodes[i], ds) {
        var j :| 0 <= j < |ds| && ds[j].action == Cordon && ds[j].node == nodes[i].name.value;
        assert DisplayName(nodes[j]) == DisplayName(nodes[i]);
        assert i == j;
        CordonIsTriggering(nodes, j, now, cfg, recent);
      }
    }
    assert flags' == flags;
    if i :| 0 <= i < |ds| && ds[i].action == Cordon {
      CordonIsTriggering(nodes, i, now, cfg, recent);
      ExcludedCountIsTotal(nodes, i, now, cfg.minAge);
    }
  }

  /** A cordon lasts: a named node cordoned by one batch is not cordoned by any later decision on
      the patched fleet, at any time, in any mode and with any budget. */
  lemma NeverCordonedTwice(
    nodes: seq<Node>, i: nat, now: Time, cfg: Config, recent: seq<Time>,
    now': Time, cfg': Config, recent': seq<Time>)
    requires i < |nodes| && nodes[i].name.Some?
    requires Decisions(nodes, now, cfg, recent)[i].action == Cordon
    ensures Decisions(AfterCordons(nodes, Decisions(nodes, now, cfg, recent)), now', cfg', recent')[i].action == Noop
  {
    var ds := Decisions(nodes, now, cfg, recent);
    assert ds[i].node == nodes[i].name.value;
    assert Patched(nodes[i], ds);
  }
}
