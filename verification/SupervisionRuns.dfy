/** Whole runs of the supervisor: what its clocks mean and how deletions are spaced. */
module SupervisionRuns {
  import opened Wrappers
  import opened Clock
  import opened Streaks
  import opened Supervision

  /** One call of `evaluate`; passes that never list the pods leave no trace. */
  datatype Pass = Pass(now: Time, pods: seq<Pod>)

  ghost function Run(cfg: Config, passes: seq<Pass>): Clocks {
    if passes == [] then Clocks(map[], map[])
    else Next(cfg, Run(cfg, passes[..|passes| - 1]), passes[|passes| - 1].pods, passes[|passes| - 1].now)
  }

  ghost predicate Forward(passes: seq<Pass>) {
    forall i, j :: 0 <= i < j < |passes| ==> passes[i].now <= passes[j].now
  }

  function Looks(passes: seq<Pass>): (looks: seq<Look<string>>)
    ensures |looks| == |passes|
    ensures forall i :: 0 <= i < |passes| ==> looks[i] == Look(passes[i].now, FailedNames(passes[i].pods))
  {
    seq(|passes|, i requires 0 <= i < |passes| => Look(passes[i].now, FailedNames(passes[i].pods)))
  }

  lemma {:induction false} ClocksAreStreaks(cfg: Config, passes: seq<Pass>)
    ensures Run(cfg, passes).unreachableSince == After(Looks(passes))
  {
    if passes != [] {
      var prior, last := passes[..|passes| - 1], passes[|passes| - 1];
      ClocksAreStreaks(cfg, prior);
      AfterStep(Looks(prior), Look(last.now, FailedNames(last.pods)));
      assert Looks(passes) == Looks(prior) + [Look(last.now, FailedNames(last.pods))];
    }
  }

  /** Running, with an address, and without an answer. */
  predicate Silent(pod: Pod) {
    pod.phase == "Running" && pod.ip != "" && !pod.answers
  }

  /** The pod was listed as Running with an address and did not answer, in every pass from s on,
      and not so in the pass before s. */
  ghost predicate UnreachableSince(passes: seq<Pass>, name: string, s: int) {
    && 0 <= s < |passes|
    && (forall i :: s <= i < |passes| ==> FailedIn(passes[i], name))
    && (s > 0 ==> !FailedIn(passes[s - 1], name))
  }

  predicate FailedIn(pass: Pass, name: string) {
    exists i :: 0 <= i < |pass.pods| && pass.pods[i].name == name && Silent(pass.pods[i])
  }

  /** The unreachable clock of a pod runs exactly while the pod keeps failing, and shows the time
      of the first pass of that unbroken run; a deletion does not touch it. */
  lemma ClockMeaning(cfg: Config, passes: seq<Pass>, name: string)
    ensures var since := Run(cfg, passes).unreachableSince;
            && (name in since <==> passes != [] && FailedIn(passes[|passes| - 1], name))
            && (name in since ==>
                  exists s :: UnreachableSince(passes, name, s) && since[name] == passes[s].now)
  {
    ClocksAreStreaks(cfg, passes);
    var looks := Looks(passes);
    ClockIsStreakStart(looks, name);
    forall i | 0 <= i < |passes|
      ensures name in looks[i].failing <==> FailedIn(passes[i], name)
    {
    }
    if name in After(looks) {
      var s :| StreakStart(looks, name, s) && After(looks)[name] == looks[s].now;
      assert UnreachableSince(passes, name, s);
    }
  }

  // ---- Deletions -------------------------------------------------------------------------

  /** Pass p of the run deletes the pod at position i of its list. */
  ghost predicate Deletes(cfg: Config, passes: seq<Pass>, p: int, i: int) {
    && 0 <= p < |passes| && 0 <= i < |passes[p].pods|
    && DecisionAt(cfg, Run(cfg, passes[..p]), passes[p].pods, i, passes[p].now).delete
  }

  /** A deletion means: supervision on, enforce mode, and the pod unreachable in every pass of a
      run that began at least the grace period ago and still goes on. */
  lemma DeleteMeansUnreachable(cfg: Config, passes: seq<Pass>, p: int, i: int)
    requires Deletes(cfg, passes, p, i)
    ensures cfg.enabled && cfg.mode == "enforce"
    ensures exists s :: UnreachableSince(passes[..p + 1], passes[p].pods[i].name, s)
                        && passes[p].now - passes[s].now >= cfg.grace
    ensures passes[p].pods[i].name in Run(cfg, passes[..p + 1]).unreachableSince
  {
    var name := passes[p].pods[i].name;
    var upto := passes[..p + 1];
    assert upto[..p] == passes[..p] && upto[p] == passes[p];
    assert Failed(passes[p].pods[i]);
    assert FailedIn(upto[p], name);
    ClockMeaning(cfg, upto, name);
    var s :| UnreachableSince(upto, name, s) && Run(cfg, upto).unreachableSince[name] == upto[s].now;
    assert Run(cfg, upto).unreachableSince[name] == SinceOf(Run(cfg, passes[..p]), name, passes[p].now);
    assert upto[s] == passes[s];
  }

  lemma RecordedNow(cfg: Config, c: Clocks, pods: seq<Pod>, i: nat, now: Time)
    requires i < |pods| && DecisionAt(cfg, c, pods, i, now).delete
    ensures var last := Next(cfg, c, pods, now).lastDelete;
            pods[i].node in last && last[pods[i].node] == now
  {
    assert Armed(cfg) && Due(cfg, c, pods[i], now);
  }

  lemma RecordedKeeps(cfg: Config, c: Clocks, pods: seq<Pod>, now: Time, node: string, t: Time)
    requires node in c.lastDelete && c.lastDelete[node] >= t && now >= t
    ensures var last := Next(cfg, c, pods, now).lastDelete;
            node in last && last[node] >= t
  {
  }

  /** A record made by time q is not taken back. */
  lemma {:induction false} RecordStays(cfg: Config, passes: seq<Pass>, q: nat, node: string, t: Time)
    requires q <= |passes| && forall k :: q <= k < |passes| ==> passes[k].now >= t
    requires node in Run(cfg, passes[..q]).lastDelete && Run(cfg, passes[..q]).lastDelete[node] >= t
    ensures node in Run(cfg, passes).lastDelete && Run(cfg, passes).lastDelete[node] >= t
  {
    if q == |passes| {
      assert passes[..q] == passes;
    } else {
      var n := |passes| - 1;
      assert passes[..n][..q] == passes[..q];
      RecordStays(cfg, passes[..n], q, node, t);
      RecordedKeeps(cfg, Run(cfg, passes[..n]), passes[n].pods, passes[n].now, node, t);
    }
  }

  /** The node's deletion record never lies before a deletion on that node. */
  lemma RecordIsLatest(cfg: Config, passes: seq<Pass>, p: int, i: int)
    requires Forward(passes) && Deletes(cfg, passes, p, i)
    ensures var last := Run(cfg, passes).lastDelete;
            passes[p].pods[i].node in last && last[passes[p].pods[i].node] >= passes[p].now
  {
    RecordedNow(cfg, Run(cfg, passes[..p]), passes[p].pods, i, passes[p].now);
    assert passes[..p + 1][..p] == passes[..p];
    RecordStays(cfg, passes, p + 1, passes[p].pods[i].node, passes[p].now);
  }

  /** Over the whole run, and within one pass as well, two deletions on one node are at least the
      cooldown apart. */
  lemma DeletionsAreSpaced(cfg: Config, passes: seq<Pass>, p: int, i: int, q: int, j: int)
    requires Forward(passes)
    requires Deletes(cfg, passes, p, i) && Deletes(cfg, passes, q, j)
    requires p < q || (p == q && i < j)
    requires passes[p].pods[i].node == passes[q].pods[j].node
    ensures passes[q].now - passes[p].now >= cfg.cooldown
  {
    var node := passes[p].pods[i].node;
    if p < q {
      var upto := passes[..q];
      assert upto[..p] == passes[..p] && upto[p] == passes[p];
      assert forall a, b :: 0 <= a < b < |upto| ==> upto[a].now == passes[a].now && upto[b].now == passes[b].now;
      RecordIsLatest(cfg, upto, p, i);
      assert Due(cfg, Run(cfg, upto), passes[q].pods[j], passes[q].now);
    } else {
      var c := Run(cfg, passes[..p]);
      assert Due(cfg, c, passes[p].pods[i], passes[p].now);
      assert !NodeTaken(cfg, c, passes[p].pods, j, passes[p].now);
      assert node in DeletedUpTo(cfg, c, passes[p].pods, j, passes[p].now);
    }
  }

  // ---- When it deletes, exactly ------------------------------------------------------------------

  /** In an armed pass, the first pod of a node that is due is deleted. */
  lemma FirstDueIsDeleted(cfg: Config, c: Clocks, pods: seq<Pod>, i: nat, now: Time)
    requires i < |pods| && Armed(cfg) && Due(cfg, c, pods[i], now)
    requires forall j :: 0 <= j < i && pods[j].node == pods[i].node ==> !Due(cfg, c, pods[j], now)
    ensures DecisionAt(cfg, c, pods, i, now).delete
  {
    assert pods[i].node !in DeletedUpTo(cfg, c, pods, i, now);
  }

  /** If a pod of the node is due before position k, one of them is deleted. */
  lemma {:induction false} SomeIsDeleted(cfg: Config, c: Clocks, pods: seq<Pod>, k: nat, now: Time, node: string) returns (i: nat)
    requires k <= |pods| && node in DeletedUpTo(cfg, c, pods, k, now)
    ensures i < k && pods[i].node == node && DecisionAt(cfg, c, pods, i, now).delete
  {
    if node in DeletedUpTo(cfg, c, pods, k - 1, now) {
      i := SomeIsDeleted(cfg, c, pods, k - 1, now, node);
    } else {
      i := k - 1;
      FirstDueIsDeleted(cfg, c, pods, i, now);
    }
  }

  lemma DeletedWasDue(cfg: Config, c: Clocks, pods: seq<Pod>, i: nat, now: Time)
    requires i < |pods| && DecisionAt(cfg, c, pods, i, now).delete
    ensures forall k :: i < k <= |pods| ==> pods[i].node in DeletedUpTo(cfg, c, pods, k, now)
  {
  }

  /** A node's record is the time of a deletion on it. */
  lemma {:induction false} RecordIsDeletion(cfg: Config, passes: seq<Pass>, node: string) returns (q: nat, j: nat)
    requires node in Run(cfg, passes).lastDelete
    ensures Deletes(cfg, passes, q, j) && passes[q].pods[j].node == node
    ensures Run(cfg, passes).lastDelete[node] == passes[q].now
  {
    var n := |passes| - 1;
    var prior, c := passes[..n], Run(cfg, passes[..n]);
    if node in DeletedNodes(cfg, c, passes[n].pods, passes[n].now) {
      q := n;
      j := SomeIsDeleted(cfg, c, passes[n].pods, |passes[n].pods|, passes[n].now, node);
    } else {
      q, j := RecordIsDeletion(cfg, prior, node);
      assert prior[..q] == passes[..q];
    }
  }

  /** The deletion of pod j in pass q comes before pod i in pass p, on the same node, and less than
      the cooldown before it. */
  ghost predicate CoolsBy(cfg: Config, passes: seq<Pass>, p: int, i: int, q: int, j: int)
    requires 0 <= p < |passes| && 0 <= i < |passes[p].pods|
  {
    && Deletes(cfg, passes, q, j) && (q < p || (q == p && j < i))
    && passes[q].pods[j].node == passes[p].pods[i].node
    && passes[p].now - passes[q].now < cfg.cooldown
  }

  ghost predicate Cooling(cfg: Config, passes: seq<Pass>, p: int, i: int)
    requires 0 <= p < |passes| && 0 <= i < |passes[p].pods|
  {
    exists q, j :: CoolsBy(cfg, passes, p, i, q, j)
  }

  lemma CoolingMeans(cfg: Config, passes: seq<Pass>, p: int, i: int, q: int, j: int)
    requires Forward(passes) && 0 <= p < |passes| && 0 <= i < |passes[p].pods| && CoolsBy(cfg, passes, p, i, q, j)
    ensures var c := Run(cfg, passes[..p]);
            RecentlyDeleted(cfg, c, passes[p].pods[i].node, passes[p].now) || NodeTaken(cfg, c, passes[p].pods, i, passes[p].now)
  {
    if q < p {
      var upto := passes[..p];
      assert upto[..q] == passes[..q] && upto[q] == passes[q];
      assert forall a, b :: 0 <= a < b < |upto| ==> upto[a].now == passes[a].now && upto[b].now == passes[b].now;
      RecordIsLatest(cfg, upto, q, j);
    } else {
      DeletedWasDue(cfg, Run(cfg, passes[..p]), passes[p].pods, j, passes[p].now);
    }
  }

  /** What the cooldown test and the walk over the list remember is exactly the deletions before. */
  lemma CoolingIff(cfg: Config, passes: seq<Pass>, p: int, i: int)
    requires Forward(passes) && 0 <= p < |passes| && 0 <= i < |passes[p].pods|
    ensures var c := Run(cfg, passes[..p]);
            Cooling(cfg, passes, p, i) <==>
            RecentlyDeleted(cfg, c, passes[p].pods[i].node, passes[p].now) || NodeTaken(cfg, c, passes[p].pods, i, passes[p].now)
  {
    var c, node := Run(cfg, passes[..p]), passes[p].pods[i].node;
    if RecentlyDeleted(cfg, c, node, passes[p].now) {
      var q, j := RecordIsDeletion(cfg, passes[..p], node);
      assert passes[..p][..q] == passes[..q];
      assert CoolsBy(cfg, passes, p, i, q, j);
    } else if NodeTaken(cfg, c, passes[p].pods, i, passes[p].now) {
      var j := SomeIsDeleted(cfg, c, passes[p].pods, i, passes[p].now, node);
      assert CoolsBy(cfg, passes, p, i, p, j);
    }
    forall q, j | CoolsBy(cfg, passes, p, i, q, j)
      ensures RecentlyDeleted(cfg, c, node, passes[p].now) || NodeTaken(cfg, c, passes[p].pods, i, passes[p].now)
    {
      CoolingMeans(cfg, passes, p, i, q, j);
    }
  }

  /** The pod has been silent in an unbroken run of passes that began at least the grace period ago. */
  ghost predicate HeldOut(cfg: Config, passes: seq<Pass>, p: int, name: string)
    requires 0 <= p < |passes|
  {
    exists s :: UnreachableSince(passes[..p + 1], name, s) && passes[p].now - passes[s].now >= cfg.grace
  }

  lemma StartIsUnique(passes: seq<Pass>, name: string, s: int, r: int)
    requires UnreachableSince(passes, name, s) && UnreachableSince(passes, name, r)
    ensures s == r
  {
  }

  /** For a pod that fails, the clock the walk uses is old enough exactly when the pod held out. */
  lemma HeldOutIff(cfg: Config, passes: seq<Pass>, p: int, i: int)
    requires 0 <= p < |passes| && 0 <= i < |passes[p].pods| && Silent(passes[p].pods[i])
    ensures var name := passes[p].pods[i].name;
            HeldOut(cfg, passes, p, name) <==>
            passes[p].now - SinceOf(Run(cfg, passes[..p]), name, passes[p].now) >= cfg.grace
  {
    var name, upto := passes[p].pods[i].name, passes[..p + 1];
    assert upto[..p] == passes[..p] && upto[p] == passes[p];
    assert FailedIn(upto[p], name);
    ClockMeaning(cfg, upto, name);
    var s :| UnreachableSince(upto, name, s) && Run(cfg, upto).unreachableSince[name] == upto[s].now;
    assert Run(cfg, upto).unreachableSince[name] == SinceOf(Run(cfg, passes[..p]), name, passes[p].now);
    assert upto[s] == passes[s];
    forall r | UnreachableSince(upto, name, r)
      ensures r == s
    {
      StartIsUnique(upto, name, s, r);
    }
  }

  /** Every reason, exactly, over any run: by the pod's fields, its unbroken run of silence, the
      deletions on its node so far, and the configuration. */
  lemma ReasonIff(cfg: Config, passes: seq<Pass>, p: int, i: int)
    requires Forward(passes) && 0 <= p < |passes| && 0 <= i < |passes[p].pods|
    ensures var pod := passes[p].pods[i];
            var r := DecisionAt(cfg, Run(cfg, passes[..p]), passes[p].pods, i, passes[p].now).reason;
            var held := Silent(pod) && HeldOut(cfg, passes, p, pod.name);
            var cooling := Cooling(cfg, passes, p, i);
            && (r == NotRunning <==> pod.phase != "Running")
            && (r == NoPodIP <==> pod.phase == "Running" && pod.ip == "")
            && (r == Reachable <==> pod.phase == "Running" && pod.ip != "" && pod.answers)
            && (r == WithinGrace <==> Silent(pod) && !HeldOut(cfg, passes, p, pod.name))
            && (r == Cooldown <==> held && cooling)
            && (r == Disabled <==> held && !cooling && !cfg.enabled)
            && (r == WouldDelete <==> held && !cooling && cfg.enabled && cfg.mode != "enforce")
            && (r == Deleting <==> held && !cooling && cfg.enabled && cfg.mode == "enforce")
  {
    CoolingIff(cfg, passes, p, i);
    if Silent(passes[p].pods[i]) {
      HeldOutIff(cfg, passes, p, i);
    }
  }

  /** The supervisor deletes exactly when it may: supervision on, enforce mode, the pod silent in every
      pass of an unbroken run as long as the grace period, and no deletion on its node, in an earlier
      pass or earlier in this list, less than the cooldown ago. */
  lemma DeleteIff(cfg: Config, passes: seq<Pass>, p: int, i: int)
    requires Forward(passes) && 0 <= p < |passes| && 0 <= i < |passes[p].pods| && UniqueNames(passes[p].pods)
    ensures Deletes(cfg, passes, p, i) <==>
            && cfg.enabled && cfg.mode == "enforce"
            && (exists s :: UnreachableSince(passes[..p + 1], passes[p].pods[i].name, s)
                            && passes[p].now - passes[s].now >= cfg.grace)
            && !exists q, j :: CoolsBy(cfg, passes, p, i, q, j)
  {
    ReasonIff(cfg, passes, p, i);
    var name := passes[p].pods[i].name;
    if s :| UnreachableSince(passes[..p + 1], name, s) && passes[p].now - passes[s].now >= cfg.grace {
      assert FailedIn(passes[..p + 1][p], name);
    }
  }

  /** A decision about a silent pod says since when it has been silent. */
  lemma DecisionSays(cfg: Config, passes: seq<Pass>, p: int, i: int)
    requires 0 <= p < |passes| && 0 <= i < |passes[p].pods|
    ensures var d := DecisionAt(cfg, Run(cfg, passes[..p]), passes[p].pods, i, passes[p].now);
            && d.pod == passes[p].pods[i].name && d.node == passes[p].pods[i].node
            && (d.since.Some? <==> Silent(passes[p].pods[i]))
            && (d.since.Some? ==>
                  exists s :: UnreachableSince(passes[..p + 1], d.pod, s) && d.since == Some(passes[s].now))
  {
    if Silent(passes[p].pods[i]) {
      var name, upto := passes[p].pods[i].name, passes[..p + 1];
      assert upto[..p] == passes[..p] && upto[p] == passes[p];
      assert FailedIn(upto[p], name);
      ClockMeaning(cfg, upto, name);
      var s :| UnreachableSince(upto, name, s) && Run(cfg, upto).unreachableSince[name] == upto[s].now;
      assert upto[s] == passes[s];
      assert Run(cfg, upto).unreachableSince[name] == SinceOf(Run(cfg, passes[..p]), name, passes[p].now);
    }
  }
}
