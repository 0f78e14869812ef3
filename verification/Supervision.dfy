/**
 The exporter supervisor: a clock per unreachable pod and a deletion cooldown per node, both
 updated while one list of pods is walked.
 */
module Supervision {
  import opened Wrappers
  import opened Clock
  import opened Streaks

  /** A pod as listed, with the answer its scrape gives in this pass. */
  datatype Pod = Pod(name: string, node: string, phase: string, ip: string, answers: bool)

  datatype Config = Config(grace: Time, cooldown: Time, enabled: bool, mode: string)

  datatype Reason =
    | NotRunning
    | NoPodIP
    | Reachable
    | WithinGrace
    | Cooldown
    | Disabled
    | WouldDelete
    | Deleting

  datatype PodDecision = PodDecision(pod: string, node: string, delete: bool, reason: Reason, since: Option<Time>)

  predicate Failed(pod: Pod) {
    pod.phase == "Running" && pod.ip != "" && !pod.answers
  }

  function NamesUpTo(pods: seq<Pod>, k: nat): set<string>
    requires k <= |pods|
  {
    set i | 0 <= i < k :: pods[i].name
  }

  function FailedUpTo(pods: seq<Pod>, k: nat): set<string>
    requires k <= |pods|
  {
    set i | 0 <= i < k && Failed(pods[i]) :: pods[i].name
  }

  function FailedNames(pods: seq<Pod>): set<string> {
    FailedUpTo(pods, |pods|)
  }

  /** Pods of one namespace have different names. */
  ghost predicate UniqueNames(pods: seq<Pod>) {
    forall i, j :: 0 <= i < j < |pods| ==> pods[i].name != pods[j].name
  }

  datatype Clocks = Clocks(unreachableSince: map<string, Time>, lastDelete: map<string, Time>)

  function SinceOf(c: Clocks, name: string, now: Time): Time {
    if name in c.unreachableSince then c.unreachableSince[name] else now
  }

  predicate RecentlyDeleted(cfg: Config, c: Clocks, node: string, now: Time) {
    node in c.lastDelete && now - c.lastDelete[node] < cfg.cooldown
  }

  /** Unreachable for the whole grace period on a node without a recent deletion. */
  predicate Due(cfg: Config, c: Clocks, pod: Pod, now: Time) {
    && Failed(pod)
    && now - SinceOf(c, pod.name, now) >= cfg.grace
    && !RecentlyDeleted(cfg, c, pod.node, now)
  }

  predicate Armed(cfg: Config) {
    cfg.enabled && cfg.mode == "enforce"
  }

  /** An earlier pod of the list already used up this node's deletion. */
  predicate NodeTaken(cfg: Config, c: Clocks, pods: seq<Pod>, i: nat, now: Time)
    requires i < |pods|
  {
    cfg.cooldown > 0.0 && pods[i].node in DeletedUpTo(cfg, c, pods, i, now)
  }

  /** The nodes of the first k pods of which one is due, if deleting is allowed at all. */
  function DeletedUpTo(cfg: Config, c: Clocks, pods: seq<Pod>, k: nat, now: Time): set<string>
    requires k <= |pods|
  {
    set i | 0 <= i < k && Armed(cfg) && Due(cfg, c, pods[i], now) :: pods[i].node
  }

  function ReasonAt(cfg: Config, c: Clocks, pods: seq<Pod>, i: nat, now: Time): Reason
    requires i < |pods|
  {
    var pod := pods[i];
    if pod.phase != "Running" then NotRunning
    else if pod.ip == "" then NoPodIP
    else if pod.answers then Reachable
    else if now - SinceOf(c, pod.name, now) < cfg.grace then WithinGrace
    else if !Due(cfg, c, pod, now) || NodeTaken(cfg, c, pods, i, now) then Cooldown
    else if !cfg.enabled then Disabled
    else if cfg.mode != "enforce" then WouldDelete
    else Deleting
  }

  function DecisionAt(cfg: Config, c: Clocks, pods: seq<Pod>, i: nat, now: Time): PodDecision
    requires i < |pods|
  {
    var reason := ReasonAt(cfg, c, pods, i, now);
    PodDecision(pods[i].name, pods[i].node, reason == Deleting, reason,
                if Failed(pods[i]) then Some(SinceOf(c, pods[i].name, now)) else None)
  }

  function DecisionsOf(cfg: Config, c: Clocks, pods: seq<Pod>, now: Time): (ds: seq<PodDecision>)
    ensures |ds| == |pods| && forall i :: 0 <= i < |pods| ==> ds[i] == DecisionAt(cfg, c, pods, i, now)
  {
    seq(|pods|, i requires 0 <= i < |pods| => DecisionAt(cfg, c, pods, i, now))
  }

  /** The nodes that lose a pod in this pass. */
  function DeletedNodes(cfg: Config, c: Clocks, pods: seq<Pod>, now: Time): set<string> {
    DeletedUpTo(cfg, c, pods, |pods|, now)
  }

  function Next(cfg: Config, c: Clocks, pods: seq<Pod>, now: Time): Clocks {
    var deleted := DeletedNodes(cfg, c, pods, now);
    Clocks(
      Advance(c.unreachableSince, FailedNames(pods), now),
      map node | node in c.lastDelete.Keys + deleted :: if node in deleted then now else c.lastDelete[node])
  }

  class ExporterSupervisor {
    const cfg: Config
    var unreachableSince: map<string, Time>
    var lastDelete: map<string, Time>

    constructor (cfg: Config)
      ensures this.cfg == cfg && unreachableSince == map[] && lastDelete == map[]
    {
      this.cfg, unreachableSince, lastDelete := cfg, map[], map[];
    }

    method Evaluate(pods: seq<Pod>, now: Time) returns (decisions: seq<PodDecision>)
      requires UniqueNames(pods)
      modifies this
      ensures Clocks(unreachableSince, lastDelete) == Next(cfg, Clocks(old(unreachableSince), old(lastDelete)), pods, now)
      ensures decisions == DecisionsOf(cfg, Clocks(old(unreachableSince), old(lastDelete)), pods, now)
    {
      ghost var c := Clocks(unreachableSince, lastDelete);
      ghost var spec := DecisionsOf(cfg, c, pods, now);
      decisions := [];
      var live: set<string> := {};
      for k := 0 to |pods|
        invariant decisions == spec[..k]
        invariant live == NamesUpTo(pods, k)
        invariant WalkedClocks(c.unreachableSince, pods, k, now, unreachableSince)
        invariant WalkedDeletes(cfg, c, pods, k, now, lastDelete)
      {
        var pod := pods[k];
        live := live + {pod.name};
        assert spec[..k + 1] == spec[..k] + [spec[k]];
        PodStep(cfg, c, pods, k, now, unreachableSince, lastDelete);
        if pod.phase != "Running" {
          unreachableSince := unreachableSince - {pod.name};
          decisions := decisions + [PodDecision(pod.name, pod.node, false, NotRunning, None)];
          continue;
        }
        if pod.ip == "" {
          unreachableSince := unreachableSince - {pod.name};
          decisions := decisions + [PodDecision(pod.name, pod.node, false, NoPodIP, None)];
          continue;
        }
        if pod.answers {
          unreachableSince := unreachableSince - {pod.name};
          decisions := decisions + [PodDecision(pod.name, pod.node, false, Reachable, None)];
          continue;
        }
        if pod.name !in unreachableSince {
          unreachableSince := unreachableSince[pod.name := now];
        }
        var since := unreachableSince[pod.name];
        if now - since < cfg.grace {
          decisions := decisions + [PodDecision(pod.name, pod.node, false, WithinGrace, Some(since))];
          continue;
        }
        if pod.node in lastDelete && now - lastDelete[pod.node] < cfg.cooldown {
          decisions := decisions + [PodDecision(pod.name, pod.node, false, Cooldown, Some(since))];
          continue;
        }
        if !cfg.enabled {
          decisions := decisions + [PodDecision(pod.name, pod.node, false, Disabled, Some(since))];
          continue;
        }
        if cfg.mode != "enforce" {
          decisions := decisions + [PodDecision(pod.name, pod.node, false, WouldDelete, Some(since))];
          continue;
        }
        lastDelete := lastDelete[pod.node := now];
        decisions := decisions + [PodDecision(pod.name, pod.node, true, Deleting, Some(since))];
      }
      WalkedAll(cfg, c, pods, now, unreachableSince, lastDelete, live);
      var gone := unreachableSince.Keys - live;
      unreachableSince := unreachableSince - gone;
      assert spec[..|pods|] == spec;
    }
  }

  /** The unreachable clocks after the first k pods of the list. */
  ghost predicate WalkedClocks(since: map<string, Time>, pods: seq<Pod>, k: nat, now: Time, since': map<string, Time>)
    requires k <= |pods|
  {
    forall n ::
      && (n in since' <==> n in FailedUpTo(pods, k) || (n !in NamesUpTo(pods, k) && n in since))
      && (n in since' ==> since'[n] == if n in since then since[n] else now)
  }

  ghost predicate WalkedDeletes(cfg: Config, c: Clocks, pods: seq<Pod>, k: nat, now: Time, last: map<string, Time>)
    requires k <= |pods|
  {
    forall node ::
      && (node in last <==> node in c.lastDelete || node in DeletedUpTo(cfg, c, pods, k, now))
      && (node in last ==>
            last[node] == if node in DeletedUpTo(cfg, c, pods, k, now) then now else c.lastDelete[node])
  }

  lemma UpToStep(cfg: Config, c: Clocks, pods: seq<Pod>, k: nat, now: Time)
    requires k < |pods|
    ensures NamesUpTo(pods, k + 1) == NamesUpTo(pods, k) + {pods[k].name}
    ensures FailedUpTo(pods, k + 1) == FailedUpTo(pods, k) + if Failed(pods[k]) then {pods[k].name} else {}
    ensures DeletedUpTo(cfg, c, pods, k + 1, now) ==
            DeletedUpTo(cfg, c, pods, k, now) + if Armed(cfg) && Due(cfg, c, pods[k], now) then {pods[k].node} else {}
    ensures FailedUpTo(pods, k) <= NamesUpTo(pods, k)
    ensures UniqueNames(pods) ==> pods[k].name !in NamesUpTo(pods, k)
  {
  }

  lemma ClocksStep(since: map<string, Time>, pods: seq<Pod>, k: nat, now: Time, s: map<string, Time>)
    requires k < |pods| && pods[k].name !in NamesUpTo(pods, k)
    requires FailedUpTo(pods, k) <= NamesUpTo(pods, k)
    requires NamesUpTo(pods, k + 1) == NamesUpTo(pods, k) + {pods[k].name}
    requires FailedUpTo(pods, k + 1) == FailedUpTo(pods, k) + if Failed(pods[k]) then {pods[k].name} else {}
    requires WalkedClocks(since, pods, k, now, s)
    ensures var name := pods[k].name;
            && (name in s <==> name in since)
            && (name in s ==> s[name] == since[name])
            && WalkedClocks(since, pods, k + 1, now,
                 if !Failed(pods[k]) then s - {name} else if name in s then s else s[name := now])
  {
  }

  lemma DeletesStep(cfg: Config, c: Clocks, pods: seq<Pod>, k: nat, now: Time, last: map<string, Time>)
    requires k < |pods|
    requires WalkedDeletes(cfg, c, pods, k, now, last)
    ensures var node := pods[k].node;
            && (node in last && now - last[node] < cfg.cooldown <==>
                  RecentlyDeleted(cfg, c, node, now) || NodeTaken(cfg, c, pods, k, now))
            && WalkedDeletes(cfg, c, pods, k + 1, now,
                 if Armed(cfg) && Due(cfg, c, pods[k], now) then last[node := now] else last)
  {
    UpToStep(cfg, c, pods, k, now);
    var node := pods[k].node;
    if node in DeletedUpTo(cfg, c, pods, k, now) {
      var j :| 0 <= j < k && Armed(cfg) && Due(cfg, c, pods[j], now) && pods[j].node == node;
    }
  }

  /** All that the walk needs to know about one pod. */
  lemma PodStep(cfg: Config, c: Clocks, pods: seq<Pod>, k: nat, now: Time, s: map<string, Time>, last: map<string, Time>)
    requires UniqueNames(pods) && k < |pods|
    requires WalkedClocks(c.unreachableSince, pods, k, now, s) && WalkedDeletes(cfg, c, pods, k, now, last)
    ensures NamesUpTo(pods, k + 1) == NamesUpTo(pods, k) + {pods[k].name}
    ensures !Failed(pods[k]) ==> WalkedClocks(c.unreachableSince, pods, k + 1, now, s - {pods[k].name})
    ensures Failed(pods[k]) ==>
      && (pods[k].name in s ==> WalkedClocks(c.unreachableSince, pods, k + 1, now, s)
                                && s[pods[k].name] == SinceOf(c, pods[k].name, now))
      && (pods[k].name !in s ==> WalkedClocks(c.unreachableSince, pods, k + 1, now, s[pods[k].name := now])
                                 && SinceOf(c, pods[k].name, now) == now)
    ensures pods[k].node in last && now - last[pods[k].node] < cfg.cooldown <==>
            RecentlyDeleted(cfg, c, pods[k].node, now) || NodeTaken(cfg, c, pods, k, now)
    ensures Armed(cfg) && Due(cfg, c, pods[k], now) ==> WalkedDeletes(cfg, c, pods, k + 1, now, last[pods[k].node := now])
    ensures !(Armed(cfg) && Due(cfg, c, pods[k], now)) ==> WalkedDeletes(cfg, c, pods, k + 1, now, last)
  {
    UpToStep(cfg, c, pods, k, now);
    ClocksStep(c.unreachableSince, pods, k, now, s);
    DeletesStep(cfg, c, pods, k, now, last);
  }

  lemma WalkedAll(cfg: Config, c: Clocks, pods: seq<Pod>, now: Time,
                  since: map<string, Time>, last: map<string, Time>, live: set<string>)
    requires WalkedClocks(c.unreachableSince, pods, |pods|, now, since)
    requires WalkedDeletes(cfg, c, pods, |pods|, now, last)
    requires live == NamesUpTo(pods, |pods|)
    ensures Clocks(since - (since.Keys - live), last) == Next(cfg, c, pods, now)
  {
    assert FailedNames(pods) <= live;
    var s' := since - (since.Keys - live);
    assert s' == Advance(c.unreachableSince, FailedNames(pods), now);
    assert last == Next(cfg, c, pods, now).lastDelete;
  }
}
