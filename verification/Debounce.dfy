/**
 The dwell time across two programs. The agent stamps a condition when its status flips; the
 guard trusts the age of that stamp. Joined over a whole history of publishes, failed patches
 and agent restarts: a cordon means the condition really was True all along.
 */
module Debounce {
  import opened Wrappers
  import opened Clock
  import opened Policy
  import opened PolicyProperties
  import opened Publishing

  /** `landed` says whether the API server took the patch. A restart empties the publisher. */
  datatype Event = Restart | Publish(now: Time, detail: map<CondType, bool>, landed: bool)

  datatype World = World(status: map<CondType, bool>, transitions: map<CondType, int>, node: seq<Condition>)

  /** The publisher's maps after one publish; `ConditionPublisher.Publish` meets the same two
      relations, and `NextMapsFit` shows that they leave no choice. */
  function NextStatus(status: map<CondType, bool>, detail: map<CondType, bool>): map<CondType, bool> {
    map t | t in status.Keys + detail.Keys && (t in status || Carried(ALL_TYPES, detail, t)) ::
      if Carried(ALL_TYPES, detail, t) then detail[t] else status[t]
  }

  function NextTransitions(
    status: map<CondType, bool>, transitions: map<CondType, int>, now: Time, detail: map<CondType, bool>)
    : map<CondType, int>
  {
    map t | t in transitions.Keys + detail.Keys && (t in transitions || Flips(ALL_TYPES, status, detail, t)) ::
      if Flips(ALL_TYPES, status, detail, t) then Stamp(now) else transitions[t]
  }

  lemma NextMapsFit(
    status: map<CondType, bool>, transitions: map<CondType, int>, now: Time, detail: map<CondType, bool>,
    status': map<CondType, bool>, transitions': map<CondType, int>)
    ensures StatusAfter(ALL_TYPES, status, detail, status') <==> status' == NextStatus(status, detail)
    ensures TransitionsAfter(ALL_TYPES, status, transitions, now, detail, transitions') <==>
            transitions' == NextTransitions(status, transitions, now, detail)
  {
    if StatusAfter(ALL_TYPES, status, detail, status') {
      assert status' == NextStatus(status, detail);
    }
    if TransitionsAfter(ALL_TYPES, status, transitions, now, detail, transitions') {
      assert transitions' == NextTransitions(status, transitions, now, detail);
    }
  }

  ghost predicate Consistent(w: World) {
    forall t :: t in w.status <==> t in w.transitions
  }

  ghost function Step(w: World, e: Event): (w': World)
    requires Consistent(w)
    ensures Consistent(w')
  {
    match e
    case Restart => World(map[], map[], w.node)
    case Publish(now, detail, landed) =>
      var transitions := NextTransitions(w.status, w.transitions, now, detail);
      AllTypesListed();
      World(
        NextStatus(w.status, detail),
        transitions,
        if landed then Merge(w.node, Rendered(ALL_CONDITIONS, detail, transitions)) else w.node)
  }

  ghost function Run(node: seq<Condition>, history: seq<Event>): (w: World)
    ensures Consistent(w)
  {
    if history == [] then World(map[], map[], node)
    else Step(Run(node, history[..|history| - 1]), history[|history| - 1])
  }

  ghost predicate Carries(e: Event, t: CondType) {
    e.Publish? && Carried(ALL_TYPES, e.detail, t)
  }

  ghost predicate Forward(history: seq<Event>) {
    forall i, j :: 0 <= i < j < |history| && history[i].Publish? && history[j].Publish? ==> history[i].now <= history[j].now
  }

  /** k is the first publish of the status that t has had ever since, without a restart. */
  ghost predicate RunStart(history: seq<Event>, t: CondType, k: int) {
    && 0 <= k < |history| && Carries(history[k], t)
    && (forall j :: k <= j < |history| ==> !history[j].Restart?)
    && (forall j :: k <= j < |history| && Carries(history[j], t) ==> history[j].detail[t] == history[k].detail[t])
    && (forall j :: 0 <= j < k && Carries(history[j], t) && history[j].detail[t] == history[k].detail[t] ==>
          Broken(history, t, history[k].detail[t], j, k))
  }

  /** Between j and k the agent restarted or published the other status. */
  ghost predicate Broken(history: seq<Event>, t: CondType, status: bool, j: nat, k: nat)
    requires k <= |history|
  {
    exists m :: j < m < k && (history[m].Restart? || (Carries(history[m], t) && history[m].detail[t] != status))
  }

  ghost predicate Silent(history: seq<Event>, t: CondType) {
    forall j :: 0 <= j < |history| && Carries(history[j], t) ==> exists m :: j < m < |history| && history[m].Restart?
  }

  /** What one event does to condition t in the publisher's memory. */
  ghost predicate StepAt(w: World, e: Event, w': World, t: CondType) {
    match e
    case Restart => t !in w'.status && t !in w'.transitions
    case Publish(now, detail, _) =>
      if !Carries(e, t) then
        && (t in w'.status <==> t in w.status)
        && (t in w.status && t in w.transitions ==>
              t in w'.transitions && w'.status[t] == w.status[t] && w'.transitions[t] == w.transitions[t])
      else
        && t in w'.status && t in w'.transitions && w'.status[t] == detail[t]
        && (t in w.status && t in w.transitions && w.status[t] == detail[t] ==> w'.transitions[t] == w.transitions[t])
        && (!(t in w.status && w.status[t] == detail[t]) ==> w'.transitions[t] == Stamp(now))
  }

  lemma StepIsStepAt(w: World, e: Event, t: CondType)
    requires Consistent(w)
    ensures StepAt(w, e, Step(w, e), t)
  {
  }

  ghost predicate Explained(w: World, history: seq<Event>, t: CondType) {
    && (t !in w.status ==> Silent(history, t))
    && (t in w.status ==>
          && t in w.transitions
          && exists k :: RunStart(history, t, k) && w.transitions[t] == Stamp(history[k].now)
                         && w.status[t] == history[k].detail[t])
  }

  /** Every transition stamp in the publisher's memory is the stamp of the first publish of the
      current unbroken run of that status. */
  lemma {:induction false} TransitionIsRunStart(node: seq<Condition>, history: seq<Event>, t: CondType)
    ensures Explained(Run(node, history), history, t)
  {
    if history != [] {
      var prior, e := history[..|history| - 1], history[|history| - 1];
      TransitionIsRunStart(node, prior, t);
      StepIsStepAt(Run(node, prior), e, t);
      assert prior + [e] == history;
      ExplainedStep(Run(node, prior), prior, e, Run(node, history), t);
    }
  }

  lemma ExplainedStep(w: World, prior: seq<Event>, e: Event, w': World, t: CondType)
    requires Explained(w, prior, t) && StepAt(w, e, w', t)
    ensures Explained(w', prior + [e], t)
  {
    var history, n := prior + [e], |prior|;
    if e.Restart? {
      assert forall j :: 0 <= j < |history| && Carries(history[j], t) ==> j < n && history[n].Restart?;
    } else if t !in w.status {
      if Carries(e, t) {
        SilenceStartsRun(prior, e, t);
        assert RunStart(history, t, n);
      } else {
        SilentExtends(prior, e, t);
      }
    } else {
      var k :| RunStart(prior, t, k) && w.transitions[t] == Stamp(prior[k].now) && w.status[t] == prior[k].detail[t];
      if Carries(e, t) && e.detail[t] != w.status[t] {
        FlipStartsRun(prior, e, t, k);
        assert RunStart(history, t, n);
      } else {
        RunStartExtends(prior, e, t, k);
        assert history[k] == prior[k];
      }
    }
  }

  lemma RunStartExtends(prior: seq<Event>, e: Event, t: CondType, k: nat)
    requires RunStart(prior, t, k) && e.Publish?
    requires Carries(e, t) ==> e.detail[t] == prior[k].detail[t]
    ensures RunStart(prior + [e], t, k)
  {
    var history := prior + [e];
    forall j | 0 <= j < k && Carries(history[j], t) && history[j].detail[t] == history[k].detail[t]
      ensures Broken(history, t, history[k].detail[t], j, k)
    {
      assert Broken(prior, t, prior[k].detail[t], j, k);
      var m :| j < m < k && (prior[m].Restart? || (Carries(prior[m], t) && prior[m].detail[t] != prior[k].detail[t]));
      assert history[m] == prior[m];
    }
  }

  lemma SilentExtends(prior: seq<Event>, e: Event, t: CondType)
    requires Silent(prior, t) && !Carries(e, t)
    ensures Silent(prior + [e], t)
  {
    var history := prior + [e];
    forall j | 0 <= j < |history| && Carries(history[j], t)
      ensures exists m :: j < m < |history| && history[m].Restart?
    {
      assert prior[j] == history[j];
      var m :| j < m < |prior| && prior[m].Restart?;
      assert history[m].Restart?;
    }
  }

  lemma FlipStartsRun(prior: seq<Event>, e: Event, t: CondType, k: nat)
    requires RunStart(prior, t, k) && Carries(e, t) && e.detail[t] != prior[k].detail[t]
    ensures RunStart(prior + [e], t, |prior|)
  {
    var history, n := prior + [e], |prior|;
    forall j | 0 <= j < n && Carries(history[j], t) && history[j].detail[t] == e.detail[t]
      ensures Broken(history, t, e.detail[t], j, n)
    {
      assert history[j] == prior[j] && history[k] == prior[k];
      assert j < k;
    }
  }

  lemma SilenceStartsRun(prior: seq<Event>, e: Event, t: CondType)
    requires Silent(prior, t) && Carries(e, t)
    ensures RunStart(prior + [e], t, |prior|)
  {
    var history, n := prior + [e], |prior|;
    forall j | 0 <= j < n && Carries(history[j], t) && history[j].detail[t] == e.detail[t]
      ensures Broken(history, t, e.detail[t], j, n)
    {
      assert history[j] == prior[j];
      var m :| j < m < |prior| && prior[m].Restart?;
      assert history[m].Restart?;
    }
  }

  // ---- What the node object shows --------------------------------------------------------

  /** The last publish that carried t and was accepted. */
  ghost function LastLanded(history: seq<Event>, t: CondType): (p: Option<nat>)
    ensures p.Some? ==>
      p.value < |history| && Carries(history[p.value], t) && history[p.value].landed
  {
    if history == [] then None
    else
      var n := |history| - 1;
      if Carries(history[n], t) && history[n].landed then Some(n) else LastLanded(history[..n], t)
  }

  lemma {:induction false} NoneLandedLater(history: seq<Event>, t: CondType, j: nat)
    requires j < |history| && Carries(history[j], t) && history[j].landed
    ensures LastLanded(history, t).Some? && j <= LastLanded(history, t).value
  {
    var n := |history| - 1;
    if j < n && !(Carries(history[n], t) && history[n].landed) {
      NoneLandedLater(history[..n], t, j);
    }
  }

  lemma AllTypesListed()
    ensures forall t :: t in ALL_TYPES <==> t in ALL_CONDITIONS
  {
    assert ALL_CONDITIONS[0] == GPUUnrecoverable && ALL_CONDITIONS[1] == GPUWorkqueueStalled;
    assert ALL_CONDITIONS[2] == GPUEngineTimeout && ALL_CONDITIONS[3] == GPUProbeFailed;
    assert ALL_CONDITIONS[4] == GPUHealthDataStale;
  }

  ghost predicate Shows(index: map<CondType, Condition>, types: seq<CondType>, detail: map<CondType, bool>,
                        transitions: map<CondType, int>, t: CondType)
    requires forall u :: u in types && u in detail ==> u in transitions
  {
    && (t in index <==> t in types && t in detail)
    && (t in index ==> index[t] == Condition(t, StatusText(detail[t]), Some(transitions[t])))
  }

  lemma IndexOfAppended(r: seq<Condition>, c: Condition)
    requires c.ctype != Untyped
    ensures ConditionIndex(r + [c]) == ConditionIndex(r)[c.ctype := c]
  {
    assert (r + [c])[..|r|] == r;
  }

  /** One more condition is rendered, or left out. */
  lemma ShowsMore(r: seq<Condition>, types: seq<CondType>, u: CondType, detail: map<CondType, bool>,
                  transitions: map<CondType, int>, t: CondType)
    requires forall v :: v in types + [u] && v in detail ==> v in transitions
    requires forall v :: v in types && v in detail ==> v in transitions
    requires Shows(ConditionIndex(r), types, detail, transitions, t) && u != Untyped
    ensures u in detail ==>
      u in transitions &&
      Shows(ConditionIndex(r + [Condition(u, StatusText(detail[u]), Some(transitions[u]))]), types + [u], detail, transitions, t)
    ensures u !in detail ==> Shows(ConditionIndex(r), types + [u], detail, transitions, t)
  {
    assert u in types + [u];
    if u in detail {
      IndexOfAppended(r, Condition(u, StatusText(detail[u]), Some(transitions[u])));
    }
  }

  lemma {:induction false} RenderedIndex(types: seq<CondType>, detail: map<CondType, bool>, transitions: map<CondType, int>, t: CondType)
    requires forall u :: u in types && u in detail ==> u in transitions
    requires Untyped !in types
    ensures Shows(ConditionIndex(Rendered(types, detail, transitions)), types, detail, transitions, t)
  {
    if types != [] {
      var init, u := types[..|types| - 1], types[|types| - 1];
      assert types == init + [u];
      RenderedIndex(init, detail, transitions, t);
      var r := Rendered(init, detail, transitions);
      ShowsMore(r, init, u, detail, transitions, t);
      assert r + [] == r;
    }
  }

  lemma {:induction false} RenderedIsTyped(types: seq<CondType>, detail: map<CondType, bool>, transitions: map<CondType, int>)
    requires forall u :: u in types && u in detail ==> u in transitions
    requires Untyped !in types
    ensures forall i :: 0 <= i < |Rendered(types, detail, transitions)| ==> Rendered(types, detail, transitions)[i].ctype != Untyped
  {
    if types != [] {
      RenderedIsTyped(types[..|types| - 1], detail, transitions);
    }
  }

  ghost predicate ShownBy(index: map<CondType, Condition>, first: map<CondType, Condition>, w: World,
                          history: seq<Event>, t: CondType, p: Option<nat>)
    requires p.Some? ==> p.value < |history| && Carries(history[p.value], t)
  {
    match p
    case Some(p) =>
      && t in index && t in w.transitions && t in w.status
      && w.status[t] == history[p].detail[t]
      && index[t] == Condition(t, if history[p].detail[t] then "True" else "False", Some(w.transitions[t]))
    case None =>
      && (t in index <==> t in first)
      && (t in index ==> index[t] == first[t])
  }

  /** The history up to and including the last publish that carried t and was accepted. */
  ghost function UpToLanded(history: seq<Event>, t: CondType): seq<Event> {
    match LastLanded(history, t)
    case Some(p) => history[..p + 1]
    case None => []
  }

  lemma LastLandedStep(prior: seq<Event>, e: Event, t: CondType)
    ensures LastLanded(prior + [e], t) == if Carries(e, t) && e.landed then Some(|prior|) else LastLanded(prior, t)
  {
    var history := prior + [e];
    assert history[|prior|] == e && history[..|prior|] == prior;
  }

  lemma UpToLandedStep(prior: seq<Event>, e: Event, t: CondType)
    ensures UpToLanded(prior + [e], t) == if Carries(e, t) && e.landed then prior + [e] else UpToLanded(prior, t)
  {
    var history := prior + [e];
    LastLandedStep(prior, e, t);
    if LastLanded(prior, t).Some? {
      PrefixOfAppend(prior, e, LastLanded(prior, t).value + 1);
    }
    assert history[..|prior| + 1] == history;
  }

  lemma PrefixOfAppend(prior: seq<Event>, e: Event, n: nat)
    requires n <= |prior|
    ensures (prior + [e])[..n] == prior[..n]
  {
  }

  /** The node shows, for each agent condition, the last patch that landed and carried it. */
  lemma {:induction false} NodeShowsLastLanded(node: seq<Condition>, history: seq<Event>, t: CondType)
    requires t in ALL_TYPES
    ensures ShownBy(ConditionIndex(Run(node, history).node), ConditionIndex(node),
                    Run(node, UpToLanded(history, t)), history, t, LastLanded(history, t))
  {
    if history != [] {
      var n := |history| - 1;
      var prior, e := history[..n], history[n];
      assert prior + [e] == history;
      NodeShowsLastLanded(node, prior, t);
      LastLandedStep(prior, e, t);
      UpToLandedStep(prior, e, t);
      var w := Run(node, prior);
      var w' := Step(w, e);
      assert Run(node, history) == w';
      NodeStep(w, e, t);
      ShownStep(ConditionIndex(w.node), ConditionIndex(w'.node), ConditionIndex(node),
                Run(node, UpToLanded(prior, t)), w', prior, e, t);
    }
  }

  lemma ShownStep(index: map<CondType, Condition>, index': map<CondType, Condition>, first: map<CondType, Condition>,
                  shown: World, w': World, prior: seq<Event>, e: Event, t: CondType)
    requires ShownBy(index, first, shown, prior, t, LastLanded(prior, t))
    requires PatchedIn(index, index', w', e, t)
    ensures if Carries(e, t) && e.landed then ShownBy(index', first, w', prior + [e], t, Some(|prior|))
            else
              && (LastLanded(prior, t).Some? ==> Carries((prior + [e])[LastLanded(prior, t).value], t))
              && ShownBy(index', first, shown, prior + [e], t, LastLanded(prior, t))
  {
    assert (prior + [e])[|prior|] == e;
    if LastLanded(prior, t).Some? {
      assert (prior + [e])[LastLanded(prior, t).value] == prior[LastLanded(prior, t).value];
    }
  }

  ghost predicate PatchedIn(index: map<CondType, Condition>, index': map<CondType, Condition>, w': World, e: Event, t: CondType) {
    if Carries(e, t) && e.landed then
      && t in w'.transitions && t in index' && t in w'.status
      && w'.status[t] == e.detail[t]
      && index'[t] == Condition(t, StatusText(e.detail[t]), Some(w'.transitions[t]))
    else
      && (t in index' <==> t in index)
      && (t in index' ==> index'[t] == index[t])
  }

  lemma NodeStep(w: World, e: Event, t: CondType)
    requires Consistent(w) && t in ALL_TYPES
    ensures PatchedIn(ConditionIndex(w.node), ConditionIndex(Step(w, e).node), Step(w, e), e, t)
  {
    StepIsStepAt(w, e, t);
    if e.Publish? && e.landed {
      LandedPatch(w, e, t);
    }
  }

  lemma LandedPatch(w: World, e: Event, t: CondType)
    requires Consistent(w)
    requires e.Publish? && e.landed && t in ALL_TYPES
    ensures var index := ConditionIndex(Step(w, e).node);
            if Carries(e, t) then
              && t in Step(w, e).transitions && t in index
              && index[t] == Condition(t, StatusText(e.detail[t]), Some(Step(w, e).transitions[t]))
            else
              && (t in index <==> t in ConditionIndex(w.node))
              && (t in index ==> index[t] == ConditionIndex(w.node)[t])
  {
    var transitions := NextTransitions(w.status, w.transitions, e.now, e.detail);
    AllTypesListed();
    RenderedIndex(ALL_CONDITIONS, e.detail, transitions, t);
    RenderedIsTyped(ALL_CONDITIONS, e.detail, transitions);
    IndexOfMerge(w.node, Rendered(ALL_CONDITIONS, e.detail, transitions));
  }

  // ---- The theorem -----------------------------------------------------------------------

  /** Of the publishes up to and including position p, those that said False for t were at or before
      this time. */
  ghost predicate FalseUntil(history: seq<Event>, t: CondType, p: int, at: Time) {
    forall q :: 0 <= q <= p && q < |history| && Carries(history[q], t) && !history[q].detail[t] ==>
      history[q].now <= at
  }

  /** The same of their whole-second stamps. */
  ghost predicate FalseStampUntil(history: seq<Event>, t: CondType, p: int, at: Time) {
    forall q :: 0 <= q <= p && q < |history| && Carries(history[q], t) && !history[q].detail[t] ==>
      Stamp(history[q].now) as Time <= at
  }

  /** Publishes of t are at least a second apart: the publish interval is a whole number of seconds. */
  ghost predicate Spaced(history: seq<Event>, t: CondType) {
    forall i, j :: 0 <= i < j < |history| && Carries(history[i], t) && Carries(history[j], t) ==>
      history[j].now - history[i].now >= 1.0
  }

  /** True began at k, which a guard at g takes to be long enough ago: nothing said False since. */
  ghost predicate Sound(history: seq<Event>, t: CondType, p: int, k: int, g: Time, minAge: Time)
    requires 0 <= k < |history| && history[k].Publish?
  {
    g - Stamp(history[k].now) as Time >= minAge ==> FalseUntil(history, t, p, g - minAge)
  }

  /** The guard's reading of a run that began at k is sound at all times exactly when no earlier
      False lies in the second in which the run began. */
  lemma SoundIff(history: seq<Event>, t: CondType, p: int, k: int, minAge: Time)
    requires 0 <= k < |history| && history[k].Publish?
    ensures (forall g :: Sound(history, t, p, k, g, minAge)) <==> FalseUntil(history, t, p, Stamp(history[k].now) as Time)
  {
    var began := Stamp(history[k].now) as Time;
    if FalseUntil(history, t, p, began) {
      forall g
        ensures Sound(history, t, p, k, g, minAge)
      {
      }
    } else {
      assert began + minAge - minAge == began;
      assert !Sound(history, t, p, k, began + minAge, minAge);
    }
  }

  /** Spaced publishes meet that condition. */
  lemma SpacedIsSound(history: seq<Event>, t: CondType, p: nat, k: nat)
    requires p < |history| && k <= p && RunStart(history[..p + 1], t, k) && history[k].detail[t]
    requires Spaced(history, t)
    ensures FalseUntil(history, t, p, Stamp(history[k].now) as Time)
  {
    forall q | 0 <= q <= p && Carries(history[q], t) && !history[q].detail[t]
      ensures history[q].now <= Stamp(history[k].now) as Time
    {
      assert history[..p + 1][q] == history[q] && history[..p + 1][k] == history[k];
      assert q < k;
    }
  }

  /** What the guard reads for t is what this agent's patches made of it. */
  ghost predicate SameEntry(read: seq<Condition>, written: seq<Condition>, t: CondType) {
    var a, b := ConditionIndex(read), ConditionIndex(written);
    (t in a <==> t in b) && (t in a ==> a[t] == b[t])
  }

  /** A cordon at time g on a node whose agent conditions are the ones this agent published: the
      triggering condition was True in the last patch that landed, its unbroken run began at least
      minAge ago by its stamp, and with publishes at least a second apart nothing published later
      than g - minAge said False: up to that patch, and at all if every patch landed. */
  lemma CordonMeansHeld(
    node: seq<Condition>, history: seq<Event>,
    nodes: seq<Node>, i: nat, g: Time, cfg: Config, recent: seq<Time>)
    returns (t: CondType, p: nat, k: nat)
    requires Forward(history)
    requires forall u :: u in ALL_TYPES ==> u !in ConditionIndex(node)
    requires i < |nodes|
    requires forall u :: u in ALL_TYPES ==> SameEntry(nodes[i].conditions, Run(node, history).node, u)
    requires Decisions(nodes, g, cfg, recent)[i].action == Cordon
    ensures Decisions(nodes, g, cfg, recent)[i].ctype == Some(t)
    ensures LastLanded(history, t) == Some(p) && history[p].detail[t]
    ensures k <= p && RunStart(history[..p + 1], t, k)
    ensures g - Stamp(history[k].now) as Time >= cfg.minAge
    ensures FalseStampUntil(history, t, p, g - cfg.minAge)
    ensures FalseUntil(history, t, p, Stamp(history[k].now) as Time) ==> FalseUntil(history, t, p, g - cfg.minAge)
    ensures Spaced(history, t) ==> FalseUntil(history, t, p, g - cfg.minAge)
    ensures Spaced(history, t) && (forall j :: 0 <= j < |history| && Carries(history[j], t) ==> history[j].landed) ==>
              FalseUntil(history, t, |history| - 1, g - cfg.minAge)
  {
    CordonIff(nodes, i, g, cfg, recent);
    t := Decisions(nodes, g, cfg, recent)[i].ctype.value;
    assert SameEntry(nodes[i].conditions, Run(node, history).node, t);
    p, k := OldStampMeansHeld(node, history, t, g, cfg.minAge);
    forall q | 0 <= q < |history| && Carries(history[q], t) && history[q].landed
      ensures q <= p
    {
      NoneLandedLater(history, t, q);
    }
  }

  /** The agent's half: whoever reads a True condition with a stamp of that age may rely on it. */
  lemma OldStampMeansHeld(node: seq<Condition>, history: seq<Event>, t: CondType, g: Time, minAge: Time)
    returns (p: nat, k: nat)
    requires Forward(history)
    requires t in ALL_TYPES && t !in ConditionIndex(node)
    requires var index := ConditionIndex(Run(node, history).node);
             t in index && index[t].status == "True" && index[t].since.Some? && g - index[t].since.value as Time >= minAge
    ensures LastLanded(history, t) == Some(p) && history[p].detail[t]
    ensures k <= p && RunStart(history[..p + 1], t, k)
    ensures g - Stamp(history[k].now) as Time >= minAge
    ensures FalseStampUntil(history, t, p, g - minAge)
    ensures FalseUntil(history, t, p, Stamp(history[k].now) as Time) ==> FalseUntil(history, t, p, g - minAge)
    ensures Spaced(history, t) ==> FalseUntil(history, t, p, g - minAge)
  {
    NodeShowsLastLanded(node, history, t);
    var upto := UpToLanded(history, t);
    TransitionIsRunStart(node, upto, t);
    p := LastLanded(history, t).value;
    k := RunBeganThen(Run(node, upto), history, t, p, g, minAge);
    if Spaced(history, t) {
      SpacedIsSound(history, t, p, k);
    }
  }

  lemma RunBeganThen(w: World, history: seq<Event>, t: CondType, p: nat, g: Time, minAge: Time) returns (k: nat)
    requires Forward(history) && p < |history| && Carries(history[p], t) && history[p].detail[t]
    requires Explained(w, history[..p + 1], t)
    requires t in w.status && w.status[t] && g - w.transitions[t] as Time >= minAge
    ensures k <= p && RunStart(history[..p + 1], t, k) && history[k].detail[t]
    ensures g - Stamp(history[k].now) as Time >= minAge
    ensures FalseStampUntil(history, t, p, g - minAge)
  {
    var upto := history[..p + 1];
    var k' :| RunStart(upto, t, k') && w.transitions[t] == Stamp(upto[k'].now) && w.status[t] == upto[k'].detail[t];
    k := k';
    assert upto[k] == history[k];
    forall q | 0 <= q <= p && Carries(history[q], t) && !history[q].detail[t]
      ensures Stamp(history[q].now) as Time <= g - minAge
    {
      assert upto[q] == history[q] && q < k;
      StampMonotone(history[q].now, history[k].now);
    }
  }

  // ---- A restart within one second -----------------------------------------------------------

  const PATIENT: Config := Config("enforce", [], 120.0, 0, 1, 3600.0)

  /** The agent restarted and published t as True, and the patch landed: a new run has begun. */
  lemma FirstAfterRestart(node: seq<Condition>, history: seq<Event>, t: CondType)
    requires |history| >= 2 && history[|history| - 2].Restart?
    requires Carries(history[|history| - 1], t) && history[|history| - 1].detail[t] && history[|history| - 1].landed
    ensures var index := ConditionIndex(Run(node, history).node);
            t in index && index[t] == Condition(t, "True", Some(Stamp(history[|history| - 1].now)))
  {
    var n := |history| - 1;
    assert LastLanded(history, t) == Some(n) && history[..n + 1] == history;
    NodeShowsLastLanded(node, history, t);
    TransitionIsRunStart(node, history, t);
    StampOfNewRun(Run(node, history), history, t);
  }

  lemma StampOfNewRun(w: World, history: seq<Event>, t: CondType)
    requires |history| >= 2 && history[|history| - 2].Restart? && history[|history| - 1].Publish?
    requires t in w.status && Explained(w, history, t)
    ensures w.transitions[t] == Stamp(history[|history| - 1].now)
  {
    var k :| RunStart(history, t, k) && w.transitions[t] == Stamp(history[k].now) && w.status[t] == history[k].detail[t];
    assert k == |history| - 1;
  }

  /** What no publish carries, the node shows as it did. */
  lemma NeverCarried(node: seq<Condition>, history: seq<Event>, t: CondType)
    requires t in ALL_TYPES && t !in ConditionIndex(node)
    requires forall j :: 0 <= j < |history| ==> !Carries(history[j], t)
    ensures t !in ConditionIndex(Run(node, history).node)
  {
    NothingLanded(history, t);
    NodeShowsLastLanded(node, history, t);
  }

  lemma {:induction false} NothingLanded(history: seq<Event>, t: CondType)
    requires forall j :: 0 <= j < |history| ==> !Carries(history[j], t)
    ensures LastLanded(history, t) == None
  {
    if history != [] {
      NothingLanded(history[..|history| - 1], t);
    }
  }

  /** False at 880.5, a restart, True at 880.9. */
  function QuickRestart(t: CondType): (history: seq<Event>)
    ensures |history| == 3 && history[0] == Publish(880.5, map[t := false], true)
    ensures history[1] == Restart && history[2] == Publish(880.9, map[t := true], true)
  {
    [Publish(880.5, map[t := false], true), Restart, Publish(880.9, map[t := true], true)]
  }

  /** Without the second between publishes the bound can fail: at 1000 the guard cordons the node for
      a condition that has to have held for 120 s, and that was published as False at 880.5. */
  lemma RestartSlips()
    ensures var history := QuickRestart(GPUUnrecoverable);
            var node := Node(Some("node"), false, Run([], history).node);
            && Forward(history)
            && Decisions([node], 1000.0, PATIENT, [])[0].action == Cordon
            && Decisions([node], 1000.0, PATIENT, [])[0].ctype == Some(GPUUnrecoverable)
            && !FalseUntil(history, GPUUnrecoverable, 2, 1000.0 - PATIENT.minAge)
  {
    var history := QuickRestart(GPUUnrecoverable);
    FirstAfterRestart([], history, GPUUnrecoverable);
    NeverCarried([], history, GPUHealthDataStale);
    assert Stamp(880.9) == 880;
    HeldIsCordoned(Node(Some("node"), false, Run([], history).node), 1000.0);
    QuickRestartSaysFalse(GPUUnrecoverable);
  }

  lemma QuickRestartSaysFalse(t: CondType)
    requires t in ALL_TYPES
    ensures Forward(QuickRestart(t)) && !FalseUntil(QuickRestart(t), t, 2, 880.0)
  {
    var history := QuickRestart(t);
    assert Carries(history[0], t) && !history[0].detail[t] && history[0].now > 880.0;
  }

  lemma HeldIsCordoned(node: Node, g: Time)
    requires IsTrue(node, GPUUnrecoverable) && !IsTrue(node, GPUHealthDataStale) && !node.unschedulable
    requires var cond := ConditionIndex(node.conditions)[GPUUnrecoverable];
             cond.since.Some? && g - cond.since.value as Time >= PATIENT.minAge
    ensures Decisions([node], g, PATIENT, [])[0].action == Cordon
    ensures Decisions([node], g, PATIENT, [])[0].ctype == Some(GPUUnrecoverable)
  {
    assert SEVERITY[0] == GPUUnrecoverable && MostSevere(node, 0);
    assert HeldLongEnough(node, GPUUnrecoverable, g, PATIENT.minAge);
    assert CandidateFlags([node], g, PATIENT)[..0] == [];
    CordonIff([node], 0, g, PATIENT, []);
    SearchIsSeverityScan(node);
  }
}
