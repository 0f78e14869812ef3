/**
 The agent's condition publisher and the node object it patches: a transition stamp moves only
 when a status flips, and a strategic merge patch replaces conditions by type.
 */
module Publishing {
  import opened Wrappers
  import opened Clock
  import opened Policy

  const ALL_CONDITIONS: seq<CondType> :=
    [GPUUnrecoverable, GPUWorkqueueStalled, GPUEngineTimeout, GPUProbeFailed, GPUHealthDataStale]

  function StatusText(active: bool): string {
    if active then "True" else "False"
  }

  const ALL_TYPES: set<CondType> := {GPUUnrecoverable, GPUWorkqueueStalled, GPUEngineTimeout, GPUProbeFailed, GPUHealthDataStale}

  /** Whether a publish carries a condition: the agent knows it and the evaluation reported it. */
  predicate Carried(types: set<CondType>, detail: map<CondType, bool>, t: CondType) {
    t in types && t in detail
  }

  predicate Flips(types: set<CondType>, status: map<CondType, bool>, detail: map<CondType, bool>, t: CondType) {
    Carried(types, detail, t) && !(t in status && status[t] == detail[t])
  }

  ghost predicate StatusAfter(
    types: set<CondType>, status: map<CondType, bool>, detail: map<CondType, bool>, status': map<CondType, bool>)
  {
    forall t ::
      && (t in status' <==> t in status || Carried(types, detail, t))
      && (t in status' ==> status'[t] == if Carried(types, detail, t) then detail[t] else status[t])
  }

  ghost predicate TransitionsAfter(
    types: set<CondType>, status: map<CondType, bool>, transitions: map<CondType, int>,
    now: Time, detail: map<CondType, bool>, transitions': map<CondType, int>)
  {
    forall t ::
      && (t in transitions' <==> t in transitions || Flips(types, status, detail, t))
      && (t in transitions' ==> transitions'[t] == if Flips(types, status, detail, t) then Stamp(now) else transitions[t])
  }

  function Rendered(types: seq<CondType>, detail: map<CondType, bool>, transitions: map<CondType, int>)
    : (conditions: seq<Condition>)
    requires forall t :: t in types && t in detail ==> t in transitions
  {
    if types == [] then []
    else
      var init, t := types[..|types| - 1], types[|types| - 1];
      Rendered(init, detail, transitions) +
      if t in detail then [Condition(t, StatusText(detail[t]), Some(transitions[t]))] else []
  }

  class ConditionPublisher {
    var lastStatus: map<CondType, bool>
    var transitions: map<CondType, int>

    ghost predicate Valid()
      reads this
    {
      forall t :: t in lastStatus <==> t in transitions
    }

    constructor ()
      ensures Valid() && lastStatus == map[] && transitions == map[]
    {
      lastStatus, transitions := map[], map[];
    }

    /** The patch that is sent; None when nothing was evaluated yet. Whether the patch is then
        accepted makes no difference to the publisher. */
    method Publish(now: Time, detail: map<CondType, bool>) returns (patch: Option<seq<Condition>>)
      requires Valid()
      modifies this
      ensures Valid()
      ensures StatusAfter(ALL_TYPES, old(lastStatus), detail, lastStatus)
      ensures TransitionsAfter(ALL_TYPES, old(lastStatus), old(transitions), now, detail, transitions)
      ensures forall t :: Carried(ALL_TYPES, detail, t) ==> t in transitions
      ensures patch == if detail == map[] then None else Some(Rendered(ALL_CONDITIONS, detail, transitions))
    {
      if detail == map[] {
        return None;
      }
      var conditions := [];
      ghost var before := Memory(lastStatus, transitions, []);
      for k := 0 to |ALL_CONDITIONS|
        invariant Valid()
        invariant Memory(lastStatus, transitions, conditions) == PublishAll(before, ALL_CONDITIONS[..k], now, detail)
      {
        var name := ALL_CONDITIONS[k];
        assert ALL_CONDITIONS[..k + 1][..k] == ALL_CONDITIONS[..k];
        if name in detail {
          var status := detail[name];
          if !(name in lastStatus && lastStatus[name] == status) {
            transitions := transitions[name := Stamp(now)];
          }
          lastStatus := lastStatus[name := status];
          conditions := conditions + [Condition(name, StatusText(status), Some(transitions[name]))];
        }
      }
      assert ALL_CONDITIONS[..|ALL_CONDITIONS|] == ALL_CONDITIONS;
      AllDistinct();
      AllTypes(TypesIn(ALL_CONDITIONS));
      PublishAllMeans(before, ALL_CONDITIONS, now, detail);
      patch := Some(conditions);
    }
  }

  /** The publisher's maps and the patch as far as it is built. */
  datatype Memory = Memory(status: map<CondType, bool>, transitions: map<CondType, int>, conditions: seq<Condition>)

  ghost predicate Paired(m: Memory) {
    forall t :: t in m.status <==> t in m.transitions
  }

  ghost function PublishOne(m: Memory, t: CondType, now: Time, detail: map<CondType, bool>): (m': Memory)
    requires Paired(m)
    ensures Paired(m')
  {
    if t !in detail then m
    else
      var transitions := if t in m.status && m.status[t] == detail[t] then m.transitions else m.transitions[t := Stamp(now)];
      Memory(m.status[t := detail[t]], transitions,
             m.conditions + [Condition(t, StatusText(detail[t]), Some(transitions[t]))])
  }

  ghost function PublishAll(m: Memory, types: seq<CondType>, now: Time, detail: map<CondType, bool>): (m': Memory)
    requires Paired(m)
    ensures Paired(m')
  {
    if types == [] then m
    else PublishOne(PublishAll(m, types[..|types| - 1], now, detail), types[|types| - 1], now, detail)
  }

  function TypesIn(types: seq<CondType>): set<CondType> {
    set t | t in types
  }

  ghost predicate DistinctTypes(types: seq<CondType>) {
    forall i, j :: 0 <= i < j < |types| ==> types[i] != types[j]
  }

  lemma TypesOfInit(types: seq<CondType>)
    requires DistinctTypes(types) && types != []
    ensures var init, last := types[..|types| - 1], types[|types| - 1];
            DistinctTypes(init) && last !in TypesIn(init) && TypesIn(types) == TypesIn(init) + {last}
  {
    assert types == types[..|types| - 1] + [types[|types| - 1]];
  }

  /** What the walk over the conditions does: each of them is handled once. */
  lemma {:induction false} PublishAllMeans(m: Memory, types: seq<CondType>, now: Time, detail: map<CondType, bool>)
    requires Paired(m) && m.conditions == [] && DistinctTypes(types)
    ensures var m' := PublishAll(m, types, now, detail);
            && StatusAfter(TypesIn(types), m.status, detail, m'.status)
            && TransitionsAfter(TypesIn(types), m.status, m.transitions, now, detail, m'.transitions)
            && (forall t :: t in types && t in detail ==> t in m'.transitions)
            && m'.conditions == Rendered(types, detail, m'.transitions)
  {
    if types != [] {
      var init, last := types[..|types| - 1], types[|types| - 1];
      TypesOfInit(types);
      PublishAllMeans(m, init, now, detail);
      var mid, m' := PublishAll(m, init, now, detail), PublishAll(m, types, now, detail);
      StepKeepsStatus(TypesIn(init), last, m.status, detail, mid.status);
      StepKeepsTransitions(TypesIn(init), last, m.status, m.transitions, now, detail, mid.transitions);
      RenderedFrame(init, detail, mid.transitions, m'.transitions);
      assert mid.conditions + [] == mid.conditions;
    }
  }

  /** One turn of the loop: a condition that was not handled before is handled. */
  lemma StepKeepsStatus(
    done: set<CondType>, name: CondType, status: map<CondType, bool>, detail: map<CondType, bool>,
    status': map<CondType, bool>)
    requires name !in done
    requires StatusAfter(done, status, detail, status')
    ensures StatusAfter(done + {name}, status, detail, if name in detail then status'[name := detail[name]] else status')
    ensures (name in status' <==> name in status) && (name in status ==> status'[name] == status[name])
  {
  }

  lemma StepKeepsTransitions(
    done: set<CondType>, name: CondType,
    status: map<CondType, bool>, transitions: map<CondType, int>, now: Time, detail: map<CondType, bool>,
    transitions': map<CondType, int>)
    requires name !in done
    requires TransitionsAfter(done, status, transitions, now, detail, transitions')
    ensures TransitionsAfter(done + {name}, status, transitions, now, detail,
              if name in detail && !(name in status && status[name] == detail[name])
              then transitions'[name := Stamp(now)] else transitions')
  {
  }

  lemma AllDistinct()
    ensures DistinctTypes(ALL_CONDITIONS)
  {
  }

  lemma AllTypes(types: set<CondType>)
    requires forall t :: t in types <==> t in ALL_CONDITIONS
    ensures types == ALL_TYPES
  {
    assert forall k :: 0 <= k < 5 ==> ALL_CONDITIONS[k] in types;
  }

  lemma {:induction false} RenderedFrame(
    types: seq<CondType>, detail: map<CondType, bool>, a: map<CondType, int>, b: map<CondType, int>)
    requires forall t :: t in types && t in detail ==> t in a && t in b && a[t] == b[t]
    ensures Rendered(types, detail, a) == Rendered(types, detail, b)
  {
    if types != [] {
      RenderedFrame(types[..|types| - 1], detail, a, b);
    }
  }

  // ---- The node object -------------------------------------------------------------------

  function Replaced(conditions: seq<Condition>, c: Condition): (r: seq<Condition>)
    ensures |r| == |conditions|
    ensures forall i :: 0 <= i < |r| ==> r[i] == if conditions[i].ctype == c.ctype then c else conditions[i]
  {
    seq(|conditions|, i requires 0 <= i < |conditions| =>
      if conditions[i].ctype == c.ctype then c else conditions[i])
  }

  /** A strategic merge by type: update in place, or append. */
  function Merge(conditions: seq<Condition>, patch: seq<Condition>): seq<Condition> {
    if patch == [] then conditions
    else
      MergeOne(Merge(conditions, patch[..|patch| - 1]), patch[|patch| - 1])
  }

  function MergeOne(base: seq<Condition>, c: Condition): seq<Condition> {
    if exists i :: 0 <= i < |base| && base[i].ctype == c.ctype then Replaced(base, c) else base + [c]
  }

  lemma {:induction false} IndexOfReplaced(conditions: seq<Condition>, c: Condition)
    requires c.ctype != Untyped
    ensures var index := ConditionIndex(conditions);
            ConditionIndex(Replaced(conditions, c)) == if c.ctype in index then index[c.ctype := c] else index
  {
    if conditions != [] {
      var init := conditions[..|conditions| - 1];
      IndexOfReplaced(init, c);
      assert Replaced(conditions, c)[..|conditions| - 1] == Replaced(init, c);
    }
  }

  lemma IndexOfMergeStep(base: seq<Condition>, c: Condition)
    requires c.ctype != Untyped
    ensures ConditionIndex(MergeOne(base, c)) == ConditionIndex(base)[c.ctype := c]
  {
    if exists i :: 0 <= i < |base| && base[i].ctype == c.ctype {
      IndexOfReplaced(base, c);
      var i :| 0 <= i < |base| && base[i].ctype == c.ctype;
      IndexHas(base, i);
    } else {
      assert (base + [c])[..|base|] == base;
    }
  }

  lemma {:induction false} IndexHas(conditions: seq<Condition>, i: nat)
    requires i < |conditions| && conditions[i].ctype != Untyped
    ensures conditions[i].ctype in ConditionIndex(conditions)
  {
    if i < |conditions| - 1 {
      IndexHas(conditions[..|conditions| - 1], i);
    }
  }

  lemma MapPlusUpdate<K, V>(m: map<K, V>, n: map<K, V>, k: K, v: V)
    ensures (m + n)[k := v] == m + n[k := v]
  {
  }

  lemma AddNothing<K, V>(m: map<K, V>)
    ensures m + map[] == m
  {
  }

  /** Reading the patched node gives the patched conditions, and all others as they were. */
  lemma {:induction false} IndexOfMerge(conditions: seq<Condition>, patch: seq<Condition>)
    requires forall i :: 0 <= i < |patch| ==> patch[i].ctype != Untyped
    ensures ConditionIndex(Merge(conditions, patch)) == ConditionIndex(conditions) + ConditionIndex(patch)
  {
    if patch != [] {
      var init, c := patch[..|patch| - 1], patch[|patch| - 1];
      IndexOfMerge(conditions, init);
      IndexOfMergeStep(Merge(conditions, init), c);
      MapPlusUpdate(ConditionIndex(conditions), ConditionIndex(init), c.ctype, c);
    } else {
      AddNothing(ConditionIndex(conditions));
    }
  }
}
