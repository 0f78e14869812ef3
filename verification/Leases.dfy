/**
 Leader election over one Lease object. A guard reads the lease, decides on at most one write and
 sends it; the API server applies a write only against the version it was based on. Requests of
 all guards interleave freely: a sent write may arrive late, more than once, or never, and the
 guards' clocks need not agree.
 */
module Leases {
  import opened Wrappers
  import opened Clock

  /** The fields of a lease that the guard reads or writes; times are parsed wire stamps. */
  datatype Spec = Spec(holder: Option<string>, acquired: Option<int>, renewed: Option<int>, duration: int)

  datatype Stored = Stored(spec: Spec, version: nat)

  /** What the GET returned. */
  datatype Reply = Failed | Absent | Found(spec: Spec, version: nat)

  datatype Request = Create(spec: Spec) | Update(spec: Spec, version: nat)

  predicate Expired(spec: Spec, duration: int, now: Time) {
    spec.renewed.None? || now - spec.renewed.value as Time > duration as Time
  }

  /** The write a guard sends after reading `got`; None when it stands down. */
  function RequestFor(id: string, duration: int, now: Time, got: Reply): Option<Request> {
    match got
    case Failed => None
    case Absent => Some(Create(Spec(Some(id), Some(Stamp(now)), Some(Stamp(now)), duration)))
    case Found(spec, version) =>
      if spec.holder != Some(id) && !Expired(spec, duration, now) then None
      else
        var acquired := if spec.holder == Some(id) then spec.acquired else Some(Stamp(now));
        Some(Update(Spec(Some(id), acquired, Some(Stamp(now)), duration), version))
  }

  class Leader {
    const identity: string
    const duration: int
    var isLeader: bool

    constructor (identity: string, duration: int)
      ensures this.identity == identity && this.duration == duration && !isLeader
    {
      this.identity, this.duration, isLeader := identity, duration, false;
    }

    /** `got` answers the GET, `accepted` says whether the write that follows is accepted. */
    method AcquireOrRenew(now: Time, got: Reply, accepted: bool) returns (sent: Option<Request>, ok: bool)
      modifies this
      ensures sent == RequestFor(identity, duration, now, got)
      ensures isLeader == ok == (sent.Some? && accepted)
      ensures got.Failed? ==> sent.None? && !ok
      ensures sent.Some? ==>
        && sent.value.spec.holder == Some(identity) && sent.value.spec.renewed == Some(Stamp(now))
        && sent.value.spec.duration == duration
    {
      if got.Failed? {
        isLeader := false;
        return None, false;
      }
      if got.Absent? {
        sent := Some(Create(Spec(Some(identity), Some(Stamp(now)), Some(Stamp(now)), duration)));
        isLeader := accepted;
        return sent, accepted;
      }
      var spec := got.spec;
      var holder := spec.holder;
      var expired := spec.renewed.None? || now - spec.renewed.value as Time > duration as Time;
      if holder != Some(identity) && !expired {
        isLeader := false;
        return None, false;
      }
      if holder != Some(identity) {
        spec := spec.(holder := Some(identity), acquired := Some(Stamp(now)));
      }
      spec := spec.(duration := duration);
      spec := spec.(renewed := Some(Stamp(now)));
      sent := Some(Update(spec, got.version));
      isLeader := accepted;
      ok := accepted;
    }
  }

  // ---- The API server --------------------------------------------------------------------

  function Read(store: Option<Stored>): Reply {
    if store.None? then Absent else Found(store.value.spec, store.value.version)
  }

  /** A create fails if the lease exists; an update fails if the version has moved on. */
  predicate Accepts(store: Option<Stored>, request: Request) {
    match request
    case Create(_) => store.None?
    case Update(_, version) => store.Some? && store.value.version == version
  }

  function Apply(store: Option<Stored>, request: Request): Option<Stored> {
    if !Accepts(store, request) then store
    else Some(Stored(request.spec, if store.None? then 0 else store.value.version + 1))
  }

  // ---- Any number of guards --------------------------------------------------------------

  /** A write on its way, with the read it rests on. */
  datatype Message = Message(id: string, now: Time, got: Reply, request: Request)

  datatype Event =
    | Poll(id: string, now: Time, answered: bool)   // a guard reads its clock, GETs the lease and sends its write
    | Deliver(message: Message)                     // the server receives a write that some guard sent

  /** `writes` are the applied writes in order: every acquisition or renewal that succeeded,
      including those whose answer was lost on the way back. */
  datatype System = System(
    store: Option<Stored>,
    sent: set<Message>,
    clock: map<string, Time>,
    writes: seq<Message>
  )

  ghost function Step(duration: int, s: System, e: Event): System {
    match e
    case Poll(id, now, answered) =>
      if id in s.clock && now < s.clock[id] then s
      else
        var got := if answered then Read(s.store) else Failed;
        var request := RequestFor(id, duration, now, got);
        s.(clock := s.clock[id := now],
           sent := if request.None? then s.sent else s.sent + {Message(id, now, got, request.value)})
    case Deliver(message) =>
      if message !in s.sent || !Accepts(s.store, message.request) then s
      else s.(store := Apply(s.store, message.request), writes := s.writes + [message])
  }

  ghost function Run(duration: int, initial: Option<Stored>, events: seq<Event>): System {
    if events == [] then System(initial, {}, map[], [])
    else Step(duration, Run(duration, initial, events[..|events| - 1]), events[|events| - 1])
  }

  ghost predicate MessageOk(duration: int, s: System, m: Message) {
    && RequestFor(m.id, duration, m.now, m.got) == Some(m.request)
    && m.id in s.clock && m.now <= s.clock[m.id]
    && (m.got.Found? ==>
          && s.store.Some? && m.got.version <= s.store.value.version
          && (m.got.version == s.store.value.version ==>
                && m.got.spec == s.store.value.spec
                && forall i :: 0 <= i < |s.writes| && s.writes[i].id == m.id ==> s.writes[i].now <= m.now))
  }

  /** What the store holds is what the last applied write put there. */
  ghost predicate StoreOk(s: System) {
    && (s.store.None? ==> s.writes == [])
    && (s.writes != [] ==>
          var last := s.writes[|s.writes| - 1];
          && s.store.Some?
          && s.store.value.spec.holder == Some(last.id)
          && s.store.value.spec.renewed == Some(Stamp(last.now)))
  }

  ghost predicate Apart(duration: int, a: Message, b: Message) {
    && Stamp(a.now) <= Stamp(b.now)
    && (a.id == b.id ==> a.now <= b.now)
    && (a.id != b.id ==> b.now - Stamp(a.now) as Time > duration as Time)
  }

  ghost predicate Inv(duration: int, s: System) {
    && StoreOk(s)
    && (forall m :: m in s.sent ==> MessageOk(duration, s, m))
    && (forall i :: 0 <= i < |s.writes| ==> s.writes[i].id in s.clock && s.writes[i].now <= s.clock[s.writes[i].id])
    && (forall i, j :: 0 <= i < j < |s.writes| ==> Apart(duration, s.writes[i], s.writes[j]))
  }

  lemma PollKeepsInv(duration: int, s: System, id: string, now: Time, answered: bool)
    requires Inv(duration, s)
    ensures Inv(duration, Step(duration, s, Poll(id, now, answered)))
  {
  }

  /** An accepted write stands apart from every write before it. */
  lemma AcceptedWriteIsApart(duration: int, s: System, m: Message, i: nat)
    requires duration >= 0
    requires Inv(duration, s) && m in s.sent && Accepts(s.store, m.request)
    requires i < |s.writes|
    ensures Apart(duration, s.writes[i], m)
  {
    var last := s.writes[|s.writes| - 1];
    assert MessageOk(duration, s, m);
    assert i == |s.writes| - 1 || Apart(duration, s.writes[i], last);
    if s.writes[i].id == m.id {
      StampMonotone(s.writes[i].now, m.now);
    }
    if last.id == m.id {
      StampMonotone(last.now, m.now);
    }
  }

  lemma DeliverKeepsInv(duration: int, s: System, m: Message)
    requires duration >= 0
    requires Inv(duration, s)
    ensures Inv(duration, Step(duration, s, Deliver(m)))
  {
    if m in s.sent && Accepts(s.store, m.request) {
      var s' := Step(duration, s, Deliver(m));
      assert MessageOk(duration, s, m);
      forall i | 0 <= i < |s.writes|
        ensures Apart(duration, s.writes[i], m)
      {
        AcceptedWriteIsApart(duration, s, m, i);
      }
      forall n | n in s'.sent
        ensures MessageOk(duration, s', n)
      {
        assert MessageOk(duration, s, n);
      }
    }
  }

  lemma {:induction false} InvHolds(duration: int, initial: Option<Stored>, events: seq<Event>)
    requires duration >= 0
    ensures Inv(duration, Run(duration, initial, events))
  {
    if events != [] {
      var prior, e := events[..|events| - 1], events[|events| - 1];
      InvHolds(duration, initial, prior);
      match e
      case Poll(id, now, answered) => PollKeepsInv(duration, Run(duration, initial, prior), id, now, answered);
      case Deliver(m) => DeliverKeepsInv(duration, Run(duration, initial, prior), m);
    }
  }

  /** In every interleaving, whatever lease was there at the start: stored stamps never go back,
      and a successful write of another guard comes more than the duration after the stored stamp,
      hence more than duration - 1 seconds after the write itself. */
  lemma LeaseSafety(duration: int, initial: Option<Stored>, events: seq<Event>)
    requires duration >= 0
    ensures var writes := Run(duration, initial, events).writes;
            forall i, j :: 0 <= i < j < |writes| ==>
              && Stamp(writes[i].now) <= Stamp(writes[j].now)
              && (writes[i].id != writes[j].id ==>
                    && writes[j].now - Stamp(writes[i].now) as Time > duration as Time
                    && writes[j].now - writes[i].now > duration as Time - 1.0)
  {
    forall i, j | 0 <= i < j < |Run(duration, initial, events).writes|
      ensures Apart(duration, Run(duration, initial, events).writes[i], Run(duration, initial, events).writes[j])
    {
      WritesApart(duration, initial, events, i, j);
    }
  }

  lemma WritesApart(duration: int, initial: Option<Stored>, events: seq<Event>, i: nat, j: nat)
    requires duration >= 0 && i < j < |Run(duration, initial, events).writes|
    ensures Apart(duration, Run(duration, initial, events).writes[i], Run(duration, initial, events).writes[j])
  {
    InvHolds(duration, initial, events);
  }

  /** Without interference a guard's turn succeeds exactly when the lease is absent, its own,
      without a usable stamp, or older than the duration. */
  lemma UndisturbedTurn(duration: int, s: System, id: string, now: Time)
    requires id in s.clock ==> s.clock[id] <= now
    ensures var polled := Step(duration, s, Poll(id, now, true));
            var request := RequestFor(id, duration, now, Read(s.store));
            var free := s.store.None? || s.store.value.spec.holder == Some(id)
                        || s.store.value.spec.renewed.None?
                        || now - s.store.value.spec.renewed.value as Time > duration as Time;
            && (free <==> request.Some?)
            && (free ==>
                  var m := Message(id, now, Read(s.store), request.value);
                  var done := Step(duration, polled, Deliver(m));
                  && done.writes == s.writes + [m]
                  && done.store.Some?
                  && done.store.value.spec.holder == Some(id)
                  && done.store.value.spec.renewed == Some(Stamp(now))
                  && done.store.value.spec.duration == duration
                  && (s.store.Some? && s.store.value.spec.holder == Some(id) ==>
                        done.store.value.spec.acquired == s.store.value.spec.acquired)
                  && (s.store.None? || s.store.value.spec.holder != Some(id) ==>
                        done.store.value.spec.acquired == Some(Stamp(now))))
            && (!free ==> polled.sent == s.sent && polled.store == s.store)
  {
  }

  /** A turn whose GET failed sends nothing: the store, the writes and what is on its way stay. */
  lemma UnansweredTurn(duration: int, s: System, id: string, now: Time)
    ensures var s' := Step(duration, s, Poll(id, now, false));
            s'.store == s.store && s'.sent == s.sent && s'.writes == s.writes
  {
  }

  /** Every write that was ever applied carries the guard's own identity, the stamp of its clock reading
      and the duration, whatever the lease held before. */
  lemma {:induction false} WritesCarry(duration: int, initial: Option<Stored>, events: seq<Event>, i: nat)
    requires duration >= 0 && i < |Run(duration, initial, events).writes|
    ensures var m := Run(duration, initial, events).writes[i];
            && m.request.spec.holder == Some(m.id)
            && m.request.spec.renewed == Some(Stamp(m.now))
            && m.request.spec.duration == duration
  {
    var n := |events| - 1;
    var s := Run(duration, initial, events[..n]);
    if i < |s.writes| {
      WritesCarry(duration, initial, events[..n], i);
    } else {
      InvHolds(duration, initial, events[..n]);
      assert MessageOk(duration, s, events[n].message);
    }
  }

  /** A write that was applied once is never applied again, however often it arrives. */
  lemma NoReplay(duration: int, s: System, m: Message)
    requires Inv(duration, s) && m in s.sent && Accepts(s.store, m.request)
    ensures var s' := Step(duration, s, Deliver(m));
            Step(duration, s', Deliver(m)) == s' && |s'.writes| == |s.writes| + 1
  {
  }

  /** Two writes in turn on a fresh lease: another guard takes over once the lease has expired, or
      the same identity renews. */
  lemma TwoTurns(duration: int, a: string, t: Time, b: string, u: Time) returns (events: seq<Event>)
    requires if a == b then t <= u else u - Stamp(t) as Time > duration as Time
    ensures var writes := Run(duration, None, events).writes;
            |writes| == 2 && writes[0].id == a && writes[0].now == t && writes[1].id == b && writes[1].now == u
  {
    var start: seq<Event> := [];
    var m := Message(a, t, Absent, RequestFor(a, duration, t, Absent).value);
    var first := Turn(duration, None, start, a, t, m);
    var got := Read(Run(duration, None, first).store);
    var n := Message(b, u, got, RequestFor(b, duration, u, got).value);
    events := Turn(duration, None, first, b, u, n);
  }

  /** One undisturbed turn, appended to a run. */
  lemma Turn(duration: int, initial: Option<Stored>, events: seq<Event>, id: string, now: Time, m: Message)
    returns (events': seq<Event>)
    requires var s := Run(duration, initial, events);
             && (id in s.clock ==> s.clock[id] <= now)
             && RequestFor(id, duration, now, Read(s.store)) == Some(m.request)
             && m == Message(id, now, Read(s.store), m.request)
    ensures var s, s' := Run(duration, initial, events), Run(duration, initial, events');
            && s'.writes == s.writes + [m]
            && s'.store.Some? && s'.store.value.spec == m.request.spec
            && s'.clock == s.clock[id := now]
  {
    var polled := events + [Poll(id, now, true)];
    assert polled[..|polled| - 1] == events;
    events' := polled + [Deliver(m)];
    assert events'[..|events'| - 1] == polled;
  }

  /** Nobody else writes within the duration after a write at time t, in this run. */
  ghost predicate Protected(duration: int, initial: Option<Stored>, events: seq<Event>, t: Time) {
    var writes := Run(duration, initial, events).writes;
    forall i, j :: 0 <= i < j < |writes| && writes[i].now == t && writes[i].id != writes[j].id ==>
      writes[j].now - t > duration as Time
  }

  /** A write at time t protects the lease for its full duration, in every run, exactly when t is a
      whole second: the stored stamp has lost the fraction. */
  lemma FullDurationIff(duration: int, t: Time)
    requires duration >= 0
    ensures (forall initial, events :: Protected(duration, initial, events, t)) <==> t == Stamp(t) as Time
  {
    if t == Stamp(t) as Time {
      forall initial, events
        ensures Protected(duration, initial, events, t)
      {
        LeaseSafety(duration, initial, events);
      }
    } else {
      assert "a"[0] != "b"[0];
      var events := TwoTurns(duration, "a", t, "b", t + duration as Time);
      var writes := Run(duration, None, events).writes;
      assert writes[0].now == t && writes[0].id != writes[1].id;
      assert !Protected(duration, None, events, t);
    }
  }
}
