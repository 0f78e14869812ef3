/**
 The D7 fence reaper: one scan over a ring's fence slots picks up to 32 fences the hardware has
 passed, a second loop completes them with an error. Sequence numbers are 32 bits and wrap.
 */
module FenceReaper {
  import opened Tallies

  const WRAP: int := 0x1_0000_0000
  const ECANCELED: int := 125
  const BATCH: nat := 32

  // ---- Wrapping sequence numbers -----------------------------------------------------------

  /** The 32-bit signed reading of an integer. */
  function Int32(x: int): (r: int)
    ensures -0x8000_0000 <= r < 0x8000_0000 && (r - x) % WRAP == 0
  {
    var m := x % WRAP;
    if m >= 0x8000_0000 then m - WRAP else m
  }

  /** The hardware is past this sequence number, as far as 32 bits can tell. */
  predicate Passed(hwSeq: int, seqno: int) {
    Int32(hwSeq - seqno) > 0
  }

  lemma ModOfDifference(a: int, b: int)
    ensures (a % WRAP - b % WRAP) % WRAP == (a - b) % WRAP
  {
    var q := b / WRAP - a / WRAP;
    assert (a % WRAP - b % WRAP) - (a - b) == WRAP * q;
    SameMod(a % WRAP - b % WRAP, a - b, q);
  }

  lemma SameMod(x: int, y: int, q: int)
    requires x - y == WRAP * q
    ensures x % WRAP == y % WRAP
  {
    assert x == WRAP * (y / WRAP + q) + y % WRAP;
  }

  /** The truncated test is right for a true distance exactly when that distance, reduced to 32 bits,
      lies in the half it stands for: always if it is less than half a wrap either way. At half a
      wrap ahead a passed fence is missed; one step further behind, a fence that the hardware has
      not reached counts as passed. */
  lemma PassedIsAhead(hardware: int, fence: int)
    ensures var d := hardware - fence;
            && (Passed(hardware % WRAP, fence % WRAP) <==> 0 < d % WRAP < 0x8000_0000)
            && ((Passed(hardware % WRAP, fence % WRAP) <==> hardware > fence) <==> (d > 0 <==> 0 < d % WRAP < 0x8000_0000))
            && (-0x8000_0000 <= d < 0x8000_0000 ==> (Passed(hardware % WRAP, fence % WRAP) <==> hardware > fence))
            && (d == 0x8000_0000 ==> !Passed(hardware % WRAP, fence % WRAP))
            && (d == -0x8000_0001 ==> Passed(hardware % WRAP, fence % WRAP))
  {
    ModOfDifference(hardware, fence);
  }

  // ---- Slots -------------------------------------------------------------------------------

  class Fence {
    const seqno: int
    const start: int        // when it was emitted, in ms
    var signaled: bool
    var error: int
    var refs: int

    constructor (seqno: int, start: int)
      ensures this.seqno == seqno && this.start == start && !signaled && error == 0 && refs == 1
    {
      this.seqno, this.start, signaled, error, refs := seqno, start, false, 0, 1;
    }
  }

  /** The value of a slot: no fence, or the fence's fields. */
  datatype Slot = Empty | Busy(seqno: int, start: int, signaled: bool, error: int, refs: int)

  predicate Eligible(slot: Slot, hwSeq: int, now: int, grace: int) {
    slot.Busy? && !slot.signaled && Passed(hwSeq, slot.seqno) && now >= slot.start + grace
  }

  function EligibleFlags(slots: seq<Slot>, hwSeq: int, now: int, grace: int): (flags: seq<bool>)
    ensures |flags| == |slots|
    ensures forall i :: 0 <= i < |slots| ==> flags[i] == Eligible(slots[i], hwSeq, now, grace)
  {
    seq(|slots|, i requires 0 <= i < |slots| => Eligible(slots[i], hwSeq, now, grace))
  }

  /** Slot i is among the first `n` eligible ones. */
  predicate AmongFirst(flags: seq<bool>, n: nat, i: nat)
    requires i < |flags|
  {
    flags[i] && Tally(flags[..i]) < n
  }

  /** The slots after the first `n` eligible fences were completed with an error. */
  function Complete(slots: seq<Slot>, flags: seq<bool>, n: nat): (after: seq<Slot>)
    requires |flags| == |slots| && forall i :: 0 <= i < |slots| && flags[i] ==> slots[i].Busy?
    ensures |after| == |slots|
    ensures forall i :: 0 <= i < |slots| ==>
      after[i] == if AmongFirst(flags, n, i) then slots[i].(signaled := true, error := -ECANCELED) else slots[i]
  {
    seq(|slots|, i requires 0 <= i < |slots| =>
      if AmongFirst(flags, n, i) then slots[i].(signaled := true, error := -ECANCELED) else slots[i])
  }

  function Reap(slots: seq<Slot>, hwSeq: int, now: int, grace: int): seq<Slot> {
    Complete(slots, EligibleFlags(slots, hwSeq, now, grace), BATCH)
  }

  function SlotOf(f: Fence?): Slot
    reads if f != null then {f} else {}
  {
    if f == null then Empty else Busy(f.seqno, f.start, f.signaled, f.error, f.refs)
  }

  ghost function FencesIn(fences: seq<Fence?>): set<Fence> {
    set i | 0 <= i < |fences| && fences[i] != null :: fences[i]
  }

  ghost function Snapshot(fences: seq<Fence?>): (slots: seq<Slot>)
    reads FencesIn(fences)
    ensures |slots| == |fences|
    ensures forall i :: 0 <= i < |fences| ==> slots[i] == SlotOf(fences[i])
  {
    seq(|fences|, i requires 0 <= i < |fences| reads FencesIn(fences) => SlotOf(fences[i]))
  }

  /** A fence sits in one slot only. */
  ghost predicate Distinct(fences: seq<Fence?>) {
    forall i, j :: 0 <= i < j < |fences| && fences[i] != null ==> fences[i] != fences[j]
  }

  /** The batch holds, in slot order, the flagged fences below `stop`. */
  ghost predicate Batched(ring: seq<Fence?>, flags: seq<bool>, stop: nat, batch: seq<Fence?>, at: seq<nat>) {
    && |flags| == |ring| && stop <= |ring|
    && |batch| == |at| == Tally(flags[..stop])
    && (forall k :: 0 <= k < |at| ==>
          at[k] < stop && flags[at[k]] && Tally(flags[..at[k]]) == k && batch[k] != null && ring[at[k]] == batch[k])
  }

  lemma BatchedStep(ring: seq<Fence?>, flags: seq<bool>, i: nat, batch: seq<Fence?>, at: seq<nat>)
    requires Batched(ring, flags, i, batch, at) && i < |ring|
    ensures !flags[i] ==> Batched(ring, flags, i + 1, batch, at)
    ensures flags[i] && ring[i] != null ==> Batched(ring, flags, i + 1, batch + [ring[i]], at + [i])
  {
    TallyStep(flags, i);
  }

  /** The flagged fences below `stop`, in slot order, and their slots. */
  function Picked(ring: seq<Fence?>, flags: seq<bool>, stop: nat): seq<Fence?>
    requires stop <= |ring| == |flags|
  {
    if stop == 0 then [] else Picked(ring, flags, stop - 1) + if flags[stop - 1] then [ring[stop - 1]] else []
  }

  function PickedAt(flags: seq<bool>, stop: nat): seq<nat>
    requires stop <= |flags|
  {
    if stop == 0 then [] else PickedAt(flags, stop - 1) + if flags[stop - 1] then [stop - 1] else []
  }

  lemma {:induction false} PickedIsBatched(ring: seq<Fence?>, flags: seq<bool>, stop: nat)
    requires stop <= |ring| == |flags| && forall i :: 0 <= i < |ring| && flags[i] ==> ring[i] != null
    ensures Batched(ring, flags, stop, Picked(ring, flags, stop), PickedAt(flags, stop))
  {
    if stop > 0 {
      PickedIsBatched(ring, flags, stop - 1);
      BatchedStep(ring, flags, stop - 1, Picked(ring, flags, stop - 1), PickedAt(flags, stop - 1));
    }
  }

  lemma {:induction false} PickedCount(ring: seq<Fence?>, flags: seq<bool>, stop: nat)
    requires stop <= |ring| == |flags|
    ensures |Picked(ring, flags, stop)| == Tally(flags[..stop])
  {
    if stop > 0 {
      PickedCount(ring, flags, stop - 1);
      TallyStep(flags, stop - 1);
    }
  }

  /** The first loop: picks eligible fences into the batch and takes a reference to each. */
  method PickStranded(ring: array<Fence?>, stranded: array<Fence?>, hwSeq: int, now: int, grace: int)
    returns (n: nat, ghost stop: nat)
    requires Distinct(ring[..]) && stranded.Length == BATCH && stranded != ring
    modifies stranded, FencesIn(ring[..])
    ensures ring[..] == old(ring[..]) && n <= BATCH
    ensures var before := old(Snapshot(ring[..]));
            var flags := EligibleFlags(before, hwSeq, now, grace);
            && stop <= ring.Length && stranded[..n] == Picked(ring[..], flags, stop)
            && (n < BATCH ==> stop == ring.Length)
            && forall j :: 0 <= j < ring.Length ==>
                 SlotOf(ring[..][j]) == if j < stop && flags[j] then before[j].(refs := before[j].refs + 1) else before[j]
  {
    ghost var slots := ring[..];
    ghost var before := Snapshot(slots);
    ghost var flags := EligibleFlags(before, hwSeq, now, grace);
    n := 0;
    var i: nat := 0;
    while i < ring.Length && n < BATCH
      invariant 0 <= i <= ring.Length && n <= BATCH && ring[..] == slots
      invariant stranded[..n] == Picked(slots, flags, i)
      invariant forall j :: 0 <= j < |slots| && slots[j] != null ==>
        && slots[j].signaled == before[j].signaled && slots[j].error == before[j].error
        && slots[j].refs == before[j].refs + if j < i && flags[j] then 1 else 0
    {
      var fence := ring[i];
      assert fence == slots[i];
      if fence != null && !fence.signaled && Int32(hwSeq - fence.seqno) > 0 && now >= fence.start + grace {
        ghost var batch := stranded[..n];
        stranded[n] := fence;
        n := n + 1;
        assert stranded[..n] == batch + [fence];
        fence.refs := fence.refs + 1;
      }
      i := i + 1;
    }
    stop := i;
  }

  /** The second loop: completes each picked fence and drops its reference. */
  method SignalStranded(ghost ring: seq<Fence?>, stranded: array<Fence?>, n: nat,
                        ghost before: seq<Slot>, ghost flags: seq<bool>, ghost stop: nat)
    requires Distinct(ring) && n <= stranded.Length
    requires stop <= |before| == |ring| == |flags| && stranded[..n] == Picked(ring, flags, stop)
    requires forall j :: 0 <= j < |ring| && flags[j] ==> before[j].Busy? && ring[j] != null
    requires forall j :: 0 <= j < |ring| ==>
      SlotOf(ring[j]) == if j < stop && flags[j] then before[j].(refs := before[j].refs + 1) else before[j]
    modifies FencesIn(ring)
    ensures forall j :: 0 <= j < |ring| ==>
      SlotOf(ring[j]) == if j < stop && flags[j] then before[j].(signaled := true, error := -ECANCELED) else before[j]
  {
    ghost var rank := seq(|ring|, j requires 0 <= j < |flags| => Tally(flags[..j]));
    ghost var batch, at := stranded[..n], PickedAt(flags, stop);
    PickedIsBatched(ring, flags, stop);
    for k := 0 to n
      invariant stranded[..n] == batch
      invariant forall j :: 0 <= j < |ring| ==>
        SlotOf(ring[j]) ==
          if !(j < stop && flags[j]) then before[j]
          else if rank[j] < k then before[j].(signaled := true, error := -ECANCELED)
          else before[j].(refs := before[j].refs + 1)
    {
      var fence := stranded[k];
      assert fence == batch[k] && fence == ring[at[k]];
      forall j | 0 <= j < stop && flags[j] && rank[j] == k
        ensures j == at[k]
      {
        SameRank(flags, j, at[k]);
      }
      fence.error := -ECANCELED;
      fence.signaled := true;
      fence.refs := fence.refs - 1;
    }
    forall j | 0 <= j < stop && flags[j]
      ensures rank[j] < n
    {
      TallyStep(flags, j);
      TallyPrefix(flags, j + 1, stop);
    }
  }

  lemma SameRank(flags: seq<bool>, i: nat, j: nat)
    requires i < |flags| && j < |flags| && flags[i] && flags[j]
    requires Tally(flags[..i]) == Tally(flags[..j])
    ensures i == j
  {
    if i < j {
      TallyStep(flags, i);
      TallyPrefix(flags, i + 1, j);
    } else if j < i {
      TallyStep(flags, j);
      TallyPrefix(flags, j + 1, i);
    }
  }

  /** One run of the reaper: exactly the first 32 eligible fences, by slot, are completed with
      -ECANCELED; every other slot is as before, and all references are given back. */
  method ReapStranded(ring: array<Fence?>, hwSeq: int, now: int, grace: int) returns (n: nat)
    requires Distinct(ring[..])
    modifies FencesIn(ring[..])
    ensures ring[..] == old(ring[..])
    ensures Snapshot(ring[..]) == Reap(old(Snapshot(ring[..])), hwSeq, now, grace)
    ensures n == Min(Tally(EligibleFlags(old(Snapshot(ring[..])), hwSeq, now, grace)), BATCH)
  {
    ghost var slots := ring[..];
    ghost var before := Snapshot(slots);
    ghost var flags := EligibleFlags(before, hwSeq, now, grace);
    var stranded := new Fence?[BATCH](_ => null);
    ghost var stop;
    n, stop := PickStranded(ring, stranded, hwSeq, now, grace);
    PickedCount(slots, flags, stop);
    SignalStranded(slots, stranded, n, before, flags, stop);
    BatchIsFirst(flags, stop);
    assert ring[..] == slots;
    assert Snapshot(slots) == Reap(before, hwSeq, now, grace);
  }

  lemma BatchIsFirst(flags: seq<bool>, stop: nat)
    requires stop <= |flags| && Tally(flags[..stop]) <= BATCH
    requires Tally(flags[..stop]) < BATCH ==> stop == |flags|
    ensures forall j :: 0 <= j < |flags| ==> (j < stop && flags[j] <==> AmongFirst(flags, BATCH, j))
    ensures Tally(flags[..stop]) == Min(Tally(flags), BATCH)
  {
    assert flags[..|flags|] == flags;
    TallyPrefix(flags, stop, |flags|);
    forall j | 0 <= j < |flags| && flags[j]
      ensures j < stop <==> Tally(flags[..j]) < BATCH
    {
      if j < stop {
        TallyStep(flags, j);
        TallyPrefix(flags, j + 1, stop);
      } else {
        TallyPrefix(flags, stop, j);
      }
    }
  }

  // ---- Safety and progress -----------------------------------------------------------------

  /** The true positions behind the 32-bit numbers: each fence is less than half a wrap away. */
  ghost predicate Positions(slots: seq<Slot>, hardware: int, positions: seq<int>) {
    && |positions| == |slots|
    && forall i :: 0 <= i < |slots| && slots[i].Busy? ==>
         slots[i].seqno == positions[i] % WRAP && -0x8000_0000 <= hardware - positions[i] < 0x8000_0000
  }

  /** Whatever the reaper changes was an unsignaled fence strictly behind the hardware for at least
      the grace period, it is completed with the error, and its reference count is kept. */
  lemma ReapsOnlyStranded(slots: seq<Slot>, hardware: int, positions: seq<int>, now: int, grace: int, i: nat)
    requires Positions(slots, hardware, positions) && i < |slots|
    ensures var after := Reap(slots, hardware % WRAP, now, grace)[i];
            after != slots[i] ==>
              && slots[i].Busy? && !slots[i].signaled
              && positions[i] < hardware
              && now - slots[i].start >= grace
              && after == slots[i].(signaled := true, error := -125)
              && after.refs == slots[i].refs
  {
    PassedIsAhead(hardware, positions[i]);
  }

  /** Conversely a stranded fence is completed unless 32 others come before it. */
  lemma ReapsStranded(slots: seq<Slot>, hardware: int, positions: seq<int>, now: int, grace: int, i: nat)
    requires Positions(slots, hardware, positions) && i < |slots|
    requires slots[i].Busy? && !slots[i].signaled && positions[i] < hardware && now - slots[i].start >= grace
    ensures Reap(slots, hardware % WRAP, now, grace)[i].signaled <==>
            Tally(EligibleFlags(slots, hardware % WRAP, now, grace)[..i]) < 32
  {
    PassedIsAhead(hardware, positions[i]);
  }

  function Calls(slots: seq<Slot>, c: nat, hwSeq: int, now: int, grace: int): (after: seq<Slot>)
    ensures |after| == |slots|
  {
    if c == 0 then slots else Reap(Calls(slots, c - 1, hwSeq, now, grace), hwSeq, now, grace)
  }

  lemma {:induction false} RankAfter(flags: seq<bool>, rest: seq<bool>, n: nat, i: nat)
    requires |rest| == |flags| && i <= |flags|
    requires forall j :: 0 <= j < |flags| ==> (rest[j] <==> flags[j] && !AmongFirst(flags, n, j))
    ensures Tally(rest[..i]) == if Tally(flags[..i]) <= n then 0 else Tally(flags[..i]) - n
  {
    if i > 0 {
      RankAfter(flags, rest, n, i - 1);
      TallyStep(flags, i - 1);
      TallyStep(rest, i - 1);
    }
  }

  /** c calls with the hardware and the clock standing still complete the first 32 c fences. */
  lemma {:induction false} CallsComplete(slots: seq<Slot>, c: nat, hwSeq: int, now: int, grace: int)
    ensures Calls(slots, c, hwSeq, now, grace) == Complete(slots, EligibleFlags(slots, hwSeq, now, grace), c * BATCH)
  {
    var flags := EligibleFlags(slots, hwSeq, now, grace);
    if c > 0 {
      CallsComplete(slots, c - 1, hwSeq, now, grace);
      var n := (c - 1) * BATCH;
      var mid := Complete(slots, flags, n);
      var rest := EligibleFlags(mid, hwSeq, now, grace);
      forall i | 0 <= i < |slots|
        ensures AmongFirst(rest, BATCH, i) <==> AmongFirst(flags, n + BATCH, i) && !AmongFirst(flags, n, i)
      {
        RankAfter(flags, rest, n, i);
      }
      assert Reap(mid, hwSeq, now, grace) == Complete(slots, flags, n + BATCH);
    }
  }

  /** k stranded fences are all gone after c calls exactly when 32 c reaches k: the backlog of one
      moment needs k / 32 calls, rounded up, and no more. */
  lemma BacklogCleared(slots: seq<Slot>, c: nat, hwSeq: int, now: int, grace: int)
    ensures var k := Tally(EligibleFlags(slots, hwSeq, now, grace));
            var left := Tally(EligibleFlags(Calls(slots, c, hwSeq, now, grace), hwSeq, now, grace));
            && left == (if k <= c * 32 then 0 else k - c * 32)
            && (left == 0 <==> c >= (k + 31) / 32)
  {
    CallsComplete(slots, c, hwSeq, now, grace);
    var flags := EligibleFlags(slots, hwSeq, now, grace);
    var rest := EligibleFlags(Calls(slots, c, hwSeq, now, grace), hwSeq, now, grace);
    RankAfter(flags, rest, c * BATCH, |flags|);
    assert rest[..|flags|] == rest && flags[..|flags|] == flags;
  }
}
