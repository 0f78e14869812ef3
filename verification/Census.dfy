/**
 The census of tasks in uninterruptible sleep: per-task clocks keyed by (tid, start time), totals,
 and the list of the longest-stuck tasks.
 */
module Census {
  import opened Wrappers
  import opened Clock
  import opened Tallies
  import opened Streaks
  import opened StatParser

  /** Where a task sleeps: refused by the kernel, or a symbol that may be empty. */
  datatype Wchan = Denied | Symbol(name: string)

  /** One thread found under /proc. `raw` is its stat line, None when it could not be read. */
  datatype Entry = Entry(pid: string, tid: string, raw: Option<string>, wchan: Wchan)

  /** `readStat` is the stat parser; the program's is `StatParser.ReadStat`. `tenths` is whatever
      rounding is applied to seconds before they are reported. */
  datatype Config = Config(
    stuckSeconds: Time, prefixes: seq<string>, substrings: seq<string>,
    readStat: string -> Option<Stat>, tenths: Time -> Time)

  datatype Key = Key(tid: string, starttime: int)

  datatype Offender = Offender(tid: string, pid: string, comm: string, wchan: string, denied: bool, seconds: Time, gpu: bool)

  datatype Report = Report(
    total: nat, stuck: nat, gpuTotal: nat, gpuStuck: nat,
    maxSeconds: Time, gpuMaxSeconds: Time,
    readable: bool, wchanDenied: nat, offenders: seq<Offender>
  )

  const BLIND := Report(0, 0, 0, 0, 0.0, 0.0, false, 0, [])

  // ---- One task --------------------------------------------------------------------------

  function StatOf(cfg: Config, e: Entry): Option<Stat> {
    match e.raw case None => None case Some(raw) => cfg.readStat(raw)
  }

  predicate InD(cfg: Config, e: Entry) {
    StatOf(cfg, e).Some? && StatOf(cfg, e).value.state == "D"
  }

  function KeyOf(cfg: Config, e: Entry): Key
    requires InD(cfg, e)
  {
    Key(e.tid, StatOf(cfg, e).value.starttime)
  }

  predicate Contains(text: string, part: string) {
    part <= text || (text != "" && Contains(text[1..], part))
  }

  predicate IsGpu(cfg: Config, comm: string, wchan: Wchan) {
    if wchan.Symbol? && wchan.name != "" then
      exists k :: 0 <= k < |cfg.substrings| && Contains(wchan.name, cfg.substrings[k])
    else
      exists k :: 0 <= k < |cfg.prefixes| && cfg.prefixes[k] <= comm
  }

  predicate GpuTask(cfg: Config, e: Entry) {
    InD(cfg, e) && IsGpu(cfg, StatOf(cfg, e).value.comm, e.wchan)
  }

  /** Seconds in D, by the clocks from before this pass. */
  function Seconds(cfg: Config, since: map<Key, Time>, e: Entry, now: Time): Time
    requires InD(cfg, e)
  {
    now - if KeyOf(cfg, e) in since then since[KeyOf(cfg, e)] else now
  }

  predicate Stuck(cfg: Config, since: map<Key, Time>, e: Entry, now: Time) {
    InD(cfg, e) && Seconds(cfg, since, e, now) >= cfg.stuckSeconds
  }

  function OffenderOf(cfg: Config, since: map<Key, Time>, e: Entry, now: Time): Offender
    requires InD(cfg, e)
  {
    OffenderWith(e.pid, e.tid, StatOf(cfg, e).value.comm, e.wchan, cfg.tenths(Seconds(cfg, since, e, now)), GpuTask(cfg, e))
  }

  // ---- Totals ----------------------------------------------------------------------------

  datatype Kind = Any | StuckAny | Gpu | StuckGpu | DeniedAny

  predicate Is(cfg: Config, since: map<Key, Time>, e: Entry, now: Time, kind: Kind) {
    match kind
    case Any => InD(cfg, e)
    case StuckAny => Stuck(cfg, since, e, now)
    case Gpu => GpuTask(cfg, e)
    case StuckGpu => Stuck(cfg, since, e, now) && GpuTask(cfg, e)
    case DeniedAny => InD(cfg, e) && e.wchan.Denied?
  }

  function Flags(cfg: Config, since: map<Key, Time>, entries: seq<Entry>, now: Time, kind: Kind): (flags: seq<bool>)
    ensures |flags| == |entries|
    ensures forall i :: 0 <= i < |entries| ==> flags[i] == Is(cfg, since, entries[i], now, kind)
  {
    seq(|entries|, i requires 0 <= i < |entries| => Is(cfg, since, entries[i], now, kind))
  }

  function Number(cfg: Config, since: map<Key, Time>, entries: seq<Entry>, now: Time, kind: Kind): nat {
    Tally(Flags(cfg, since, entries, now, kind))
  }

  lemma NumberStep(cfg: Config, since: map<Key, Time>, entries: seq<Entry>, e: Entry, now: Time, kind: Kind)
    ensures Number(cfg, since, entries + [e], now, kind) ==
            Number(cfg, since, entries, now, kind) + Bit(Is(cfg, since, e, now, kind))
  {
    assert Flags(cfg, since, entries + [e], now, kind)[..|entries|] == Flags(cfg, since, entries, now, kind);
  }

  /** The keys of the tasks in D. */
  function Seen(cfg: Config, entries: seq<Entry>): set<Key> {
    set e | e in entries && InD(cfg, e) :: KeyOf(cfg, e)
  }

  /** The largest of zero and the seconds of the tasks of this kind. */
  function MaxSeconds(cfg: Config, since: map<Key, Time>, entries: seq<Entry>, now: Time, kind: Kind): Time {
    if entries == [] then 0.0
    else
      var e, before := entries[|entries| - 1], MaxSeconds(cfg, since, entries[..|entries| - 1], now, kind);
      if InD(cfg, e) && Is(cfg, since, e, now, kind) then Longer(Seconds(cfg, since, e, now), before) else before
  }

  ghost predicate IsMax(cfg: Config, since: map<Key, Time>, entries: seq<Entry>, now: Time, kind: Kind, m: Time) {
    && m >= 0.0
    && (forall i :: 0 <= i < |entries| && InD(cfg, entries[i]) && Is(cfg, since, entries[i], now, kind) ==>
          Seconds(cfg, since, entries[i], now) <= m)
    && (m > 0.0 ==> exists i :: 0 <= i < |entries| && InD(cfg, entries[i]) && Is(cfg, since, entries[i], now, kind)
                                && Seconds(cfg, since, entries[i], now) == m)
  }

  lemma {:induction false} MaxIsMax(cfg: Config, since: map<Key, Time>, entries: seq<Entry>, now: Time, kind: Kind)
    ensures IsMax(cfg, since, entries, now, kind, MaxSeconds(cfg, since, entries, now, kind))
  {
    if entries != [] {
      var init, e := entries[..|entries| - 1], entries[|entries| - 1];
      MaxIsMax(cfg, since, init, now, kind);
      var m, m' := MaxSeconds(cfg, since, init, now, kind), MaxSeconds(cfg, since, entries, now, kind);
      if m' > 0.0 && m' == m {
        var i :| 0 <= i < |init| && InD(cfg, init[i]) && Is(cfg, since, init[i], now, kind)
                 && Seconds(cfg, since, init[i], now) == m;
        assert entries[i] == init[i];
      }
      forall i | 0 <= i < |entries| && InD(cfg, entries[i]) && Is(cfg, since, entries[i], now, kind)
        ensures Seconds(cfg, since, entries[i], now) <= m'
      {
        assert i < |init| ==> entries[i] == init[i];
      }
    }
  }

  function StuckList(cfg: Config, since: map<Key, Time>, entries: seq<Entry>, now: Time): seq<Offender> {
    if entries == [] then []
    else
      var e := entries[|entries| - 1];
      StuckList(cfg, since, entries[..|entries| - 1], now) +
      if Stuck(cfg, since, e, now) then [OffenderOf(cfg, since, e, now)] else []
  }

  // ---- Sorting, longest first --------------------------------------------------------------

  /** Inserts behind every entry that is at least as long: equal entries keep their order. */
  function Insert(sorted: seq<Offender>, o: Offender): seq<Offender> {
    if sorted == [] || sorted[|sorted| - 1].seconds >= o.seconds then sorted + [o]
    else Insert(sorted[..|sorted| - 1], o) + [sorted[|sorted| - 1]]
  }

  function LongestFirst(offenders: seq<Offender>): seq<Offender> {
    if offenders == [] then []
    else Insert(LongestFirst(offenders[..|offenders| - 1]), offenders[|offenders| - 1])
  }

  ghost predicate Descending(offenders: seq<Offender>) {
    forall i, j :: 0 <= i < j < |offenders| ==> offenders[i].seconds >= offenders[j].seconds
  }

  lemma {:induction false} InsertKeepsAll(sorted: seq<Offender>, o: Offender)
    ensures multiset(Insert(sorted, o)) == multiset(sorted) + multiset{o}
    ensures |Insert(sorted, o)| == |sorted| + 1
  {
    if sorted != [] && sorted[|sorted| - 1].seconds < o.seconds {
      var init, last := sorted[..|sorted| - 1], sorted[|sorted| - 1];
      InsertKeepsAll(init, o);
      assert sorted == init + [last];
    }
  }

  lemma {:induction false} InsertSorts(sorted: seq<Offender>, o: Offender)
    requires Descending(sorted)
    ensures Descending(Insert(sorted, o))
  {
    if sorted != [] && sorted[|sorted| - 1].seconds < o.seconds {
      var init, last := sorted[..|sorted| - 1], sorted[|sorted| - 1];
      InsertSorts(init, o);
      var head := Insert(init, o);
      forall i | 0 <= i < |head|
        ensures head[i].seconds >= last.seconds
      {
        InsertKeepsAll(init, o);
        assert head[i] in multiset(init) + multiset{o};
        assert head[i] == o || head[i] in init;
      }
    }
  }

  lemma {:induction false} LongestFirstSorts(offenders: seq<Offender>)
    ensures Descending(LongestFirst(offenders))
  {
    if offenders != [] {
      var init, last := offenders[..|offenders| - 1], offenders[|offenders| - 1];
      LongestFirstSorts(init);
      InsertSorts(LongestFirst(init), last);
    }
  }

  lemma Appended<T>(s: seq<T>, x: T)
    ensures multiset(s + [x]) == multiset(s) + multiset{x}
  {
  }

  lemma {:induction false} LongestFirstKeepsAll(offenders: seq<Offender>)
    ensures multiset(LongestFirst(offenders)) == multiset(offenders)
    ensures |LongestFirst(offenders)| == |offenders|
  {
    if offenders != [] {
      var init, last := offenders[..|offenders| - 1], offenders[|offenders| - 1];
      assert offenders == init + [last];
      LongestFirstKeepsAll(init);
      InsertStep(LongestFirst(init), init, last);
    }
  }

  lemma InsertStep(sorted: seq<Offender>, init: seq<Offender>, last: Offender)
    requires multiset(sorted) == multiset(init) && |sorted| == |init|
    ensures multiset(Insert(sorted, last)) == multiset(init + [last]) && |Insert(sorted, last)| == |init + [last]|
  {
    InsertKeepsAll(sorted, last);
    Appended(init, last);
  }

  function Top(offenders: seq<Offender>): seq<Offender> {
    if |offenders| <= 20 then offenders else offenders[..20]
  }

  // ---- The collector -----------------------------------------------------------------------

  class DStateCensus {
    const cfg: Config
    var since: map<Key, Time>

    constructor (cfg: Config)
      ensures this.cfg == cfg && since == map[]
    {
      this.cfg, since := cfg, map[];
    }

    /** Counts one task that was found in D. */
    method Count(r0: Report, pid: string, tid: string, comm: string, wchan: Wchan, secs: Time) returns (r: Report)
      ensures r == PlusTask(cfg, r0, pid, tid, comm, wchan, secs)
    {
      r := r0;
      var denied := wchan.Denied?;
      if denied {
        r := r.(wchanDenied := r.wchanDenied + 1);
      }
      r := r.(total := r.total + 1);
      r := r.(maxSeconds := if secs > r.maxSeconds then secs else r.maxSeconds);
      var gpu := IsGpu(cfg, comm, wchan);
      if gpu {
        r := r.(gpuTotal := r.gpuTotal + 1);
        r := r.(gpuMaxSeconds := if secs > r.gpuMaxSeconds then secs else r.gpuMaxSeconds);
      }
      if secs >= cfg.stuckSeconds {
        r := r.(stuck := r.stuck + 1);
        if gpu {
          r := r.(gpuStuck := r.gpuStuck + 1);
        }
        var o := Offender(tid, pid, comm, if denied then "" else wchan.name, denied, cfg.tenths(secs), gpu);
        r := r.(offenders := r.offenders + [o]);
      }
    }

    /** Walks the listing: starts clocks and counts, but forgets nothing yet. */
    method Walk(now: Time, entries: seq<Entry>) returns (seen: set<Key>, r: Report)
      modifies this
      ensures Scan(seen, since, r) == ScanAll(cfg, old(since), entries, now)
    {
      seen := {};
      r := Report(0, 0, 0, 0, 0.0, 0.0, true, 0, []);
      for k := 0 to |entries|
        invariant Scan(seen, since, r) == ScanAll(cfg, old(since), entries[..k], now)
      {
        var e := entries[k];
        ScanOneMore(cfg, old(since), entries, now, k);
        var stat := StatOf(cfg, e);
        if stat.None? || stat.value.state != "D" {
          continue;
        }
        var key := Key(e.tid, stat.value.starttime);
        seen := seen + {key};
        if key !in since {
          since := since[key := now];
        }
        r := Count(r, e.pid, e.tid, stat.value.comm, e.wchan, now - since[key]);
      }
      assert entries[..|entries|] == entries;
    }

    /** One pass at time `now`; `listing` is None when /proc cannot be listed. */
    method Collect(now: Time, listing: Option<seq<Entry>>) returns (r: Report)
      modifies this
      ensures since == if listing.None? then old(since) else Advance(old(since), Seen(cfg, listing.value), now)
      ensures r == ReportOf(cfg, old(since), listing, now)
    {
      if listing.None? {
        return BLIND;
      }
      var seen;
      seen, r := Walk(now, listing.value);
      ghost var s := Scan(seen, since, r);
      since := map key | key in since && key in seen :: since[key];
      r := r.(maxSeconds := cfg.tenths(r.maxSeconds), gpuMaxSeconds := cfg.tenths(r.gpuMaxSeconds),
              offenders := Top(LongestFirst(r.offenders)));
      ScanEnds(cfg, old(since), listing.value, now, s, since, r);
    }
  }

  /** What there is to count, each number on its own. */
  function CountOf(cfg: Config, since: map<Key, Time>, entries: seq<Entry>, now: Time): Report {
    Report(
      Number(cfg, since, entries, now, Any),
      Number(cfg, since, entries, now, StuckAny),
      Number(cfg, since, entries, now, Gpu),
      Number(cfg, since, entries, now, StuckGpu),
      MaxSeconds(cfg, since, entries, now, Any),
      MaxSeconds(cfg, since, entries, now, Gpu),
      true,
      Number(cfg, since, entries, now, DeniedAny),
      StuckList(cfg, since, entries, now))
  }

  /** What is reported of a count: rounded maxima and the head of the list, longest first. */
  function Shown(cfg: Config, r: Report): Report {
    r.(maxSeconds := cfg.tenths(r.maxSeconds), gpuMaxSeconds := cfg.tenths(r.gpuMaxSeconds),
       offenders := Top(LongestFirst(r.offenders)))
  }

  /** The report of one pass, by the clocks from before it. */
  function ReportOf(cfg: Config, since: map<Key, Time>, listing: Option<seq<Entry>>, now: Time): Report {
    match listing case None => BLIND case Some(entries) => Shown(cfg, CountOf(cfg, since, entries, now))
  }

  function Bit(b: bool): nat {
    if b then 1 else 0
  }

  function OffenderWith(pid: string, tid: string, comm: string, wchan: Wchan, secs: Time, gpu: bool): Offender {
    Offender(tid, pid, comm, if wchan.Denied? then "" else wchan.name, wchan.Denied?, secs, gpu)
  }

  /** The report after one more task in D. */
  function PlusTask(cfg: Config, r: Report, pid: string, tid: string, comm: string, wchan: Wchan, secs: Time): Report {
    var gpu, stuck := IsGpu(cfg, comm, wchan), secs >= cfg.stuckSeconds;
    Report(
      r.total + 1, r.stuck + Bit(stuck), r.gpuTotal + Bit(gpu), r.gpuStuck + Bit(stuck && gpu),
      Longer(secs, r.maxSeconds), if gpu then Longer(secs, r.gpuMaxSeconds) else r.gpuMaxSeconds,
      r.readable, r.wchanDenied + Bit(wchan.Denied?),
      if stuck then r.offenders + [OffenderWith(pid, tid, comm, wchan, cfg.tenths(secs), gpu)] else r.offenders)
  }

  /** The scan's variables, and what one entry does to them. */
  datatype Scan = Scan(seen: set<Key>, since: map<Key, Time>, report: Report)

  function ScanStep(cfg: Config, s: Scan, e: Entry, now: Time): Scan {
    if !InD(cfg, e) then s
    else
      var key := KeyOf(cfg, e);
      var since := if key in s.since then s.since else s.since[key := now];
      Scan(s.seen + {key}, since,
           PlusTask(cfg, s.report, e.pid, e.tid, StatOf(cfg, e).value.comm, e.wchan, now - since[key]))
  }

  function ScanAll(cfg: Config, before: map<Key, Time>, entries: seq<Entry>, now: Time): Scan {
    if entries == [] then Scan({}, before, BLIND.(readable := true))
    else ScanStep(cfg, ScanAll(cfg, before, entries[..|entries| - 1], now), entries[|entries| - 1], now)
  }

  lemma ScanOneMore(cfg: Config, before: map<Key, Time>, entries: seq<Entry>, now: Time, k: nat)
    requires k < |entries|
    ensures ScanAll(cfg, before, entries[..k + 1], now) == ScanStep(cfg, ScanAll(cfg, before, entries[..k], now), entries[k], now)
  {
    assert entries[..k + 1][..k] == entries[..k];
  }

  /** The clocks while the listing is walked: those from before, and new ones for the keys seen. */
  ghost predicate Walked(before: map<Key, Time>, seen: set<Key>, now: Time, since: map<Key, Time>) {
    forall key ::
      && (key in since <==> key in before || key in seen)
      && (key in since ==> since[key] == if key in before then before[key] else now)
  }

  lemma WalkedStep(before: map<Key, Time>, seen: set<Key>, now: Time, since: map<Key, Time>, key: Key)
    requires Walked(before, seen, now, since)
    ensures Walked(before, seen + {key}, now, if key in since then since else since[key := now])
    ensures now - (if key in since then since[key] else now) == now - (if key in before then before[key] else now)
  {
  }

  lemma SeenStep(cfg: Config, entries: seq<Entry>, e: Entry)
    ensures Seen(cfg, entries + [e]) == Seen(cfg, entries) + if InD(cfg, e) then {KeyOf(cfg, e)} else {}
  {
  }

  lemma MaxStep(cfg: Config, since: map<Key, Time>, entries: seq<Entry>, e: Entry, now: Time, kind: Kind)
    ensures MaxSeconds(cfg, since, entries + [e], now, kind) ==
            if InD(cfg, e) && Is(cfg, since, e, now, kind)
            then Longer(Seconds(cfg, since, e, now), MaxSeconds(cfg, since, entries, now, kind))
            else MaxSeconds(cfg, since, entries, now, kind)
  {
    assert (entries + [e])[..|entries|] == entries;
  }

  lemma StuckStep(cfg: Config, since: map<Key, Time>, entries: seq<Entry>, e: Entry, now: Time)
    ensures StuckList(cfg, since, entries + [e], now) ==
            StuckList(cfg, since, entries, now) + if Stuck(cfg, since, e, now) then [OffenderOf(cfg, since, e, now)] else []
  {
    assert (entries + [e])[..|entries|] == entries;
  }

  /** A task in D is added to every count it belongs to. */
  lemma CountStep(cfg: Config, since: map<Key, Time>, entries: seq<Entry>, e: Entry, now: Time)
    requires InD(cfg, e)
    ensures CountOf(cfg, since, entries + [e], now) ==
            PlusTask(cfg, CountOf(cfg, since, entries, now), e.pid, e.tid, StatOf(cfg, e).value.comm, e.wchan,
                     Seconds(cfg, since, e, now))
  {
    NumberStep(cfg, since, entries, e, now, Any);
    NumberStep(cfg, since, entries, e, now, StuckAny);
    NumberStep(cfg, since, entries, e, now, Gpu);
    NumberStep(cfg, since, entries, e, now, StuckGpu);
    NumberStep(cfg, since, entries, e, now, DeniedAny);
    MaxStep(cfg, since, entries, e, now, Any);
    MaxStep(cfg, since, entries, e, now, Gpu);
    StuckStep(cfg, since, entries, e, now);
  }

  lemma NoCountStep(cfg: Config, since: map<Key, Time>, entries: seq<Entry>, e: Entry, now: Time)
    requires !InD(cfg, e)
    ensures CountOf(cfg, since, entries + [e], now) == CountOf(cfg, since, entries, now)
  {
    NumberStep(cfg, since, entries, e, now, Any);
    NumberStep(cfg, since, entries, e, now, StuckAny);
    NumberStep(cfg, since, entries, e, now, Gpu);
    NumberStep(cfg, since, entries, e, now, StuckGpu);
    NumberStep(cfg, since, entries, e, now, DeniedAny);
    MaxStep(cfg, since, entries, e, now, Any);
    MaxStep(cfg, since, entries, e, now, Gpu);
    StuckStep(cfg, since, entries, e, now);
  }

  /** What holds of the scan after the first part of the listing. */
  ghost predicate Walking(cfg: Config, before: map<Key, Time>, entries: seq<Entry>, now: Time, s: Scan) {
    && Walked(before, s.seen, now, s.since)
    && s.seen == Seen(cfg, entries)
    && s.report == CountOf(cfg, before, entries, now)
  }

  lemma ScanStepMeans(cfg: Config, before: map<Key, Time>, entries: seq<Entry>, e: Entry, now: Time, s: Scan)
    requires Walking(cfg, before, entries, now, s)
    ensures Walking(cfg, before, entries + [e], now, ScanStep(cfg, s, e, now))
  {
    SeenStep(cfg, entries, e);
    if InD(cfg, e) {
      var key := KeyOf(cfg, e);
      WalkedStep(before, s.seen, now, s.since, key);
      CountStep(cfg, before, entries, e, now);
      var since := if key in s.since then s.since else s.since[key := now];
      assert now - since[key] == Seconds(cfg, before, e, now);
    } else {
      NoCountStep(cfg, before, entries, e, now);
    }
  }

  lemma NothingCounted(cfg: Config, since: map<Key, Time>, now: Time)
    ensures CountOf(cfg, since, [], now) == BLIND.(readable := true)
  {
    TallyNone([]);
    assert forall kind: Kind :: Flags(cfg, since, [], now, kind) == [];
  }

  /** The scan, with its running clocks, counts what there is to count by the clocks from before. */
  lemma {:induction false} ScanMeans(cfg: Config, before: map<Key, Time>, entries: seq<Entry>, now: Time)
    ensures Walking(cfg, before, entries, now, ScanAll(cfg, before, entries, now))
  {
    if entries == [] {
      NothingCounted(cfg, before, now);
    } else {
      var init, e := entries[..|entries| - 1], entries[|entries| - 1];
      ScanMeans(cfg, before, init, now);
      ScanStepMeans(cfg, before, init, e, now, ScanAll(cfg, before, init, now));
      assert init + [e] == entries;
    }
  }

  lemma ScanEnds(cfg: Config, before: map<Key, Time>, entries: seq<Entry>, now: Time,
                 s: Scan, since: map<Key, Time>, r: Report)
    requires s == ScanAll(cfg, before, entries, now)
    requires since == (map key | key in s.since && key in s.seen :: s.since[key]) && r == Shown(cfg, s.report)
    ensures since == Advance(before, Seen(cfg, entries), now)
    ensures r == Shown(cfg, CountOf(cfg, before, entries, now))
  {
    ScanMeans(cfg, before, entries, now);
  }

  // ---- A task, by what /proc says of it --------------------------------------------------------

  /** The entry's stat line reads as a task in D with this command name and start time. */
  ghost predicate Sleeps(cfg: Config, e: Entry, comm: string, starttime: int) {
    e.raw.Some? && cfg.readStat(e.raw.value) == Some(Stat(comm, "D", starttime))
  }

  lemma SleepsIff(cfg: Config, e: Entry)
    ensures InD(cfg, e) <==> exists comm, starttime :: Sleeps(cfg, e, comm, starttime)
    ensures forall comm, starttime :: Sleeps(cfg, e, comm, starttime) ==>
              InD(cfg, e) && KeyOf(cfg, e) == Key(e.tid, starttime) && StatOf(cfg, e).value.comm == comm
  {
    if InD(cfg, e) {
      var stat := StatOf(cfg, e).value;
      assert Sleeps(cfg, e, stat.comm, stat.starttime);
    }
  }

  ghost predicate Around(text: string, a: string, part: string, b: string) {
    text == a + part + b
  }

  lemma {:induction false} ContainsIff(text: string, part: string)
    ensures Contains(text, part) <==> exists a, b :: Around(text, a, part, b)
  {
    if part <= text {
      assert Around(text, "", part, text[|part|..]);
    } else if text != "" {
      ContainsIff(text[1..], part);
      if Contains(text[1..], part) {
        var a, b :| Around(text[1..], a, part, b);
        assert text == [text[0]] + text[1..];
        assert [text[0]] + (a + part + b) == [text[0]] + a + part + b;
        assert Around(text, [text[0]] + a, part, b);
      }
    }
    forall a, b | Around(text, a, part, b)
      ensures Contains(text, part)
    {
      AroundIsContained(text, a, part, b);
    }
  }

  lemma {:induction false} AroundIsContained(text: string, a: string, part: string, b: string)
    requires Around(text, a, part, b)
    ensures Contains(text, part)
    decreases |a|
  {
    if a == "" {
      assert text == part + b;
    } else {
      assert text[1..] == a[1..] + part + b;
      AroundIsContained(text[1..], a[1..], part, b);
    }
  }

  /** A GPU task, by name and symbol: if the kernel disclosed a symbol, one that contains a configured
      part, whatever the name; otherwise, denied or empty, a name with a configured beginning. */
  ghost predicate GpuBy(cfg: Config, comm: string, wchan: Wchan) {
    match wchan
    case Symbol(name) =>
      if name != "" then exists k, a, b :: 0 <= k < |cfg.substrings| && Around(name, a, cfg.substrings[k], b)
      else NamedAsGpu(cfg, comm)
    case Denied => NamedAsGpu(cfg, comm)
  }

  ghost predicate NamedAsGpu(cfg: Config, comm: string) {
    exists k, rest :: 0 <= k < |cfg.prefixes| && Around(comm, "", cfg.prefixes[k], rest)
  }

  lemma NamedIff(cfg: Config, comm: string)
    ensures NamedAsGpu(cfg, comm) <==> exists k :: 0 <= k < |cfg.prefixes| && cfg.prefixes[k] <= comm
  {
    forall k | 0 <= k < |cfg.prefixes| && cfg.prefixes[k] <= comm
      ensures NamedAsGpu(cfg, comm)
    {
      assert Around(comm, "", cfg.prefixes[k], comm[|cfg.prefixes[k]|..]);
    }
    forall k, rest | 0 <= k < |cfg.prefixes| && Around(comm, "", cfg.prefixes[k], rest)
      ensures cfg.prefixes[k] <= comm
    {
      assert comm == cfg.prefixes[k] + rest;
    }
  }

  lemma IsGpuIff(cfg: Config, comm: string, wchan: Wchan)
    ensures IsGpu(cfg, comm, wchan) <==> GpuBy(cfg, comm, wchan)
  {
    NamedIff(cfg, comm);
    if wchan.Symbol? && wchan.name != "" {
      forall k | 0 <= k < |cfg.substrings|
        ensures Contains(wchan.name, cfg.substrings[k]) <==> exists a, b :: Around(wchan.name, a, cfg.substrings[k], b)
      {
        ContainsIff(wchan.name, cfg.substrings[k]);
      }
    }
  }

  /** Seconds since the clock of this tid and start time was started, zero if there is none. */
  ghost function Waited(since: map<Key, Time>, e: Entry, starttime: int, now: Time): Time {
    if Key(e.tid, starttime) in since then now - since[Key(e.tid, starttime)] else 0.0
  }

  /** What puts an entry under a total, told by its stat line, its symbol and its clock. */
  ghost predicate Belongs(cfg: Config, since: map<Key, Time>, e: Entry, now: Time, kind: Kind) {
    exists comm, starttime :: Sleeps(cfg, e, comm, starttime) &&
      match kind
      case Any => true
      case StuckAny => Waited(since, e, starttime, now) >= cfg.stuckSeconds
      case Gpu => GpuBy(cfg, comm, e.wchan)
      case StuckGpu => Waited(since, e, starttime, now) >= cfg.stuckSeconds && GpuBy(cfg, comm, e.wchan)
      case DeniedAny => e.wchan == Denied
  }

  lemma BelongsIff(cfg: Config, since: map<Key, Time>, e: Entry, now: Time, kind: Kind)
    ensures Is(cfg, since, e, now, kind) <==> Belongs(cfg, since, e, now, kind)
  {
    SleepsIff(cfg, e);
    if InD(cfg, e) {
      var stat := StatOf(cfg, e).value;
      IsGpuIff(cfg, stat.comm, e.wchan);
      assert Sleeps(cfg, e, stat.comm, stat.starttime);
      assert Seconds(cfg, since, e, now) == Waited(since, e, stat.starttime, now);
    }
  }

  ghost function Those(cfg: Config, since: map<Key, Time>, entries: seq<Entry>, now: Time, kind: Kind): set<int> {
    set i | 0 <= i < |entries| && Belongs(cfg, since, entries[i], now, kind)
  }

  lemma NumberIsCount(cfg: Config, since: map<Key, Time>, entries: seq<Entry>, now: Time, kind: Kind)
    ensures Number(cfg, since, entries, now, kind) == |Those(cfg, since, entries, now, kind)|
  {
    var flags := Flags(cfg, since, entries, now, kind);
    TallyIsCount(flags);
    forall i | 0 <= i < |entries|
      ensures flags[i] <==> Belongs(cfg, since, entries[i], now, kind)
    {
      BelongsIff(cfg, since, entries[i], now, kind);
    }
    assert Those(cfg, since, entries, now, kind) == set i | 0 <= i < |flags| && flags[i];
  }

  /** The five totals of a report are the numbers of the entries that belong under them. */
  lemma TotalsAre(cfg: Config, since: map<Key, Time>, entries: seq<Entry>, now: Time)
    ensures var r := ReportOf(cfg, since, Some(entries), now);
            && r.readable
            && r.total == |Those(cfg, since, entries, now, Any)|
            && r.stuck == |Those(cfg, since, entries, now, StuckAny)|
            && r.gpuTotal == |Those(cfg, since, entries, now, Gpu)|
            && r.gpuStuck == |Those(cfg, since, entries, now, StuckGpu)|
            && r.wchanDenied == |Those(cfg, since, entries, now, DeniedAny)|
  {
    NumberIsCount(cfg, since, entries, now, Any);
    NumberIsCount(cfg, since, entries, now, StuckAny);
    NumberIsCount(cfg, since, entries, now, Gpu);
    NumberIsCount(cfg, since, entries, now, StuckGpu);
    NumberIsCount(cfg, since, entries, now, DeniedAny);
  }

  /** The two maxima of a report are rounded maxima: zero or attained, and not exceeded by any entry
      in D, or any GPU entry in D. */
  lemma MaximaAre(cfg: Config, since: map<Key, Time>, entries: seq<Entry>, now: Time)
    ensures var r := ReportOf(cfg, since, Some(entries), now);
            && (exists m :: IsLongest(cfg, since, entries, now, Any, m) && r.maxSeconds == cfg.tenths(m))
            && (exists m :: IsLongest(cfg, since, entries, now, Gpu, m) && r.gpuMaxSeconds == cfg.tenths(m))
  {
    LongestIsMax(cfg, since, entries, now, Any);
    LongestIsMax(cfg, since, entries, now, Gpu);
  }

  ghost predicate WaitsFor(cfg: Config, since: map<Key, Time>, e: Entry, now: Time, m: Time) {
    exists comm, starttime :: Sleeps(cfg, e, comm, starttime) && Waited(since, e, starttime, now) == m
  }

  ghost predicate IsLongest(cfg: Config, since: map<Key, Time>, entries: seq<Entry>, now: Time, kind: Kind, m: Time) {
    && m >= 0.0
    && (forall i, w :: 0 <= i < |entries| && Belongs(cfg, since, entries[i], now, kind) ==>
          WaitsFor(cfg, since, entries[i], now, w) ==> w <= m)
    && (m > 0.0 ==> exists i :: 0 <= i < |entries| && Belongs(cfg, since, entries[i], now, kind)
                                && WaitsFor(cfg, since, entries[i], now, m))
  }

  lemma WaitsIff(cfg: Config, since: map<Key, Time>, e: Entry, now: Time)
    ensures forall w :: WaitsFor(cfg, since, e, now, w) <==> InD(cfg, e) && Seconds(cfg, since, e, now) == w
  {
    SleepsIff(cfg, e);
    if InD(cfg, e) {
      var stat := StatOf(cfg, e).value;
      assert Sleeps(cfg, e, stat.comm, stat.starttime);
      assert Seconds(cfg, since, e, now) == Waited(since, e, stat.starttime, now);
    }
  }

  lemma LongestIsMax(cfg: Config, since: map<Key, Time>, entries: seq<Entry>, now: Time, kind: Kind)
    ensures IsLongest(cfg, since, entries, now, kind, MaxSeconds(cfg, since, entries, now, kind))
  {
    MaxIsMax(cfg, since, entries, now, kind);
    forall i | 0 <= i < |entries|
      ensures Is(cfg, since, entries[i], now, kind) <==> Belongs(cfg, since, entries[i], now, kind)
      ensures forall w :: WaitsFor(cfg, since, entries[i], now, w) <==>
                InD(cfg, entries[i]) && Seconds(cfg, since, entries[i], now) == w
    {
      BelongsIff(cfg, since, entries[i], now, kind);
      WaitsIff(cfg, since, entries[i], now);
    }
  }

  /** What an offender says of a stuck task. */
  ghost predicate Describes(cfg: Config, since: map<Key, Time>, o: Offender, e: Entry, now: Time) {
    exists comm, starttime ::
      && Sleeps(cfg, e, comm, starttime) && Waited(since, e, starttime, now) >= cfg.stuckSeconds
      && o.tid == e.tid && o.pid == e.pid && o.comm == comm
      && o.seconds == cfg.tenths(Waited(since, e, starttime, now))
      && (o.gpu <==> GpuBy(cfg, comm, e.wchan))
      && (o.denied <==> e.wchan == Denied)
      && o.wchan == if e.wchan == Denied then "" else e.wchan.name
  }

  lemma OfferedIs(cfg: Config, since: map<Key, Time>, e: Entry, now: Time)
    requires Stuck(cfg, since, e, now)
    ensures Describes(cfg, since, OffenderOf(cfg, since, e, now), e, now)
  {
    SleepsIff(cfg, e);
    var stat := StatOf(cfg, e).value;
    IsGpuIff(cfg, stat.comm, e.wchan);
    assert Sleeps(cfg, e, stat.comm, stat.starttime);
    assert Seconds(cfg, since, e, now) == Waited(since, e, stat.starttime, now);
  }

  /** Every entry of the list of stuck tasks describes an entry of the listing that is stuck. */
  lemma {:induction false} StuckListDescribes(cfg: Config, since: map<Key, Time>, entries: seq<Entry>, now: Time, k: nat)
    requires k < |StuckList(cfg, since, entries, now)|
    ensures exists i :: 0 <= i < |entries| && Describes(cfg, since, StuckList(cfg, since, entries, now)[k], entries[i], now)
  {
    var n := |entries| - 1;
    var init := entries[..n];
    if k < |StuckList(cfg, since, init, now)| {
      StuckListDescribes(cfg, since, init, now, k);
      var i :| 0 <= i < |init| && Describes(cfg, since, StuckList(cfg, since, init, now)[k], init[i], now);
      assert entries[i] == init[i];
    } else {
      OfferedIs(cfg, since, entries[n], now);
      assert Describes(cfg, since, StuckList(cfg, since, entries, now)[k], entries[n], now);
    }
  }

  /** And so does every reported offender. */
  lemma OffendersDescribe(cfg: Config, since: map<Key, Time>, entries: seq<Entry>, now: Time, o: Offender)
    requires o in ReportOf(cfg, since, Some(entries), now).offenders
    ensures exists i :: 0 <= i < |entries| && Describes(cfg, since, o, entries[i], now)
  {
    var all := StuckList(cfg, since, entries, now);
    LongestFirstKeepsAll(all);
    assert o in multiset(LongestFirst(all));
    assert o in multiset(all);
    var k :| 0 <= k < |all| && all[k] == o;
    StuckListDescribes(cfg, since, entries, now, k);
  }

  // ---- What the numbers mean ---------------------------------------------------------------

  /** The stuck GPU tasks are among the stuck tasks and among the GPU tasks, and all are tasks. */
  lemma TotalsNest(cfg: Config, since: map<Key, Time>, entries: seq<Entry>, now: Time)
    ensures var n := (kind: Kind) => Number(cfg, since, entries, now, kind);
            && n(StuckGpu) <= n(StuckAny) <= n(Any)
            && n(StuckGpu) <= n(Gpu) <= n(Any)
            && n(DeniedAny) <= n(Any)
  {
    TallyImplies(Flags(cfg, since, entries, now, StuckGpu), Flags(cfg, since, entries, now, StuckAny));
    TallyImplies(Flags(cfg, since, entries, now, StuckAny), Flags(cfg, since, entries, now, Any));
    TallyImplies(Flags(cfg, since, entries, now, StuckGpu), Flags(cfg, since, entries, now, Gpu));
    TallyImplies(Flags(cfg, since, entries, now, Gpu), Flags(cfg, since, entries, now, Any));
    TallyImplies(Flags(cfg, since, entries, now, DeniedAny), Flags(cfg, since, entries, now, Any));
  }

  /** With a positive threshold some task of a kind is stuck exactly when the longest one reached it. */
  lemma KindIffMaximum(cfg: Config, since: map<Key, Time>, entries: seq<Entry>, now: Time, kind: Kind, stuck: Kind)
    requires cfg.stuckSeconds > 0.0
    requires (kind == Any && stuck == StuckAny) || (kind == Gpu && stuck == StuckGpu)
    ensures Number(cfg, since, entries, now, stuck) > 0 <==>
            MaxSeconds(cfg, since, entries, now, kind) >= cfg.stuckSeconds
  {
    var flags, m := Flags(cfg, since, entries, now, stuck), MaxSeconds(cfg, since, entries, now, kind);
    TallyNone(flags);
    MaxIsMax(cfg, since, entries, now, kind);
    if m >= cfg.stuckSeconds {
      var i :| 0 <= i < |entries| && InD(cfg, entries[i]) && Is(cfg, since, entries[i], now, kind)
               && Seconds(cfg, since, entries[i], now) == m;
      assert flags[i];
    }
  }

  /** Some task is stuck exactly when the longest one reached the threshold, overall and among the
      GPU tasks. */
  lemma StuckIffMaximum(cfg: Config, since: map<Key, Time>, entries: seq<Entry>, now: Time)
    requires cfg.stuckSeconds > 0.0
    ensures var r := CountOf(cfg, since, entries, now);
            && (r.stuck > 0 <==> r.maxSeconds >= cfg.stuckSeconds)
            && (r.gpuStuck > 0 <==> r.gpuMaxSeconds >= cfg.stuckSeconds)
  {
    KindIffMaximum(cfg, since, entries, now, Any, StuckAny);
    KindIffMaximum(cfg, since, entries, now, Gpu, StuckGpu);
  }

  lemma {:induction false} StuckListLength(cfg: Config, since: map<Key, Time>, entries: seq<Entry>, now: Time)
    ensures |StuckList(cfg, since, entries, now)| == Number(cfg, since, entries, now, StuckAny)
  {
    if entries != [] {
      var init, e := entries[..|entries| - 1], entries[|entries| - 1];
      StuckListLength(cfg, since, init, now);
      assert init + [e] == entries;
      NumberStep(cfg, since, init, e, now, StuckAny);
    }
  }

  lemma TopIsLongest(sorted: seq<Offender>)
    requires Descending(sorted)
    ensures var top := Top(sorted);
            && top <= sorted && |top| == Min(20, |sorted|) && Descending(top)
            && forall i, j :: 0 <= i < |top| && |top| <= j < |sorted| ==> top[i].seconds >= sorted[j].seconds
  {
  }

  /** The reported offenders are min(20, stuck) of the stuck tasks, longest first by the seconds shown,
      and every stuck task that is left out shows no more seconds than any that is reported. */
  lemma OffendersAreLongest(cfg: Config, since: map<Key, Time>, entries: seq<Entry>, now: Time)
    returns (leftOut: seq<Offender>)
    ensures var all, top := StuckList(cfg, since, entries, now), Shown(cfg, CountOf(cfg, since, entries, now)).offenders;
            && multiset(top + leftOut) == multiset(all)
            && |top| == Min(20, Number(cfg, since, entries, now, StuckAny))
            && Descending(top)
            && forall i, j :: 0 <= i < |top| && 0 <= j < |leftOut| ==> top[i].seconds >= leftOut[j].seconds
  {
    var all := StuckList(cfg, since, entries, now);
    StuckListLength(cfg, since, entries, now);
    leftOut := RestOf(all);
  }

  lemma RestOf(all: seq<Offender>) returns (leftOut: seq<Offender>)
    ensures var top := Top(LongestFirst(all));
            && multiset(top + leftOut) == multiset(all) && |top| == Min(20, |all|) && Descending(top)
            && forall i, j :: 0 <= i < |top| && 0 <= j < |leftOut| ==> top[i].seconds >= leftOut[j].seconds
  {
    var sorted := LongestFirst(all);
    LongestFirstSorts(all);
    LongestFirstKeepsAll(all);
    TopIsLongest(sorted);
    leftOut := sorted[|Top(sorted)|..];
    assert Top(sorted) + leftOut == sorted;
  }

  // ---- Clocks over whole runs --------------------------------------------------------------

  /** A pass and what it found; None when /proc was unreadable. */
  datatype Pass = Pass(now: Time, listing: Option<seq<Entry>>)

  ghost function ClocksAfter(cfg: Config, passes: seq<Pass>): map<Key, Time> {
    if passes == [] then map[]
    else
      var before, last := ClocksAfter(cfg, passes[..|passes| - 1]), passes[|passes| - 1];
      if last.listing.None? then before else Advance(before, Seen(cfg, last.listing.value), last.now)
  }

  /** What the readable passes saw. */
  ghost function Readable(cfg: Config, passes: seq<Pass>): seq<Look<Key>> {
    if passes == [] then []
    else
      var last := passes[|passes| - 1];
      Readable(cfg, passes[..|passes| - 1]) +
      if last.listing.None? then [] else [Look(last.now, Seen(cfg, last.listing.value))]
  }

  lemma {:induction false} ClocksAreStreaks(cfg: Config, passes: seq<Pass>)
    ensures ClocksAfter(cfg, passes) == After(Readable(cfg, passes))
  {
    if passes != [] {
      var prior, last := passes[..|passes| - 1], passes[|passes| - 1];
      ClocksAreStreaks(cfg, prior);
      var looks := Readable(cfg, prior);
      if last.listing.Some? {
        AfterStep(looks, Look(last.now, Seen(cfg, last.listing.value)));
      } else {
        assert looks + [] == looks;
      }
    }
  }

  /** Some entry of the listing is a task in D with this tid and start time. */
  ghost predicate FoundInD(cfg: Config, entries: seq<Entry>, tid: string, starttime: int) {
    exists i, comm :: 0 <= i < |entries| && entries[i].tid == tid && Sleeps(cfg, entries[i], comm, starttime)
  }

  lemma SeenIff(cfg: Config, entries: seq<Entry>, tid: string, starttime: int)
    ensures Key(tid, starttime) in Seen(cfg, entries) <==> FoundInD(cfg, entries, tid, starttime)
  {
    forall e | e in entries
      ensures InD(cfg, e) <==> exists comm, start :: Sleeps(cfg, e, comm, start)
      ensures forall comm, start :: Sleeps(cfg, e, comm, start) ==> InD(cfg, e) && KeyOf(cfg, e) == Key(e.tid, start)
    {
      SleepsIff(cfg, e);
    }
    if Key(tid, starttime) in Seen(cfg, entries) {
      var e :| e in entries && InD(cfg, e) && KeyOf(cfg, e) == Key(tid, starttime);
      var i :| 0 <= i < |entries| && entries[i] == e;
      var comm, start :| Sleeps(cfg, e, comm, start);
      assert Sleeps(cfg, entries[i], comm, starttime);
    }
  }

  /** The passes that could list /proc, in order. */
  ghost function ReadablePasses(passes: seq<Pass>): (rs: seq<Pass>)
    ensures forall i :: 0 <= i < |rs| ==> rs[i].listing.Some?
  {
    if passes == [] then []
    else ReadablePasses(passes[..|passes| - 1]) + if passes[|passes| - 1].listing.Some? then [passes[|passes| - 1]] else []
  }

  lemma {:induction false} ReadableIs(cfg: Config, passes: seq<Pass>)
    ensures var rs, looks := ReadablePasses(passes), Readable(cfg, passes);
            |looks| == |rs| && forall i :: 0 <= i < |rs| ==> looks[i] == Look(rs[i].now, Seen(cfg, rs[i].listing.value))
  {
    if passes != [] {
      ReadableIs(cfg, passes[..|passes| - 1]);
    }
  }

  /** Of the readable passes: found in D in every one from s on, and not in the one before. */
  ghost predicate InDSince(cfg: Config, rs: seq<Pass>, tid: string, starttime: int, s: int)
    requires forall i :: 0 <= i < |rs| ==> rs[i].listing.Some?
  {
    && 0 <= s < |rs|
    && (forall i :: s <= i < |rs| ==> FoundInD(cfg, rs[i].listing.value, tid, starttime))
    && (s > 0 ==> !FoundInD(cfg, rs[s - 1].listing.value, tid, starttime))
  }

  /** After any run the clocks are those of the tasks, by tid and start time, found in D by the last
      readable pass, each showing the first pass of its unbroken run of readable passes in D. */
  lemma CensusClockMeaning(cfg: Config, passes: seq<Pass>, tid: string, starttime: int)
    ensures var rs := ReadablePasses(passes);
            var since, key := ClocksAfter(cfg, passes), Key(tid, starttime);
            && (key in since <==> rs != [] && FoundInD(cfg, rs[|rs| - 1].listing.value, tid, starttime))
            && (key in since ==> exists s :: InDSince(cfg, rs, tid, starttime, s) && since[key] == rs[s].now)
  {
    var rs, looks, key := ReadablePasses(passes), Readable(cfg, passes), Key(tid, starttime);
    ClocksAreStreaks(cfg, passes);
    ReadableIs(cfg, passes);
    ClockIsStreakStart(looks, key);
    forall i | 0 <= i < |rs|
      ensures key in looks[i].failing <==> FoundInD(cfg, rs[i].listing.value, tid, starttime)
    {
      SeenIff(cfg, rs[i].listing.value, tid, starttime);
    }
    if key in After(looks) {
      var s :| StreakStart(looks, key, s) && After(looks)[key] == looks[s].now;
      assert InDSince(cfg, rs, tid, starttime, s);
    }
  }

  /** A task id used again by a younger task, or a task that was away, starts from zero. */
  lemma ReuseStartsFresh(cfg: Config, passes: seq<Pass>, now: Time, entries: seq<Entry>, tid: string, starttime: int)
    requires FoundInD(cfg, entries, tid, starttime)
    requires var rs := ReadablePasses(passes);
             rs != [] ==> !FoundInD(cfg, rs[|rs| - 1].listing.value, tid, starttime)
    ensures var since := ClocksAfter(cfg, passes + [Pass(now, Some(entries))]);
            Key(tid, starttime) in since && since[Key(tid, starttime)] == now
  {
    CensusClockMeaning(cfg, passes, tid, starttime);
    SeenIff(cfg, entries, tid, starttime);
    assert (passes + [Pass(now, Some(entries))])[..|passes|] == passes;
  }

  /** In a pass of a run, an entry waits as long as its unbroken run of readable passes in D lasts: it
      is counted as stuck exactly when that run is as long as the threshold. */
  lemma StuckIffRun(cfg: Config, passes: seq<Pass>, now: Time, entries: seq<Entry>, i: nat, comm: string, starttime: int)
    requires i < |entries| && Sleeps(cfg, entries[i], comm, starttime)
    ensures var rs := ReadablePasses(passes + [Pass(now, Some(entries))]);
            exists s ::
              && InDSince(cfg, rs, entries[i].tid, starttime, s)
              && (Belongs(cfg, ClocksAfter(cfg, passes), entries[i], now, StuckAny) <==> now - rs[s].now >= cfg.stuckSeconds)
  {
    var e, all := entries[i], passes + [Pass(now, Some(entries))];
    assert all[..|passes|] == passes;
    assert FoundInD(cfg, entries, e.tid, starttime);
    SeenIff(cfg, entries, e.tid, starttime);
    CensusClockMeaning(cfg, all, e.tid, starttime);
    var rs, key := ReadablePasses(all), Key(e.tid, starttime);
    assert rs[|rs| - 1] == Pass(now, Some(entries));
    var s :| InDSince(cfg, rs, e.tid, starttime, s) && ClocksAfter(cfg, all)[key] == rs[s].now;
    assert Waited(ClocksAfter(cfg, passes), e, starttime, now) == now - rs[s].now;
    forall c, t | Sleeps(cfg, e, c, t)
      ensures t == starttime
    {
    }
  }
}
