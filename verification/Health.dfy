/**
 * The health runner: worst-of aggregation, a five-slot sliding window with
 * hysteresis, adaptive cadence, the transition log and the notices sent for it.
 */
module Health {
  import opened Json

  const WINDOW_SIZE: nat := 5
  const STEADY_STATE_INTERVAL_TICKS: nat := 5

  datatype Status = Ok | Slow | Unknown | Degraded | Down

  /** `rankStatus` */
  function Rank(s: Status): nat {
    match s
    case Ok => 0
    case Slow => 1
    case Unknown => 1
    case Degraded => 2
    case Down => 3
  }

  datatype Subprobe = Subprobe(name: string, status: Status, failureKind: string, latency: int, detail: string)

  datatype Aggregate = Aggregate(status: Status, failureKind: string, detail: string, latency: int)

  // Aggregation

  /** Where the scan for a strictly higher rank ends up. */
  function Worst(subs: seq<Subprobe>): (k: nat)
    requires subs != []
    ensures k < |subs|
  {
    var n := |subs| - 1;
    if n == 0 then 0 else
    var k := Worst(subs[..n]);
    if Rank(subs[n].status) > Rank(subs[k].status) then n else k
  }

  function MaxLatency(subs: seq<Subprobe>): int
    requires subs != []
  {
    var n := |subs| - 1;
    if n == 0 then subs[0].latency else
    var m := MaxLatency(subs[..n]);
    if subs[n].latency > m then subs[n].latency else m
  }

  function Describe(s: Subprobe): string {
    if s.status == Ok then "All subprobes ok" else if s.detail != "" then s.name + ": " + s.detail else s.name
  }

  function AggregateOf(subs: seq<Subprobe>): Aggregate {
    if subs == [] then Aggregate(Unknown, "ok", "No subprobes", 0)
    else var w := subs[Worst(subs)]; Aggregate(w.status, w.failureKind, Describe(w), MaxLatency(subs))
  }

  /** It is the first sub-probe of the highest rank, and the latency is the largest one there is. */
  lemma {:induction false} WorstIsFirstOfHighest(subs: seq<Subprobe>)
    requires subs != []
    ensures forall i :: 0 <= i < |subs| ==> Rank(subs[i].status) <= Rank(subs[Worst(subs)].status)
    ensures forall i :: 0 <= i < Worst(subs) ==> Rank(subs[i].status) < Rank(subs[Worst(subs)].status)
    ensures forall i :: 0 <= i < |subs| ==> subs[i].latency <= MaxLatency(subs)
    ensures exists i :: 0 <= i < |subs| && subs[i].latency == MaxLatency(subs)
  {
    var n := |subs| - 1;
    if n != 0 {
      var rest := subs[..n];
      WorstIsFirstOfHighest(rest);
      var j :| 0 <= j < |rest| && rest[j].latency == MaxLatency(rest);
      assert forall i :: 0 <= i < n ==> subs[i] == rest[i];
      var m := if subs[n].latency > MaxLatency(rest) then n else j;
      assert subs[m].latency == MaxLatency(subs);
    } else {
      assert subs[0].latency == MaxLatency(subs);
    }
  }

  /** A probe is ok exactly when it has sub-probes and all of them are. */
  lemma AggregateOk(subs: seq<Subprobe>)
    ensures AggregateOf(subs).status == Ok <==> subs != [] && forall i :: 0 <= i < |subs| ==> subs[i].status == Ok
  {
    hide Worst;
    if subs != [] { WorstIsFirstOfHighest(subs); }
  }

  predicate Has(subs: seq<Subprobe>, status: Status) {
    exists i :: 0 <= i < |subs| && subs[i].status == status
  }

  /** The order of the five statuses, from which the worst is chosen. */
  lemma RankOrder()
    ensures Rank(Ok) < Rank(Slow) == Rank(Unknown) < Rank(Degraded) < Rank(Down)
  {
  }

  /** A probe is down if any sub-probe is, else degraded if any is, else as the first that is not ok, if there is one. */
  lemma AggregateStatus(subs: seq<Subprobe>)
    ensures var status := AggregateOf(subs).status;
            && (status == Down <==> Has(subs, Down))
            && (status == Degraded <==> Has(subs, Degraded) && !Has(subs, Down))
            && (subs == [] ==> status == Unknown)
            && (!Has(subs, Down) && !Has(subs, Degraded) ==>
                  forall k :: 0 <= k < |subs| && subs[k].status != Ok && (forall i :: 0 <= i < k ==> subs[i].status == Ok)
                    ==> status == subs[k].status)
  {
    RankOrder();
    hide Rank, Worst, Describe, MaxLatency;
    if subs != [] {
      WorstIsFirstOfHighest(subs);
      assert subs[Worst(subs)].status == AggregateOf(subs).status;
    }
  }

  /** What is reported of it is taken from the first sub-probe with that status. */
  lemma AggregateReport(subs: seq<Subprobe>)
    ensures subs == [] ==> AggregateOf(subs) == Aggregate(Unknown, "ok", "No subprobes", 0)
    ensures forall k :: 0 <= k < |subs| && subs[k].status == AggregateOf(subs).status
                        && (forall i :: 0 <= i < k ==> subs[i].status != subs[k].status) ==>
              && AggregateOf(subs).failureKind == subs[k].failureKind
              && (subs[k].status == Ok ==> AggregateOf(subs).detail == "All subprobes ok")
              && (subs[k].status != Ok && subs[k].detail == "" ==> AggregateOf(subs).detail == subs[k].name)
              && (subs[k].status != Ok && subs[k].detail != "" ==>
                    AggregateOf(subs).detail == subs[k].name + ": " + subs[k].detail)
  {
    if subs != [] {
      WorstIsFirstOfHighest(subs);
      hide Worst, MaxLatency, Rank;
      var w := Worst(subs);
      forall k | 0 <= k < |subs| && subs[k].status == subs[w].status
                 && (forall i :: 0 <= i < k ==> subs[i].status != subs[k].status)
        ensures k == w
      {
      }
    }
  }

  /** The runner's loop over the sub-probes. */
  method ComputeAggregate(subs: seq<Subprobe>) returns (a: Aggregate)
    ensures a == AggregateOf(subs)
  {
    hide Describe, Rank;
    if |subs| == 0 {
      return Aggregate(Unknown, "ok", "No subprobes", 0);
    }
    var worst, latency := subs[0], subs[0].latency;
    for n := 1 to |subs|
      invariant worst == subs[..n][Worst(subs[..n])] && latency == MaxLatency(subs[..n])
    {
      assert subs[..n + 1][..n] == subs[..n];
      if Rank(subs[n].status) > Rank(worst.status) {
        worst := subs[n];
      }
      if subs[n].latency > latency {
        latency := subs[n].latency;
      }
    }
    assert subs[..|subs|] == subs;
    a := Aggregate(worst.status, worst.failureKind, Describe(worst), latency);
  }

  // Window and hysteresis

  datatype Entry = Fine | Fail

  function EntryOf(raw: Status): Entry {
    if raw == Ok then Fine else Fail
  }

  /** `pushWindow` */
  function Push(w: seq<Entry>, e: Entry): seq<Entry> {
    if |w| + 1 > WINDOW_SIZE then (w + [e])[1..] else w + [e]
  }

  function Failures(w: seq<Entry>): (n: nat)
    ensures n <= |w|
    ensures n == 0 <==> Fail !in w
  {
    if w == [] then 0 else (if w[0] == Fail then 1 else 0) + Failures(w[1..])
  }

  lemma {:induction false} FailuresAppend(a: seq<Entry>, b: seq<Entry>)
    ensures Failures(a + b) == Failures(a) + Failures(b)
    decreases |a|
  {
    if a == [] {
      assert a + b == b;
    } else {
      assert (a + b)[1..] == a[1..] + b;
      FailuresAppend(a[1..], b);
    }
  }

  /** The rank that a number of recent failures imposes on the status. */
  function Floor(failures: nat): nat {
    if failures >= 4 then Rank(Down) else if failures >= 2 then Rank(Degraded) else Rank(Ok)
  }

  /** `applyHysteresis`: the raw status, raised to the floor and no further. */
  function ApplyHysteresis(current: Status, w: seq<Entry>): (r: Status)
    ensures Rank(r) == if Rank(current) >= Floor(Failures(w)) then Rank(current) else Floor(Failures(w))
    ensures Rank(current) >= Floor(Failures(w)) ==> r == current
  {
    var failures := Failures(w);
    if failures >= 4 then (if Rank(current) >= Rank(Down) then current else Down)
    else if failures >= 2 then (if Rank(current) >= Rank(Degraded) then current else Degraded)
    else current
  }

  /** With four or five failures in the window a probe is down, with two or three it is degraded unless it is down. */
  lemma HysteresisTable(raw: Status, w: seq<Entry>)
    ensures Failures(w) >= 4 ==> ApplyHysteresis(raw, w) == Down
    ensures 2 <= Failures(w) <= 3 ==> ApplyHysteresis(raw, w) == if raw == Down then Down else Degraded
    ensures Failures(w) <= 1 ==> ApplyHysteresis(raw, w) == raw
  {
    RankOrder();
    hide Failures;
  }

  // The machine

  type Id = string

  datatype Result = Result(
    status: Status, failureKind: string, checkedAt: int,
    lastSuccessAt: Option<int>, lastFailureAt: Option<int>,
    latency: int, detail: string, subprobes: seq<Subprobe>, windowOk: nat, windowFailed: nat)

  datatype Probe = Probe(last: Option<Result>, window: seq<Entry>, lastTickRunAt: int)

  datatype Transition = Transition(
    probe: Id, previous: Status, current: Status, failureKind: string, detail: string, checkedAt: int)

  /** `events` is what went out on the bus, oldest first. */
  datatype Runner = Runner(tickCount: int, probes: map<Id, Probe>, events: seq<Transition>)

  /** A probe's sub-results may come in at any time after the tick that asked for them. */
  datatype Step = Tick | Complete(id: Id, subs: seq<Subprobe>, now: int)

  const INITIAL: Probe := Probe(None, [], -(STEADY_STATE_INTERVAL_TICKS as int))

  function Initial(ids: set<Id>): Runner {
    Runner(0, map id | id in ids :: INITIAL, [])
  }

  function Current(p: Probe): Status {
    if p.last.Some? then p.last.value.status else Unknown
  }

  /** `composeResult` */
  function Compose(p: Probe, subs: seq<Subprobe>, now: int, tick: int): Probe {
    var a := AggregateOf(subs);
    var window := Push(p.window, EntryOf(a.status));
    var failed := Failures(window);
    Probe(
      Some(Result(
        ApplyHysteresis(a.status, window), a.failureKind, now,
        if a.status == Ok then Some(now) else if p.last.Some? then p.last.value.lastSuccessAt else None,
        if a.status != Ok then Some(now) else if p.last.Some? then p.last.value.lastFailureAt else None,
        a.latency, a.detail, subs, |window| - failed, failed)),
      window, tick)
  }

  /** `maybeEmitTransition` */
  function Emitted(id: Id, previous: Status, r: Result): seq<Transition> {
    if previous == r.status then []
    else [Transition(id, previous, r.status, r.failureKind, r.detail, r.checkedAt)]
  }

  function Apply(r: Runner, s: Step): Runner {
    match s
    case Tick => r.(tickCount := r.tickCount + 1)
    case Complete(id, subs, now) =>
      if id !in r.probes then r else
      var p := Compose(r.probes[id], subs, now, r.tickCount);
      r.(probes := r.probes[id := p], events := r.events + Emitted(id, Current(r.probes[id]), p.last.value))
  }

  /** Any interleaving at all of ticks and completions, of overlapping ticks too. */
  function Run(r: Runner, steps: seq<Step>): Runner {
    if steps == [] then r else Apply(Run(r, steps[..|steps| - 1]), steps[|steps| - 1])
  }

  // Window and status over a run

  /** The raw outcomes of one probe in a run. */
  function Raws(steps: seq<Step>, id: Id): seq<Status> {
    if steps == [] then [] else
    var s := steps[|steps| - 1];
    Raws(steps[..|steps| - 1], id) + if s.Complete? && s.id == id then [AggregateOf(s.subs).status] else []
  }

  function Entries(raws: seq<Status>): (w: seq<Entry>)
    ensures |w| == |raws|
  {
    seq(|raws|, i requires 0 <= i < |raws| => EntryOf(raws[i]))
  }

  function Latest<T>(s: seq<T>, n: nat): (r: seq<T>)
    ensures |r| == if |s| < n then |s| else n
  {
    if |s| <= n then s else s[|s| - n..]
  }

  predicate Tracks(p: Probe, raws: seq<Status>) {
    && p.window == Entries(Latest(raws, WINDOW_SIZE))
    && (p.last.None? <==> raws == [])
    && (raws != [] ==> p.last.value.status == ApplyHysteresis(raws[|raws| - 1], p.window)
                       && p.last.value.windowFailed == Failures(p.window)
                       && p.last.value.windowOk + p.last.value.windowFailed == |p.window|)
  }

  lemma ComposeTracks(p: Probe, raws: seq<Status>, subs: seq<Subprobe>, now: int, tick: int)
    requires Tracks(p, raws)
    ensures Tracks(Compose(p, subs, now, tick), raws + [AggregateOf(subs).status])
  {
    hide AggregateOf, ApplyHysteresis, Failures;
    var raws' := raws + [AggregateOf(subs).status];
    assert Compose(p, subs, now, tick).window == Entries(Latest(raws', WINDOW_SIZE));
  }

  /**
   * However ticks and completions interleave, each probe's window is its last five raw
   * outcomes, and its status is its last raw outcome raised to the floor of that window.
   */
  lemma {:induction false} RunTracks(ids: set<Id>, steps: seq<Step>, id: Id)
    requires id in ids
    ensures var r := Run(Initial(ids), steps); r.probes.Keys == ids && Tracks(r.probes[id], Raws(steps, id))
    decreases |steps|
  {
    hide Compose, Emitted, AggregateOf, ApplyHysteresis, Failures;
    if steps != [] {
      hide Tracks;
      var before, s := steps[..|steps| - 1], steps[|steps| - 1];
      RunTracks(ids, before, id);
      if s.Complete? && s.id == id {
        var r := Run(Initial(ids), before);
        ComposeTracks(r.probes[id], Raws(before, id), s.subs, s.now, r.tickCount);
      }
    }
  }

  /** When a probe was last ok, or last failed, in a run. */
  function LastAt(steps: seq<Step>, id: Id, ok: bool): Option<int> {
    if steps == [] then None else
    var s := steps[|steps| - 1];
    if s.Complete? && s.id == id && (AggregateOf(s.subs).status == Ok) == ok then Some(s.now)
    else LastAt(steps[..|steps| - 1], id, ok)
  }

  lemma {:induction false} Stamps(ids: set<Id>, steps: seq<Step>, id: Id)
    requires id in ids
    ensures var r := Run(Initial(ids), steps);
            id in r.probes &&
            var last := r.probes[id].last;
            LastAt(steps, id, true) == (if last.Some? then last.value.lastSuccessAt else None) &&
            LastAt(steps, id, false) == (if last.Some? then last.value.lastFailureAt else None)
    decreases |steps|
  {
    hide AggregateOf, ApplyHysteresis, Failures, Emitted, Push;
    if steps != [] {
      Stamps(ids, steps[..|steps| - 1], id);
    }
  }

  /** The last completion of a probe in a run: its sub-results and its time. */
  function LastCompletion(steps: seq<Step>, id: Id): Option<(seq<Subprobe>, int)> {
    if steps == [] then None else
    var s := steps[|steps| - 1];
    if s.Complete? && s.id == id then Some((s.subs, s.now)) else LastCompletion(steps[..|steps| - 1], id)
  }

  /** What a probe reports is what its last completion brought in. */
  lemma {:induction false} ReportsLast(ids: set<Id>, steps: seq<Step>, id: Id)
    requires id in ids
    ensures var r := Run(Initial(ids), steps);
            id in r.probes &&
            match LastCompletion(steps, id)
            case None => r.probes[id].last.None?
            case Some((subs, now)) =>
              && r.probes[id].last.Some?
              && var last := r.probes[id].last.value;
                 && last.subprobes == subs && last.checkedAt == now
                 && last.failureKind == AggregateOf(subs).failureKind && last.detail == AggregateOf(subs).detail
                 && last.latency == AggregateOf(subs).latency
    decreases |steps|
  {
    hide AggregateOf, ApplyHysteresis, Failures, Emitted, Push;
    if steps != [] {
      ReportsLast(ids, steps[..|steps| - 1], id);
    }
  }

  /** A completion that changes the status puts one event on the bus, which carries the new result; no other step does. */
  lemma EventCarries(r: Runner, s: Step)
    ensures var r' := Apply(r, s);
            if s.Complete? && s.id in r.probes && Current(r'.probes[s.id]) != Current(r.probes[s.id]) then
              var last := r'.probes[s.id].last.value;
              r'.events == r.events + [Transition(s.id, Current(r.probes[s.id]), last.status, last.failureKind, last.detail, last.checkedAt)]
            else r'.events == r.events
  {
    hide AggregateOf, ApplyHysteresis, Failures, Push;
  }

  // How a probe recovers

  lemma {:induction false} RawsAppend(a: seq<Step>, b: seq<Step>, id: Id)
    ensures Raws(a + b, id) == Raws(a, id) + Raws(b, id)
    decreases |b|
  {
    if b == [] {
      assert a + b == a;
    } else {
      var n := |b| - 1;
      assert (a + b)[..|a + b| - 1] == a + b[..n];
      RawsAppend(a, b[..n], id);
    }
  }

  lemma {:induction false} FailuresOfOne(w: seq<Entry>, e: Entry)
    requires forall i :: 0 <= i < |w| ==> w[i] == e
    ensures Failures(w) == if e == Fail then |w| else 0
  {
    if w != [] { FailuresOfOne(w[1..], e); }
  }

  function Older(raws: seq<Status>, newer: nat): seq<Status> {
    Latest(raws, if newer < WINDOW_SIZE then WINDOW_SIZE - newer else 0)
  }

  lemma OlderAndNewer(before: seq<Status>, oks: seq<Status>)
    requires forall i :: 0 <= i < |oks| ==> oks[i] == Ok
    ensures Failures(Entries(Latest(before + oks, WINDOW_SIZE))) == Failures(Entries(Older(before, |oks|)))
  {
    var old5, new5 := Entries(Older(before, |oks|)), Entries(Latest(oks, WINDOW_SIZE));
    assert Entries(Latest(before + oks, WINDOW_SIZE)) == old5 + new5;
    FailuresAppend(old5, new5);
    FailuresOfOne(new5, Fine);
  }

  /**
   * Exactly how the status comes back: after `k` ok outcomes it stands at the floor set by
   * the failures among the last 5 - `k` outcomes before them, whatever happens in between.
   */
  lemma StatusAfterOks(ids: set<Id>, steps: seq<Step>, more: seq<Step>, id: Id)
    requires id in ids && Raws(more, id) != []
    requires forall i :: 0 <= i < |Raws(more, id)| ==> Raws(more, id)[i] == Ok
    ensures var r := Run(Initial(ids), steps + more);
            id in r.probes &&
            Rank(Current(r.probes[id])) == Floor(Failures(Entries(Older(Raws(steps, id), |Raws(more, id)|))))
  {
    hide Run, Raws, Compose, AggregateOf, Failures, Entries, Older;
    RawsAppend(steps, more, id);
    RunTracks(ids, steps + more, id);
    OlderAndNewer(Raws(steps, id), Raws(more, id));
  }

  /** Four ok outcomes in a row restore "ok" from any reachable state. */
  lemma FourOksRestore(ids: set<Id>, steps: seq<Step>, more: seq<Step>, id: Id)
    requires id in ids && |Raws(more, id)| >= 4
    requires forall i :: 0 <= i < |Raws(more, id)| ==> Raws(more, id)[i] == Ok
    ensures var r := Run(Initial(ids), steps + more); id in r.probes && Current(r.probes[id]) == Ok
  {
    hide Run, Raws, Compose, AggregateOf;
    StatusAfterOks(ids, steps, more, id);
  }

  /** From five failures in a row the statuses on the way back are down, degraded, degraded, ok. */
  lemma FromFiveFailures(ids: set<Id>, steps: seq<Step>, more: seq<Step>, id: Id)
    requires id in ids && Raws(more, id) != []
    requires forall i :: 0 <= i < |Raws(more, id)| ==> Raws(more, id)[i] == Ok
    requires |Raws(steps, id)| >= 5
    requires forall i :: |Raws(steps, id)| - 5 <= i < |Raws(steps, id)| ==> Raws(steps, id)[i] != Ok
    ensures var r := Run(Initial(ids), steps + more); var k := |Raws(more, id)|;
            id in r.probes &&
            Current(r.probes[id]) == if k == 1 then Down else if k <= 3 then Degraded else Ok
  {
    hide Run, Raws, Compose, AggregateOf;
    StatusAfterOks(ids, steps, more, id);
    FailuresOfOne(Entries(Older(Raws(steps, id), |Raws(more, id)|)), Fail);
  }

  // The transition log

  function EventsOf(events: seq<Transition>, id: Id): seq<Transition> {
    if events == [] then [] else
    var e := events[|events| - 1];
    EventsOf(events[..|events| - 1], id) + if e.probe == id then [e] else []
  }

  /** Each event starts where the one before ended and goes somewhere else. */
  predicate IsChain(events: seq<Transition>, first: Status, last: Status) {
    if events == [] then first == last else
    var e := events[|events| - 1];
    e.current == last && e.previous != e.current && IsChain(events[..|events| - 1], first, e.previous)
  }

  lemma EventsOfAppend(events: seq<Transition>, id: Id, from: Status, r: Result, of: Id)
    requires IsChain(EventsOf(events, id), Unknown, from) || of != id
    ensures var more := Emitted(of, from, r);
            if of == id then IsChain(EventsOf(events + more, id), Unknown, r.status)
            else EventsOf(events + more, id) == EventsOf(events, id)
  {
    var more := Emitted(of, from, r);
    if more == [] {
      assert events + more == events;
    } else {
      assert (events + more)[..|events|] == events;
      if of == id {
        var es := EventsOf(events, id);
        assert EventsOf(events + more, id) == es + more && (es + more)[..|es|] == es;
      }
    }
  }

  /**
   * In every interleaving, each probe's events lead from "unknown", event by event and
   * without a self-loop, to the status the probe has now.
   */
  lemma {:induction false} EventsChain(ids: set<Id>, steps: seq<Step>, id: Id)
    requires id in ids
    ensures var r := Run(Initial(ids), steps);
            id in r.probes && IsChain(EventsOf(r.events, id), Unknown, Current(r.probes[id]))
    decreases |steps|
  {
    hide AggregateOf, ApplyHysteresis, Failures, Push;
    if steps != [] {
      hide EventsOf, IsChain, Emitted;
      var before, s := steps[..|steps| - 1], steps[|steps| - 1];
      EventsChain(ids, before, id);
      var r := Run(Initial(ids), before);
      if s.Complete? && s.id in r.probes {
        var p := Compose(r.probes[s.id], s.subs, s.now, r.tickCount);
        EventsOfAppend(r.events, id, Current(r.probes[s.id]), p.last.value, s.id);
      }
    }
  }

  // Notices

  datatype Notice = HealthDown | HealthRecovered

  /** The bridge's handler: what it asks the notification manager to send. */
  function Handle(e: Transition): Option<Notice> {
    if e.current == Down then Some(HealthDown)
    else if e.previous == Down && e.current == Ok then Some(HealthRecovered)
    else None
  }

  /** The notice sent on a completion, if any. */
  function NoticeOf(ids: set<Id>, steps: seq<Step>, last: Step): Option<Notice>
    requires last.Complete?
  {
    var r, r' := Run(Initial(ids), steps), Apply(Run(Initial(ids), steps), last);
    if |r'.events| > |r.events| then Handle(r'.events[|r'.events| - 1]) else None
  }

  /** "health_down" goes out exactly when the probe was not down and now is. */
  lemma DownNoticeExactly(ids: set<Id>, steps: seq<Step>, last: Step)
    requires last.Complete? && last.id in ids
    ensures var r, r' := Run(Initial(ids), steps), Apply(Run(Initial(ids), steps), last);
            last.id in r.probes && last.id in r'.probes &&
            (NoticeOf(ids, steps, last) == Some(HealthDown) <==>
               Current(r.probes[last.id]) != Down && Current(r'.probes[last.id]) == Down)
  {
    hide AggregateOf, ApplyHysteresis, Failures, Run, Push;
    RunTracks(ids, steps, last.id);
  }

  /** The window before and after one more outcome, by the four outcomes they share. */
  lemma WindowStep(raws: seq<Status>, raw: Status)
    ensures Failures(Entries(Latest(raws, 5))) <= Failures(Entries(Latest(raws, 4))) + 1
    ensures Failures(Entries(Latest(raws + [raw], 5))) == Failures(Entries(Latest(raws, 4))) + if raw == Ok then 0 else 1
  {
    hide Failures;
    var shared := Entries(Latest(raws, 4));
    assert Entries(Latest(raws + [raw], 5)) == shared + [EntryOf(raw)];
    FailuresAppend(shared, [EntryOf(raw)]);
    FailuresOfOne([EntryOf(raw)], EntryOf(raw));
    if |raws| > 4 {
      assert Entries(Latest(raws, 5)) == [EntryOf(raws[|raws| - 5])] + shared;
      FailuresAppend([EntryOf(raws[|raws| - 5])], shared);
    } else {
      assert Entries(Latest(raws, 5)) == shared;
    }
  }

  /** A failure that comes last is alone among the four exactly when the three before it are ok. */
  lemma AloneAmongFour(raws: seq<Status>)
    requires raws != [] && raws[|raws| - 1] != Ok
    ensures Failures(Entries(Latest(raws, 4))) <= 1 <==>
            forall i :: 0 <= i && |raws| - 4 <= i < |raws| - 1 ==> raws[i] == Ok
  {
    hide Failures;
    FailuresOfOne([Fail], Fail);
    var shared := Latest(raws, 4);
    var older := Entries(shared[..|shared| - 1]);
    assert Entries(shared) == older + [Fail];
    FailuresAppend(older, [Fail]);
    assert forall i :: 0 <= i < |older| ==> older[i] == EntryOf(raws[|raws| - |shared| + i]);
    if Failures(older) == 0 {
      forall i | 0 <= i && |raws| - 4 <= i < |raws| - 1 ensures raws[i] == Ok {
        assert older[i - (|raws| - |shared|)] == EntryOf(raws[i]);
      }
    }
  }

  lemma RecoveredIsDownToOk(ids: set<Id>, steps: seq<Step>, last: Step)
    requires last.Complete? && last.id in ids
    ensures var r, r' := Run(Initial(ids), steps), Run(Initial(ids), steps + [last]);
            last.id in r.probes && last.id in r'.probes &&
            (NoticeOf(ids, steps, last) == Some(HealthRecovered) <==>
               Current(r.probes[last.id]) == Down && Current(r'.probes[last.id]) == Ok)
  {
    hide AggregateOf, ApplyHysteresis, Failures, Push;
    RunTracks(ids, steps, last.id);
    assert (steps + [last])[..|steps|] == steps;
  }

  /**
   * "health_recovered" goes out exactly when the outcome is ok, the one before was itself
   * down and not just raised to it, and the outcomes further back in the window are all ok.
   * So the recovery from an outage of two or more failures in the window is never announced.
   */
  lemma RecoveredNoticeExactly(ids: set<Id>, steps: seq<Step>, last: Step)
    requires last.Complete? && last.id in ids
    ensures var raws := Raws(steps, last.id);
            NoticeOf(ids, steps, last) == Some(HealthRecovered) <==>
            && AggregateOf(last.subs).status == Ok
            && raws != [] && raws[|raws| - 1] == Down
            && forall i :: 0 <= i && |raws| - 4 <= i < |raws| - 1 ==> raws[i] == Ok
  {
    hide AggregateOf, Failures, Run, NoticeOf, Entries, Latest;
    var raws, raw := Raws(steps, last.id), AggregateOf(last.subs).status;
    RunTracks(ids, steps, last.id);
    RunTracks(ids, steps + [last], last.id);
    RecoveredIsDownToOk(ids, steps, last);
    assert (steps + [last])[..|steps|] == steps;
    assert Raws(steps + [last], last.id) == raws + [raw];
    WindowStep(raws, raw);
    if raws != [] && raws[|raws| - 1] != Ok {
      AloneAmongFour(raws);
    }
  }

  // Cadence

  /** `isDue` */
  predicate IsDue(p: Probe, tick: int) {
    || p.last.None?
    || p.last.value.status == Down
    || Fail in p.window
    || tick - p.lastTickRunAt >= STEADY_STATE_INTERVAL_TICKS
  }

  /** A status other than ok has a failure behind it, so the clause on "down" never decides. */
  lemma DownClauseRedundant(ids: set<Id>, steps: seq<Step>, id: Id, tick: int)
    requires id in ids
    ensures var r := Run(Initial(ids), steps);
            id in r.probes &&
            var p := r.probes[id];
            && (p.last.Some? && p.last.value.status != Ok ==> Fail in p.window)
            && (IsDue(p, tick) <==>
                  p.last.None? || Fail in p.window || tick - p.lastTickRunAt >= STEADY_STATE_INTERVAL_TICKS)
  {
    hide Run, Raws, AggregateOf;
    RunTracks(ids, steps, id);
    var raws := Raws(steps, id);
    if raws != [] && raws[|raws| - 1] != Ok {
      var w := Entries(Latest(raws, WINDOW_SIZE));
      assert w[|w| - 1] == Fail;
    }
  }

  /** The due probes each complete once, in any order, after the tick and before the next one. */
  predicate IsRound(r: Runner, round: seq<Step>) {
    && round != [] && round[0] == Tick && Tick !in round[1..]
    && forall id <- r.probes :: |Raws(round, id)| == if IsDue(r.probes[id], r.tickCount + 1) then 1 else 0
  }

  function Concat(rounds: seq<seq<Step>>): seq<Step> {
    if rounds == [] then [] else Concat(rounds[..|rounds| - 1]) + rounds[|rounds| - 1]
  }

  /** The runner after the first `k` of the rounds. */
  function After(ids: set<Id>, rounds: seq<seq<Step>>, k: nat): Runner
    requires k <= |rounds|
  {
    Run(Initial(ids), Concat(rounds[..k]))
  }

  predicate AreRounds(ids: set<Id>, rounds: seq<seq<Step>>) {
    forall k :: 0 <= k < |rounds| ==> IsRound(After(ids, rounds, k), rounds[k])
  }

  /** The probe is run in round `k`. */
  predicate Ran(rounds: seq<seq<Step>>, k: nat, id: Id)
    requires k < |rounds|
  {
    Raws(rounds[k], id) != []
  }

  lemma {:induction false} RunAppend(r: Runner, a: seq<Step>, b: seq<Step>)
    ensures Run(r, a + b) == Run(Run(r, a), b)
    decreases |b|
  {
    hide Apply;
    if b == [] {
      assert a + b == a;
    } else {
      assert (a + b)[..|a + b| - 1] == a + b[..|b| - 1];
      RunAppend(r, a, b[..|b| - 1]);
    }
  }

  /** Completions alone touch only their own probe, and stamp it with the tick. */
  lemma {:induction false} Completions(r: Runner, steps: seq<Step>, id: Id)
    requires Tick !in steps && id in r.probes
    ensures var r' := Run(r, steps);
            && r'.tickCount == r.tickCount && id in r'.probes
            && (Raws(steps, id) == [] ==> r'.probes[id] == r.probes[id])
            && (Raws(steps, id) != [] ==> r'.probes[id].last.Some? && r'.probes[id].lastTickRunAt == r.tickCount)
    decreases |steps|
  {
    hide AggregateOf, ApplyHysteresis, Failures, Push, Emitted;
    if steps != [] {
      Completions(r, steps[..|steps| - 1], id);
      assert steps[|steps| - 1] in steps;
    }
  }

  lemma RoundEffect(ids: set<Id>, rounds: seq<seq<Step>>, k: nat, id: Id)
    requires id in ids && k < |rounds| && AreRounds(ids, rounds) && After(ids, rounds, k).tickCount == k
    ensures var r, r' := After(ids, rounds, k), After(ids, rounds, k + 1);
            && r'.tickCount == k + 1 && id in r.probes && id in r'.probes
            && (Ran(rounds, k, id) <==> IsDue(r.probes[id], k + 1))
            && if Ran(rounds, k, id) then r'.probes[id].last.Some? && r'.probes[id].lastTickRunAt == k + 1
               else r'.probes[id] == r.probes[id]
  {
    hide Run, IsDue, Tracks;
    var r, round := After(ids, rounds, k), rounds[k];
    RunTracks(ids, Concat(rounds[..k]), id);
    assert rounds[..k + 1][..k] == rounds[..k];
    RunAppend(Initial(ids), Concat(rounds[..k]), round);
    assert round == [Tick] + round[1..];
    RunAppend(r, [Tick], round[1..]);
    OneStep(r, Tick);
    RawsAppend([Tick], round[1..], id);
    assert Raws([Tick], id) == [];
    hide Raws, Concat;
    Completions(Apply(r, Tick), round[1..], id);
  }

  lemma OneStep(r: Runner, s: Step)
    ensures Run(r, [s]) == Apply(r, s)
  {
    assert [s][..0] == [];
  }

  lemma {:induction false} TicksCount(ids: set<Id>, rounds: seq<seq<Step>>, k: nat, id: Id)
    requires id in ids && k <= |rounds| && AreRounds(ids, rounds)
    ensures After(ids, rounds, k).tickCount == k
  {
    hide AreRounds;
    if k != 0 {
      hide After;
      TicksCount(ids, rounds, k - 1, id);
      RoundEffect(ids, rounds, k - 1, id);
    }
  }

  /** As long as the rounds after `k` skip the probe, it stays as round `k` left it. */
  lemma {:induction false} Skipped(ids: set<Id>, rounds: seq<seq<Step>>, k: nat, j: nat, id: Id)
    requires id in ids && AreRounds(ids, rounds) && k < j <= |rounds|
    requires Ran(rounds, k, id)
    requires var r := After(ids, rounds, k + 1); id in r.probes && Fail !in r.probes[id].window
    requires j <= k + STEADY_STATE_INTERVAL_TICKS
    ensures var r, r' := After(ids, rounds, k + 1), After(ids, rounds, j);
            id in r'.probes && r'.probes[id] == r.probes[id] && r'.tickCount == j
            && r'.probes[id].last.Some? && r'.probes[id].lastTickRunAt == k + 1
    ensures j < k + STEADY_STATE_INTERVAL_TICKS && j < |rounds| ==> !Ran(rounds, j, id)
    ensures j == k + STEADY_STATE_INTERVAL_TICKS && j < |rounds| ==> Ran(rounds, j, id)
    decreases j
  {
    hide After, AreRounds, Ran;
    TicksCount(ids, rounds, j - 1, id);
    RoundEffect(ids, rounds, j - 1, id);
    if j > k + 1 {
      Skipped(ids, rounds, k, j - 1, id);
    }
    if j < |rounds| {
      RoundEffect(ids, rounds, j, id);
      DueAfter(ids, rounds, j, id);
    }
  }

  lemma DueAfter(ids: set<Id>, rounds: seq<seq<Step>>, j: nat, id: Id)
    requires id in ids && j <= |rounds|
    ensures var r := After(ids, rounds, j);
            id in r.probes &&
            (IsDue(r.probes[id], j + 1) <==>
               || r.probes[id].last.None? || Fail in r.probes[id].window
               || j + 1 - r.probes[id].lastTickRunAt >= STEADY_STATE_INTERVAL_TICKS)
  {
    hide IsDue, Run, Concat;
    DownClauseRedundant(ids, Concat(rounds[..j]), id, j + 1);
  }

  /**
   * Over any sequence of completed ticks each probe runs on the first one, on the next one
   * after a run that leaves a failure in its window, and exactly five ticks after any other.
   */
  lemma Cadence(ids: set<Id>, rounds: seq<seq<Step>>, k: nat, id: Id)
    requires id in ids && AreRounds(ids, rounds) && k < |rounds|
    ensures Ran(rounds, 0, id)
    ensures var r := After(ids, rounds, k + 1);
            id in r.probes &&
            (Ran(rounds, k, id) ==>
               if Fail in r.probes[id].window then k + 1 < |rounds| ==> Ran(rounds, k + 1, id)
               else && (forall j :: k < j < k + 5 && j < |rounds| ==> !Ran(rounds, j, id))
                    && (k + 5 < |rounds| ==> Ran(rounds, k + 5, id)))
  {
    hide After, AreRounds, Ran, IsDue;
    FirstRound(ids, rounds, id);
    TicksCount(ids, rounds, k, id);
    RoundEffect(ids, rounds, k, id);
    var p := After(ids, rounds, k + 1).probes[id];
    if Ran(rounds, k, id) {
      if Fail in p.window {
        if k + 1 < |rounds| {
          DueAfter(ids, rounds, k + 1, id);
          RoundEffect(ids, rounds, k + 1, id);
        }
      } else {
        forall j | k < j <= k + 5 && j < |rounds| ensures Ran(rounds, j, id) <==> j == k + 5 {
          Skipped(ids, rounds, k, j, id);
        }
      }
    }
  }

  lemma FirstRound(ids: set<Id>, rounds: seq<seq<Step>>, id: Id)
    requires id in ids && AreRounds(ids, rounds) && rounds != []
    ensures Ran(rounds, 0, id)
  {
    assert rounds[..0] == [];
    assert IsRound(After(ids, rounds, 0), rounds[0]);
  }

  // The object

  /** The record kept for one probe. */
  class ProbeState {
    var last: Option<Result>
    var window: seq<Entry>
    var lastTickRunAt: int

    constructor ()
      ensures View() == INITIAL
    {
      last, window, lastTickRunAt := None, [], -(STEADY_STATE_INTERVAL_TICKS as int);
    }

    function View(): Probe
      reads this
    {
      Probe(last, window, lastTickRunAt)
    }

    method PushWindow(e: Entry)
      modifies this`window
      ensures window == Push(old(window), e)
    {
      window := window + [e];
      if |window| > WINDOW_SIZE {
        window := window[1..];
      }
    }

    /** `composeResult` */
    method ComposeResult(subs: seq<Subprobe>, now: int, tick: int) returns (result: Result)
      modifies this
      ensures View() == Compose(old(View()), subs, now, tick) && last == Some(result)
    {
      hide AggregateOf, ApplyHysteresis, Failures;
      var a := ComputeAggregate(subs);
      PushWindow(EntryOf(a.status));
      var windowOk := |window| - Failures(window);
      result := Result(
        ApplyHysteresis(a.status, window), a.failureKind, now,
        if a.status == Ok then Some(now) else if last.Some? then last.value.lastSuccessAt else None,
        if a.status != Ok then Some(now) else if last.Some? then last.value.lastFailureAt else None,
        a.latency, a.detail, subs, windowOk, |window| - windowOk);
      last := Some(result);
      lastTickRunAt := tick;
    }
  }

  class HealthRunner {
    var probes: seq<Id>
    var states: map<Id, ProbeState>
    var tickCount: int
    var events: seq<Transition>

    ghost predicate Valid()
      reads this`probes, this`states
    {
      && (forall id :: id in probes <==> id in states)
      && (forall i, j :: 0 <= i < j < |probes| ==> probes[i] != probes[j])
      && forall i, j :: i in states && j in states && states[i] == states[j] ==> i == j
    }

    ghost function Records(): map<Id, Probe>
      reads this`states, states.Values
    {
      map id | id in states :: states[id].View()
    }

    ghost function View(): Runner
      reads this, states.Values
    {
      Runner(tickCount, Records(), events)
    }

    /** Two probes of one id are one probe. */
    constructor (ids: seq<Id>)
      ensures Valid() && fresh(states.Values)
      ensures View() == Initial(set id | id in ids)
    {
      probes, states, tickCount, events := [], map[], 0, [];
      new;
      hide Valid, Records;
      NoRecords();
      for n := 0 to |ids|
        invariant tickCount == 0 && events == []
        invariant Valid() && fresh(states.Values)
        invariant Records() == map id | id in ids[..n] :: INITIAL
      {
        AddProbe(ids[n]);
        assert ids[..n + 1] == ids[..n] + [ids[n]];
      }
      assert ids[..|ids|] == ids;
    }

    lemma NoRecords()
      requires probes == [] && states == map[]
      ensures Valid() && Records() == map[]
    {
    }

    method AddProbe(id: Id)
      requires Valid()
      modifies this`probes, this`states
      ensures Valid() && Records() == old(Records())[id := INITIAL]
      ensures fresh(states.Values - old(states.Values))
    {
      var s := new ProbeState();
      AddId(id);
      assert Records() == old(Records()) && s.View() == INITIAL;
      assert forall i <- states :: states[i] != s;
      PutRecord(id, s);
    }

    /** The place of a new probe in the list. */
    method AddId(id: Id)
      requires Valid()
      modifies this`probes
      ensures Listed(id) && Distinct()
    {
      if id !in states {
        probes := probes + [id];
      }
    }

    /** Every id but a new one has a record, and the list has no id twice. */
    ghost predicate Listed(id: Id)
      reads this`probes, this`states
    {
      (forall i :: i in probes <==> i in states || i == id) &&
      (forall i, j :: 0 <= i < j < |probes| ==> probes[i] != probes[j])
    }

    ghost predicate Distinct()
      reads this`states
    {
      forall i, j :: i in states && j in states && states[i] == states[j] ==> i == j
    }

    method PutRecord(id: Id, s: ProbeState)
      requires Listed(id) && Distinct() && forall i <- states :: states[i] != s
      modifies this`states
      ensures Valid() && Records() == old(Records())[id := s.View()]
      ensures states == old(states)[id := s]
    {
      states := states[id := s];
    }

    /** `tick`, up to the start of the due probes. */
    method StartTick() returns (due: seq<Id>)
      requires Valid()
      modifies this`tickCount
      ensures Valid() && View() == Apply(old(View()), Tick)
      ensures forall id :: id in due <==> id in View().probes && IsDue(View().probes[id], View().tickCount)
      ensures forall i, j :: 0 <= i < j < |due| ==> due[i] != due[j]
    {
      hide IsDue;
      tickCount := tickCount + 1;
      due := DueProbes();
    }

    method DueProbes() returns (due: seq<Id>)
      requires Valid()
      ensures forall id :: id in due <==> id in Records() && IsDue(Records()[id], tickCount)
      ensures forall i, j :: 0 <= i < j < |due| ==> due[i] != due[j]
    {
      hide IsDue;
      due := [];
      for n := 0 to |probes|
        invariant forall id :: id in due <==> id in probes[..n] && IsDue(states[id].View(), tickCount)
        invariant forall i, j :: 0 <= i < j < |due| ==> due[i] != due[j]
      {
        if IsDue(states[probes[n]].View(), tickCount) {
          assert probes[n] !in probes[..n];
          due := due + [probes[n]];
        }
      }
    }

    /** `runProbe`, from the arrival of the probe's sub-results on. */
    method FinishProbe(id: Id, subs: seq<Subprobe>, now: int)
      requires Valid()
      modifies this`events, states.Values
      ensures Valid() && View() == Apply(old(View()), Complete(id, subs, now))
    {
      hide Emitted, Compose;
      if id !in states {
        return;
      }
      ghost var before := View();
      var state := states[id];
      var previous := Current(state.View());
      var result := state.ComposeResult(subs, now, tickCount);
      events := events + Emitted(id, previous, result);
      assert View().probes == before.probes[id := state.View()];
    }
  }
}
