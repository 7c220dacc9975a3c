/**
 * The meeting of a turn's completion notification with the one who waits for it.
 * Waiters are numbered in the order they wait, and payloads by the completion
 * notification that carried them.
 */
module TurnRendezvous {
  import opened Json

  datatype Outcome = Got(payload: nat) | Interrupted | TimedOut

  /**
   * `resolvers` and `completed` are the two maps of the turn state.  `waiting` maps each
   * unsettled waiter to its turn; `timers` and `listeners` are the timers and abort
   * listeners still registered.  The rest is history.
   */
  datatype State = State(
    completed: map<string, nat>, resolvers: map<string, nat>,
    waiting: map<nat, string>, timers: set<nat>, listeners: set<nat>, aborted: bool,
    turnOf: seq<string>, carried: seq<string>, settled: seq<(nat, Outcome)>)

  const INITIAL: State := State(map[], map[], map[], {}, {}, false, [], [], [])

  datatype Event = Complete(turn: string) | Wait(turn: string) | Abort | Timeout(waiter: nat)

  function Forget(s: State, w: nat): State {
    s.(waiting := s.waiting - {w}, timers := s.timers - {w}, listeners := s.listeners - {w})
  }

  /** `recordCompletedTurn` */
  function Record(s: State, turn: string): State {
    var payload := |s.carried|;
    var s1 := s.(carried := s.carried + [turn]);
    if turn == "" then s1
    else if turn in s.resolvers then
      var w := s.resolvers[turn];
      Forget(s1, w).(resolvers := s.resolvers - {turn}, settled := s.settled + [(w, Got(payload))])
    else s1.(completed := s.completed[turn := payload])
  }

  /** `waitForTurnCompletion` */
  function StartWait(s: State, turn: string): State {
    var w := |s.turnOf|;
    var s1 := s.(turnOf := s.turnOf + [turn]);
    if turn in s.completed then
      s1.(completed := s.completed - {turn}, settled := s.settled + [(w, Got(s.completed[turn]))])
    else
      s1.(resolvers := s.resolvers[turn := w], waiting := s.waiting[w := turn],
          timers := s.timers + {w}, listeners := s.listeners + {w})
  }

  function Expire(s: State, w: nat): State {
    if w !in s.timers || w !in s.waiting then s else
    Forget(s, w).(resolvers := s.resolvers - {s.waiting[w]}, settled := s.settled + [(w, TimedOut)])
  }

  /** The abort listeners run in the order they were added. */
  function InterruptBelow(s: State, n: nat): State
  {
    if n == 0 then s else
    var s1 := InterruptBelow(s, n - 1);
    var w := n - 1;
    if w !in s1.listeners || w !in s1.waiting then s1 else
    Forget(s1, w).(resolvers := s1.resolvers - {s1.waiting[w]}, settled := s1.settled + [(w, Interrupted)])
  }

  /** A signal aborts once; listeners added later are never called. */
  function Interrupt(s: State): State {
    if s.aborted then s else InterruptBelow(s, |s.turnOf|).(aborted := true)
  }

  function Step(s: State, e: Event): State {
    match e
    case Complete(turn) => Record(s, turn)
    case Wait(turn) => StartWait(s, turn)
    case Abort => Interrupt(s)
    case Timeout(w) => Expire(s, w)
  }

  function Run(s: State, events: seq<Event>): State
    decreases |events|
  {
    if events == [] then s else Run(Step(s, events[0]), events[1..])
  }

  /** No call to wait comes while the same turn is already waited for. */
  predicate OneWaiter(s: State, events: seq<Event>)
    decreases |events|
  {
    events == [] ||
    ((events[0].Wait? ==> events[0].turn !in s.resolvers) && OneWaiter(Step(s, events[0]), events[1..]))
  }

  // What every run keeps

  ghost predicate Matched(s: State) {
    && (forall t :: t in s.resolvers ==> s.resolvers[t] in s.waiting && s.waiting[s.resolvers[t]] == t)
    && (forall w :: w in s.waiting ==>
          w < |s.turnOf| && s.turnOf[w] == s.waiting[w]
          && s.waiting[w] in s.resolvers && s.resolvers[s.waiting[w]] == w)
    && s.timers == s.waiting.Keys
    && s.listeners == s.waiting.Keys
  }

  ghost predicate HasSettled(s: State, w: nat) {
    exists i :: 0 <= i < |s.settled| && s.settled[i].0 == w
  }

  /** Every waiter either still waits or has settled, and settles only once. */
  ghost predicate SettledOnce(s: State) {
    && (forall i, j :: 0 <= i < j < |s.settled| ==> s.settled[i].0 != s.settled[j].0)
    && (forall i :: 0 <= i < |s.settled| ==> s.settled[i].0 < |s.turnOf| && s.settled[i].0 !in s.waiting)
    && (forall w :: 0 <= w < |s.turnOf| ==> w in s.waiting || HasSettled(s, w))
  }

  /** No payload is in two places, and a delivered payload belongs to the waiter's turn. */
  ghost predicate PayloadsOnce(s: State) {
    && (forall t :: t in s.completed ==> t != "" && s.completed[t] < |s.carried| && s.carried[s.completed[t]] == t)
    && (forall i :: 0 <= i < |s.settled| && s.settled[i].1.Got? ==>
          && s.settled[i].1.payload < |s.carried| && s.settled[i].0 < |s.turnOf|
          && s.carried[s.settled[i].1.payload] == s.turnOf[s.settled[i].0])
    && (forall i, j :: 0 <= i < j < |s.settled| && s.settled[i].1.Got? && s.settled[j].1.Got? ==>
          s.settled[i].1.payload != s.settled[j].1.payload)
    && (forall i, t :: 0 <= i < |s.settled| && s.settled[i].1.Got? && t in s.completed ==>
          s.settled[i].1.payload != s.completed[t])
  }

  ghost predicate Inv(s: State) {
    && Matched(s) && SettledOnce(s) && PayloadsOnce(s)
    && s.resolvers.Keys !! s.completed.Keys
  }

  lemma HasSettledMore(s: State, s': State)
    requires s.settled <= s'.settled
    ensures forall w :: HasSettled(s, w) ==> HasSettled(s', w)
  {
    forall w | HasSettled(s, w) ensures HasSettled(s', w) {
      var i :| 0 <= i < |s.settled| && s.settled[i].0 == w;
      assert s'.settled[i].0 == w;
    }
  }

  /** A waiter leaves with outcome `o`. */
  function Leave(s: State, w: nat, o: Outcome): State
    requires w in s.waiting
  {
    Forget(s, w).(resolvers := s.resolvers - {s.waiting[w]}, settled := s.settled + [(w, o)])
  }

  lemma LeaveMatched(s: State, w: nat, o: Outcome)
    requires Matched(s) && w in s.waiting
    ensures Matched(Leave(s, w, o))
  {
  }

  lemma LeaveSettled(s: State, w: nat, o: Outcome)
    requires SettledOnce(s) && w in s.waiting && w < |s.turnOf|
    ensures SettledOnce(Leave(s, w, o))
  {
    var s' := Leave(s, w, o);
    HasSettledMore(s, s');
    assert HasSettled(s', w) by { assert s'.settled[|s.settled|].0 == w; }
    forall i, j | 0 <= i < j < |s'.settled| ensures s'.settled[i].0 != s'.settled[j].0 {
      assert s'.settled[i] == s.settled[i];
    }
  }

  /** The payload of `o`, if any, is the turn's and has not been used. */
  ghost predicate FreshFor(s: State, turn: string, o: Outcome) {
    o.Got? ==>
      && o.payload < |s.carried| && s.carried[o.payload] == turn
      && (forall t :: t in s.completed ==> s.completed[t] != o.payload)
      && (forall i :: 0 <= i < |s.settled| && s.settled[i].1.Got? ==> s.settled[i].1.payload != o.payload)
  }

  lemma PayloadsMore(s: State, s': State, w: nat, o: Outcome)
    requires PayloadsOnce(s) && s'.settled == s.settled + [(w, o)]
    requires s'.completed == s.completed && s'.carried == s.carried && s.turnOf <= s'.turnOf
    requires w < |s'.turnOf| && FreshFor(s, s'.turnOf[w], o)
    ensures PayloadsOnce(s')
  {
    var n := |s.settled|;
    assert forall i :: 0 <= i < n ==> s'.settled[i] == s.settled[i];
    assert s'.settled[n] == (w, o);
  }

  lemma LeaveInv(s: State, w: nat, o: Outcome)
    requires Inv(s) && w in s.waiting && FreshFor(s, s.waiting[w], o)
    ensures Inv(Leave(s, w, o))
  {
    assert w < |s.turnOf| && s.turnOf[w] == s.waiting[w];
    hide Matched, SettledOnce, PayloadsOnce, FreshFor;
    LeaveMatched(s, w, o);
    LeaveSettled(s, w, o);
    PayloadsMore(s, Leave(s, w, o), w, o);
  }

  lemma RecordInv(s: State, turn: string)
    requires Inv(s)
    ensures Inv(Record(s, turn))
  {
    var s1 := s.(carried := s.carried + [turn]);
    CarriedInv(s, turn);
    if turn != "" {
      if turn in s.resolvers {
        LeaveInv(s1, s.resolvers[turn], Got(|s.carried|));
      } else {
        StoredInv(s1, turn);
      }
    }
  }

  lemma CarriedInv(s: State, turn: string)
    requires Inv(s)
    ensures Inv(s.(carried := s.carried + [turn]))
  {
    var s1 := s.(carried := s.carried + [turn]);
    assert Matched(s1) by { hide SettledOnce, PayloadsOnce; }
    assert SettledOnce(s1) by { hide Matched, PayloadsOnce; HasSettledMore(s, s1); }
    assert PayloadsOnce(s1) by { hide Matched, SettledOnce; }
  }

  lemma StoredInv(s: State, turn: string)
    requires Inv(s) && turn != "" && turn !in s.resolvers
    requires s.carried != [] && s.carried[|s.carried| - 1] == turn
    requires FreshFor(s, turn, Got(|s.carried| - 1))
    ensures Inv(s.(completed := s.completed[turn := |s.carried| - 1]))
  {
    var s1 := s.(completed := s.completed[turn := |s.carried| - 1]);
    assert Matched(s1) by { hide SettledOnce, PayloadsOnce; }
    assert SettledOnce(s1) by { hide Matched, PayloadsOnce; HasSettledMore(s, s1); }
    assert PayloadsOnce(s1) by { hide Matched, SettledOnce; }
  }

  lemma StartWaitInv(s: State, turn: string)
    requires Inv(s) && turn !in s.resolvers
    ensures Inv(StartWait(s, turn))
  {
    if turn in s.completed {
      StartWaitServed(s, turn);
    } else {
      StartWaitQueued(s, turn);
    }
  }

  lemma ServedMatched(s: State, turn: string)
    requires Matched(s) && turn !in s.resolvers && turn in s.completed
    ensures Matched(StartWait(s, turn))
  {
  }

  lemma ServedSettled(s: State, turn: string)
    requires Matched(s) && SettledOnce(s) && turn !in s.resolvers && turn in s.completed
    ensures SettledOnce(StartWait(s, turn))
  {
    var s', w := StartWait(s, turn), |s.turnOf|;
    HasSettledMore(s, s');
    assert HasSettled(s', w) by { assert s'.settled[|s.settled|].0 == w; }
  }

  lemma StartWaitServed(s: State, turn: string)
    requires Inv(s) && turn !in s.resolvers && turn in s.completed
    ensures Inv(StartWait(s, turn))
  {
    var s' := StartWait(s, turn);
    var w := |s.turnOf|;
    var taken := s.(completed := s.completed - {turn});
    ServedMatched(s, turn);
    ServedSettled(s, turn);
    assert PayloadsOnce(taken) && FreshFor(taken, turn, Got(s.completed[turn])) by { hide Matched, SettledOnce; }
    hide Matched, SettledOnce, PayloadsOnce, FreshFor;
    PayloadsMore(taken, s', w, Got(s.completed[turn]));
  }

  lemma StartWaitQueued(s: State, turn: string)
    requires Inv(s) && turn !in s.resolvers && turn !in s.completed
    ensures Inv(StartWait(s, turn))
  {
    var s' := StartWait(s, turn);
    QueuedMatched(s, turn);
    QueuedSettled(s, turn);
    assert PayloadsOnce(s') by { hide Matched, SettledOnce; }
    hide Matched, SettledOnce, PayloadsOnce;
  }

  lemma QueuedMatched(s: State, turn: string)
    requires Matched(s) && turn !in s.resolvers && turn !in s.completed
    ensures Matched(StartWait(s, turn))
  {
    assert |s.turnOf| !in s.waiting;
  }

  lemma QueuedSettled(s: State, turn: string)
    requires SettledOnce(s) && turn !in s.completed
    ensures SettledOnce(StartWait(s, turn))
  {
    HasSettledMore(s, StartWait(s, turn));
  }

  lemma {:induction false} InterruptBelowInv(s: State, n: nat)
    requires Inv(s) && n <= |s.turnOf|
    ensures var s' := InterruptBelow(s, n);
            && Inv(s') && s'.turnOf == s.turnOf && s'.completed == s.completed
            && (forall w :: w in s'.waiting <==> w in s.waiting && n <= w)
    decreases n
  {
    hide Inv, SettledOnce, PayloadsOnce, HasSettled;
    if n != 0 {
      InterruptBelowInv(s, n - 1);
      var s1 := InterruptBelow(s, n - 1);
      assert Matched(s1) by { InvMatched(s1); }
      if n - 1 in s1.waiting {
        LeaveInv(s1, n - 1, Interrupted);
      }
    }
  }

  lemma InvMatched(s: State)
    requires Inv(s)
    ensures Matched(s)
  {
  }

  /** Nobody waits right after an abort. */
  lemma InterruptInv(s: State)
    requires Inv(s)
    ensures Inv(Interrupt(s))
    ensures !s.aborted ==> Interrupt(s).waiting == map[] && Interrupt(s).completed == s.completed
  {
    if !s.aborted {
      InterruptBelowInv(s, |s.turnOf|);
      var s' := InterruptBelow(s, |s.turnOf|);
      HasSettledMore(s', Interrupt(s));
    }
  }

  lemma StepInv(s: State, e: Event)
    requires Inv(s) && (e.Wait? ==> e.turn !in s.resolvers)
    ensures Inv(Step(s, e))
  {
    match e {
      case Complete(turn) => RecordInv(s, turn);
      case Wait(turn) => StartWaitInv(s, turn);
      case Abort => InterruptInv(s);
      case Timeout(w) => if w in s.waiting { LeaveInv(s, w, TimedOut); }
    }
  }

  /**
   * In every interleaving with at most one waiter per turn at a time: each waiter settles
   * at most once, no payload is delivered twice, and no turn is in both maps.
   */
  lemma {:induction false} RunInv(s: State, events: seq<Event>)
    requires Inv(s) && OneWaiter(s, events)
    ensures Inv(Run(s, events))
    decreases |events|
  {
    hide Inv, Step;
    if events != [] {
      StepInv(s, events[0]);
      RunInv(Step(s, events[0]), events[1..]);
    }
  }

  lemma InitialInv()
    ensures Inv(INITIAL)
  {
  }

  // How a wait ends without a payload

  /** A timeout rejects the waiter, and nobody else; the timer of a settled waiter does nothing. */
  lemma TimeoutRejects(s: State, w: nat)
    requires Inv(s)
    ensures var s' := Expire(s, w);
            if w in s.waiting then
              && s'.settled == s.settled + [(w, TimedOut)]
              && s'.waiting == s.waiting - {w} && s'.resolvers == s.resolvers - {s.waiting[w]}
              && w !in s'.timers && w !in s'.listeners
              && s'.completed == s.completed && s'.turnOf == s.turnOf
            else s' == s
  {
    InvMatched(s);
    hide Inv, SettledOnce, PayloadsOnce;
  }

  /** An abort rejects every waiter there is, once, and keeps the payloads; a second one does nothing. */
  lemma AbortRejects(s: State)
    requires Inv(s)
    ensures var s' := Interrupt(s);
            && s'.aborted
            && (s.aborted ==> s' == s)
            && (!s.aborted ==>
                  && s'.waiting == map[] && s'.resolvers == map[] && s'.timers == {} && s'.listeners == {}
                  && s'.completed == s.completed
                  && s.settled <= s'.settled
                  && (forall i :: |s.settled| <= i < |s'.settled| ==> s'.settled[i].1 == Interrupted)
                  && (forall w <- s.waiting :: HasSettled(s', w)))
  {
    if !s.aborted {
      InterruptBelowInv(s, |s.turnOf|);
      InterruptedBelow(s, |s.turnOf|);
      var s1 := InterruptBelow(s, |s.turnOf|);
      InvMatched(s);
      InvMatched(s1);
      assert s1.waiting == map[];
      forall w <- s.waiting ensures HasSettled(s1, w) {
        InvSettled(s1);
        assert w < |s1.turnOf| && w !in s1.waiting;
      }
      SettledSame(s1, s1.(aborted := true));
      hide Inv, SettledOnce, PayloadsOnce;
    }
  }

  lemma SettledSame(s: State, s': State)
    requires s'.settled == s.settled
    ensures forall w :: HasSettled(s, w) <==> HasSettled(s', w)
  {
  }

  lemma InvSettled(s: State)
    requires Inv(s)
    ensures SettledOnce(s)
  {
  }

  lemma {:induction false} InterruptedBelow(s: State, n: nat)
    ensures var s' := InterruptBelow(s, n);
            s.settled <= s'.settled && forall i :: |s.settled| <= i < |s'.settled| ==> s'.settled[i].1 == Interrupted
    decreases n
  {
    if n != 0 { InterruptedBelow(s, n - 1); }
  }

  /** Somebody who waits after the abort is not interrupted, and a completion without a turn id is dropped. */
  lemma LateAndNameless(s: State, turn: string)
    requires turn !in s.completed
    ensures s.aborted ==> Interrupt(StartWait(s, turn)) == StartWait(s, turn)
    ensures |s.turnOf| in StartWait(s, turn).waiting
    ensures Record(s, "").settled == s.settled && Record(s, "").completed == s.completed
            && Record(s, "").resolvers == s.resolvers && Record(s, "").waiting == s.waiting
  {
  }

  // The order of waiting and completing does not matter

  /** Back to back, both orders lead to the same state: the waiter has the payload. */
  lemma OrderIrrelevant(s: State, turn: string)
    requires Inv(s) && turn != "" && turn !in s.resolvers && turn !in s.completed
    ensures Record(StartWait(s, turn), turn) == StartWait(Record(s, turn), turn)
    ensures Record(StartWait(s, turn), turn).settled == s.settled + [(|s.turnOf|, Got(|s.carried|))]
  {
    assert |s.turnOf| !in s.waiting;
    assert s.resolvers[turn := |s.turnOf|] - {turn} == s.resolvers;
    assert s.completed[turn := |s.carried|] - {turn} == s.completed;
    assert s.waiting[|s.turnOf| := turn] - {|s.turnOf|} == s.waiting;
    assert s.timers + {|s.turnOf|} - {|s.turnOf|} == s.timers;
    assert s.listeners + {|s.turnOf|} - {|s.turnOf|} == s.listeners;
  }

  /** An event that concerns neither turn `t` nor its waiter `w`, and no abort. */
  predicate Elsewhere(e: Event, t: string, w: nat) {
    match e
    case Complete(turn) => turn != t
    case Wait(turn) => turn != t
    case Abort => false
    case Timeout(waiter) => waiter != w
  }

  /** Wait first: through any other events, the waiter is still there when the completion comes. */
  lemma {:induction false} WaiterStays(s: State, t: string, w: nat, events: seq<Event>)
    requires Inv(s) && OneWaiter(s, events) && t in s.resolvers && s.resolvers[t] == w
    requires forall i :: 0 <= i < |events| ==> Elsewhere(events[i], t, w)
    ensures var s' := Run(s, events); t in s'.resolvers && s'.resolvers[t] == w
    decreases |events|
  {
    if events != [] {
      StepInv(s, events[0]);
      WaiterStaysOnce(s, t, w, events[0]);
      hide Inv, Step;
      var s1 := Step(s, events[0]);
      WaiterStays(s1, t, w, events[1..]);
    }
  }

  lemma WaiterStaysOnce(s: State, t: string, w: nat, e: Event)
    requires Inv(s) && t in s.resolvers && s.resolvers[t] == w && Elsewhere(e, t, w)
    ensures var s' := Step(s, e); t in s'.resolvers && s'.resolvers[t] == w
  {
    InvMatched(s);
    hide Inv, SettledOnce, PayloadsOnce;
  }

  /** Complete first: through any other events, aborts included, the payload is kept for the waiter. */
  lemma {:induction false} PayloadStays(s: State, t: string, p: nat, events: seq<Event>)
    requires Inv(s) && OneWaiter(s, events) && t in s.completed && s.completed[t] == p
    requires forall i :: 0 <= i < |events| ==>
               (events[i].Complete? || events[i].Wait?) ==> events[i].turn != t
    ensures var s' := Run(s, events); t in s'.completed && s'.completed[t] == p
    decreases |events|
  {
    if events != [] {
      StepInv(s, events[0]);
      var s1 := Step(s, events[0]);
      assert t in s1.completed && s1.completed[t] == p by { if events[0].Abort? { InterruptInv(s); } }
      hide Inv, Step;
      PayloadStays(s1, t, p, events[1..]);
    }
  }

  lemma {:induction false} RunAppend(s: State, a: seq<Event>, b: seq<Event>)
    ensures Run(s, a + b) == Run(Run(s, a), b)
    decreases |a|
  {
    hide Step;
    if a == [] {
      assert a + b == b;
    } else {
      assert (a + b)[1..] == a[1..] + b;
      RunAppend(Step(s, a[0]), a[1..], b);
    }
  }

  /** An event, others, and a last event: what the last one meets. */
  lemma RunBetween(s: State, first: Event, events: seq<Event>, last: Event)
    ensures Run(s, [first] + events) == Run(Step(s, first), events)
    ensures Run(s, [first] + events + [last]) == Step(Run(s, [first] + events), last)
  {
    hide Step;
    assert ([first] + events)[1..] == events;
    RunAppend(s, [first] + events, [last]);
    assert [last][1..] == [];
  }

  /**
   * Wait, anything elsewhere, complete: the completion ends the wait, and the waiter gets
   * its payload.
   */
  lemma WaitThenComplete(s: State, t: string, events: seq<Event>)
    requires Inv(s) && t != "" && t !in s.resolvers && t !in s.completed
    requires OneWaiter(s, [Wait(t)] + events)
    requires forall i :: 0 <= i < |events| ==> Elsewhere(events[i], t, |s.turnOf|)
    ensures var before := Run(s, [Wait(t)] + events);
            Run(s, [Wait(t)] + events + [Complete(t)]).settled
            == before.settled + [(|s.turnOf|, Got(|before.carried|))]
  {
    StepInv(s, Wait(t));
    RunBetween(s, Wait(t), events, Complete(t));
    assert ([Wait(t)] + events)[1..] == events;
    hide Inv;
    WaiterStays(Step(s, Wait(t)), t, |s.turnOf|, events);
  }

  /**
   * Complete, anything that concerns other turns, wait: the waiter gets the payload of that
   * completion at once.
   */
  lemma CompleteThenWait(s: State, t: string, events: seq<Event>)
    requires Inv(s) && t != "" && t !in s.resolvers
    requires OneWaiter(s, [Complete(t)] + events)
    requires forall i :: 0 <= i < |events| ==> (events[i].Complete? || events[i].Wait?) ==> events[i].turn != t
    ensures var before := Run(s, [Complete(t)] + events);
            Run(s, [Complete(t)] + events + [Wait(t)]).settled
            == before.settled + [(|before.turnOf|, Got(|s.carried|))]
  {
    StepInv(s, Complete(t));
    RunBetween(s, Complete(t), events, Wait(t));
    assert ([Complete(t)] + events)[1..] == events;
    hide Inv;
    PayloadStays(Step(s, Complete(t)), t, |s.carried|, events);
  }

  // The object

  class TurnState {
    var completed: map<string, nat>
    var resolvers: map<string, nat>
    var waiting: map<nat, string>
    var timers: set<nat>
    var listeners: set<nat>
    var aborted: bool
    var turnOf: seq<string>
    var carried: seq<string>
    var settled: seq<(nat, Outcome)>

    function View(): State
      reads this
    {
      State(completed, resolvers, waiting, timers, listeners, aborted, turnOf, carried, settled)
    }

    method RecordCompletedTurn(turn: string)
      modifies this
      ensures View() == Record(old(View()), turn)
    {
      var payload := |carried|;
      carried := carried + [turn];
      if turn == "" {
        return;
      }
      if turn in resolvers {
        var w := resolvers[turn];
        timers, listeners, waiting := timers - {w}, listeners - {w}, waiting - {w};
        settled := settled + [(w, Got(payload))];
        resolvers := resolvers - {turn};
        return;
      }
      completed := completed[turn := payload];
    }

    method WaitForTurnCompletion(turn: string) returns (w: nat)
      modifies this
      ensures View() == StartWait(old(View()), turn) && w == |old(turnOf)|
    {
      w := |turnOf|;
      turnOf := turnOf + [turn];
      if turn in completed {
        settled := settled + [(w, Got(completed[turn]))];
        completed := completed - {turn};
        return;
      }
      waiting := waiting[w := turn];
      timers := timers + {w};
      resolvers := resolvers[turn := w];
      listeners := listeners + {w};
    }

    method OnTimeout(w: nat)
      modifies this
      ensures View() == Expire(old(View()), w)
    {
      if w in timers && w in waiting {
        resolvers := resolvers - {waiting[w]};
        timers, listeners, waiting := timers - {w}, listeners - {w}, waiting - {w};
        settled := settled + [(w, TimedOut)];
      }
    }

    method OnAbort()
      modifies this
      ensures View() == Interrupt(old(View()))
    {
      if aborted {
        return;
      }
      var w := 0;
      while w < |turnOf|
        invariant 0 <= w <= |turnOf| && turnOf == old(turnOf)
        invariant View() == InterruptBelow(old(View()), w)
      {
        if w in listeners && w in waiting {
          resolvers := resolvers - {waiting[w]};
          timers, listeners, waiting := timers - {w}, listeners - {w}, waiting - {w};
          settled := settled + [(w, Interrupted)];
        }
        w := w + 1;
      }
      aborted := true;
    }
  }
}
