/**
 * The turn loop of an agent run: its refundable budget, its prompts, how it ends,
 * and how the end is classified.  What the agent, the tracker and the operator do
 * in each turn is given by a stream of `Turn` values.
 */
module TurnLoop {
  import opened Text
  import opened Json

  // Outcomes

  datatype Kind = Normal | Failed | Cancelled | Stalled | TimedOut

  datatype Outcome = Outcome(kind: Kind, code: string, turnId: string, turnCount: int)

  datatype Failure = Failure(code: string)

  /** A thrown error: its message, and whether it is the connection's own timeout error. */
  datatype Error = Error(message: string, isTimeout: bool)

  predicate Includes(s: string, part: string) {
    0 <= Find(s, part)
  }

  const ABORT_CODES: set<string> := {"operator_abort", "terminal", "inactive", "shutdown", "model_override_updated"}

  /** `outcomeForAbort`: stalls are told apart, every unknown reason is a plain cancellation. */
  function AbortOutcome(reason: string, turnId: string, turnCount: int): Outcome {
    if reason == "stalled" then Outcome(Stalled, "stalled", turnId, turnCount)
    else if reason in ABORT_CODES then Outcome(Cancelled, reason, turnId, turnCount)
    else Outcome(Cancelled, "cancelled", turnId, turnCount)
  }

  function FailureOutcome(f: Failure, turnId: string, turnCount: int): Outcome {
    Outcome(Failed, f.code, turnId, turnCount)
  }

  /** `classifyRunError` */
  function ErrorOutcome(e: Error, turnId: string, turnCount: int): Outcome {
    if e.isTimeout || Includes(e.message, "timed out") then
      Outcome(TimedOut, if Includes(e.message, "turn completion") then "turn_timeout" else "read_timeout", turnId, turnCount)
    else if Includes(e.message, "connection exited") then Outcome(Failed, "port_exit", turnId, turnCount)
    else if Includes(e.message, "startup readiness") then Outcome(Failed, "startup_timeout", turnId, turnCount)
    else Outcome(Failed, "startup_failed", turnId, turnCount)
  }

  // One turn

  datatype Try<T> = Threw(error: Error) | Returned(value: T)

  /** A completed turn: its status (absent when not a string) and the parts of its error that are read. */
  datatype Completion = Completion(status: Option<string>, message: Option<string>, errorType: Option<string>)

  datatype Turn = Turn(
    abortBefore: Option<string>,
    start: Try<string>,
    completion: Try<Completion>,
    fatal: Option<Failure>,
    issueActive: Try<bool>,
    stopSignal: bool,
    compactionWorks: bool)

  /** `canCompact`: there is a thread and a logger. */
  datatype Config = Config(maxTurns: int, canCompact: bool)

  datatype Prompt = IssuePrompt | ContinuationPrompt

  /** The loop's state, and what it has done: prompts sent with turn/start, successful compactions. */
  datatype Loop = Loop(turnCount: int, turnId: string, prompts: seq<Prompt>, compactions: nat)

  datatype Reason = BudgetSpent | IssueInactive | StopSignal

  /** `Left` is a null outcome: the loop ended and the exit state decides. */
  datatype End = Left(reason: Reason) | Ended(outcome: Outcome) | Thrown(error: Error)

  datatype Result = Stop | Continue | CompactNeeded | Terminal(outcome: Outcome) | Throws(error: Error)

  predicate IsContextWindowError(c: Completion) {
    || c.errorType == Some("ContextWindowExceeded")
    || (c.message.Some? && Includes(Lower(c.message.value), "context window"))
    || (c.message.Some? && Includes(Lower(c.message.value), "context length exceeded"))
  }

  /** `runSingleTurn` after its request returned a turn identifier, which `l` already holds. */
  function TurnResult(t: Turn, l: Loop): Result {
    match t.completion
    case Threw(e) => Throws(e)
    case Returned(c) =>
      var status := if c.status.Some? then c.status.value else "failed";
      if t.fatal.Some? then Terminal(FailureOutcome(t.fatal.value, l.turnId, l.turnCount))
      else if status == "failed" && IsContextWindowError(c) then CompactNeeded
      else if status == "failed" then Terminal(Outcome(Failed, "turn_failed", l.turnId, l.turnCount))
      else if status == "interrupted" then Terminal(Outcome(Cancelled, "interrupted", l.turnId, l.turnCount))
      else match t.issueActive
        case Threw(e) => Throws(e)
        case Returned(active) => if active then Continue else Stop
  }

  /** The loop state once the turn has been started: the count goes up before anything can fail. */
  function Begin(l: Loop): Loop {
    l.(turnCount := l.turnCount + 1,
       prompts := l.prompts + [if l.turnCount == 0 then IssuePrompt else ContinuationPrompt])
  }

  const NO_TURN_ID: Error := Error("turn/start did not return a turn identifier", false)

  /** One pass of `handleTurnLoop`: the new state, and the end if the pass was the last one. */
  function Pass(cfg: Config, t: Turn, l: Loop): (Loop, Option<End>) {
    if l.turnCount >= cfg.maxTurns then (l, Some(Left(BudgetSpent)))
    else if t.abortBefore.Some? then (l, Some(Ended(AbortOutcome(t.abortBefore.value, l.turnId, l.turnCount))))
    else
      var l1 := Begin(l);
      match t.start
      case Threw(e) => (l1, Some(Thrown(e)))
      case Returned(turnId) =>
        var l2 := l1.(turnId := turnId);
        if turnId == "" then (l2, Some(Thrown(NO_TURN_ID))) else
        match TurnResult(t, l2)
        case Throws(e) => (l2, Some(Thrown(e)))
        case Stop => (l2, Some(Left(IssueInactive)))
        case Terminal(o) => (l2, Some(Ended(o)))
        case CompactNeeded =>
          if cfg.canCompact && t.compactionWorks
          then (l2.(turnCount := l2.turnCount - 1, compactions := l2.compactions + 1), None)
          else (l2, Some(Ended(Outcome(Failed, "context_window_exceeded", turnId, l2.turnCount))))
        case Continue => if t.stopSignal then (l2, Some(Left(StopSignal))) else (l2, None)
  }

  /** At most `n` passes; the pass after `k` turn starts meets turn `k` of the stream. */
  function Passes(cfg: Config, turns: nat -> Turn, l: Loop, n: nat): (Loop, Option<End>)
    decreases n
  {
    if n == 0 then (l, None) else
    var (l', end) := Pass(cfg, turns(|l.prompts|), l);
    if end.Some? then (l', end) else Passes(cfg, turns, l', n - 1)
  }

  const START: Loop := Loop(0, "", [], 0)

  /**
   * A turn that lets the loop go on: no abort before it, started and completed, nothing fatal
   * recorded, and either a full context was compacted away or the turn neither failed nor was
   * interrupted, the issue is active and no stop signal was given.
   */
  predicate GoesOn(cfg: Config, t: Turn) {
    && t.abortBefore.None? && t.start.Returned? && t.start.value != "" && t.completion.Returned? && t.fatal.None?
    && var c := t.completion.value;
       if c.status.None? || c.status.value == "failed"
       then IsContextWindowError(c) && cfg.canCompact && t.compactionWorks
       else c.status.value != "interrupted" && t.issueActive == Returned(true) && !t.stopSignal
  }

  /** The loop goes on after a pass exactly when there was budget and the turn lets it. */
  lemma GoesOnExactly(cfg: Config, t: Turn, l: Loop)
    ensures Pass(cfg, t, l).1.None? <==> l.turnCount < cfg.maxTurns && GoesOn(cfg, t)
  {
    hide IsContextWindowError, AbortOutcome;
  }

  // How the loop ends

  /** The two ways in which an agent says that its context is full. */
  ghost predicate ContextFull(c: Completion) {
    || c.errorType == Some("ContextWindowExceeded")
    || (c.message.Some? &&
          (Occurs("context window", Lower(c.message.value)) || Occurs("context length exceeded", Lower(c.message.value))))
  }

  lemma IncludesOccurs(s: string, part: string)
    ensures Includes(s, part) <==> Occurs(part, s)
  {
  }

  lemma ContextFullExactly(c: Completion)
    ensures IsContextWindowError(c) <==> ContextFull(c)
  {
    hide Includes, Occurs, Lower;
    if c.message.Some? {
      IncludesOccurs(Lower(c.message.value), "context window");
      IncludesOccurs(Lower(c.message.value), "context length exceeded");
    }
  }

  /** The turn was started and its completion arrived. */
  predicate Completed(t: Turn) {
    t.abortBefore.None? && t.start.Returned? && t.start.value != "" && t.completion.Returned?
  }

  /** It failed: its status says so, or it has no readable status. */
  predicate FailedTurn(t: Turn)
    requires Completed(t)
  {
    t.completion.value.status == Some("failed") || t.completion.value.status.None?
  }

  predicate InterruptedTurn(t: Turn)
    requires Completed(t)
  {
    t.completion.value.status == Some("interrupted")
  }

  /** With the budget spent, or with an abort before the turn, nothing is started. */
  lemma EndsBeforeTurn(cfg: Config, t: Turn, l: Loop)
    ensures cfg.maxTurns <= l.turnCount ==> Pass(cfg, t, l) == (l, Some(Left(BudgetSpent)))
    ensures l.turnCount < cfg.maxTurns && t.abortBefore == Some("stalled") ==>
              Pass(cfg, t, l) == (l, Some(Ended(Outcome(Stalled, "stalled", l.turnId, l.turnCount))))
    ensures forall reason :: l.turnCount < cfg.maxTurns && t.abortBefore == Some(reason) && reason != "stalled" ==>
              Pass(cfg, t, l) == (l, Some(Ended(Outcome(Cancelled,
                if reason in ["operator_abort", "terminal", "inactive", "shutdown", "model_override_updated"]
                then reason else "cancelled", l.turnId, l.turnCount))))
  {
  }

  /** A turn with a fatal failure, a failed or an interrupted one: kind and code of the outcome, or the refund. */
  lemma EndsInTurn(cfg: Config, t: Turn, l: Loop)
    requires l.turnCount < cfg.maxTurns && Completed(t)
    ensures var (l', end) := Pass(cfg, t, l);
            var id, count, c := t.start.value, l.turnCount + 1, t.completion.value;
            && (t.fatal.Some? ==> end == Some(Ended(Outcome(Failed, t.fatal.value.code, id, count))))
            && (t.fatal.None? && FailedTurn(t) && !ContextFull(c) ==>
                  end == Some(Ended(Outcome(Failed, "turn_failed", id, count))))
            && (t.fatal.None? && FailedTurn(t) && ContextFull(c) && !(cfg.canCompact && t.compactionWorks) ==>
                  end == Some(Ended(Outcome(Failed, "context_window_exceeded", id, count))))
            && (t.fatal.None? && FailedTurn(t) && ContextFull(c) && cfg.canCompact && t.compactionWorks ==>
                  end == None && l'.turnCount == l.turnCount && l'.compactions == l.compactions + 1)
            && (t.fatal.None? && InterruptedTurn(t) ==>
                  end == Some(Ended(Outcome(Cancelled, "interrupted", id, count))))
            && l'.turnId == id && (end.Some? ==> l'.turnCount == count)
  {
    hide IsContextWindowError, ContextFull;
    ContextFullExactly(t.completion.value);
  }

  /** Any other turn: the issue is looked up, and the loop is left if it is inactive or a stop was signalled. */
  lemma EndsAfterTurn(cfg: Config, t: Turn, l: Loop)
    requires l.turnCount < cfg.maxTurns && Completed(t) && t.fatal.None? && !FailedTurn(t) && !InterruptedTurn(t)
    ensures var (l', end) := Pass(cfg, t, l);
            && (t.issueActive == Returned(false) ==> end == Some(Left(IssueInactive)))
            && (t.issueActive == Returned(true) ==> end == if t.stopSignal then Some(Left(StopSignal)) else None)
            && l'.turnId == t.start.value && l'.turnCount == l.turnCount + 1 && l'.compactions == l.compactions
  {
    hide IsContextWindowError;
  }

  /** Exactly when an error is thrown, and which one. */
  lemma ThrowsExactly(cfg: Config, t: Turn, l: Loop, e: Error)
    requires l.turnCount < cfg.maxTurns
    ensures Pass(cfg, t, l).1 == Some(Thrown(e)) <==>
            && t.abortBefore.None?
            && (|| t.start == Threw(e)
                || (t.start == Returned("") && e == Error("turn/start did not return a turn identifier", false))
                || (t.start.Returned? && t.start.value != "" && t.completion == Threw(e))
                || (Completed(t) && t.fatal.None? && !FailedTurn(t) && !InterruptedTurn(t) && t.issueActive == Threw(e)))
  {
    hide IsContextWindowError, AbortOutcome;
  }

  // What every run keeps

  /** The pass on this turn is refunded. */
  predicate Refunded(cfg: Config, t: Turn) {
    && t.abortBefore.None? && t.start.Returned? && t.start.value != ""
    && TurnResult(t, START) == CompactNeeded && cfg.canCompact && t.compactionWorks
  }

  /** How many of the first `n` turns are refunded. */
  function Refunds(cfg: Config, turns: nat -> Turn, n: nat): nat {
    if n == 0 then 0 else Refunds(cfg, turns, n - 1) + if Refunded(cfg, turns(n - 1)) then 1 else 0
  }

  predicate Inv(cfg: Config, turns: nat -> Turn, l: Loop) {
    && 0 <= l.turnCount && (l.turnCount <= cfg.maxTurns || l.turnCount == 0)
    && |l.prompts| == l.turnCount + l.compactions
    && l.compactions <= Refunds(cfg, turns, |l.prompts|) <= |l.prompts|
    && (forall i :: 0 <= i < |l.prompts| ==>
          (l.prompts[i] == IssuePrompt <==> Refunds(cfg, turns, i) == i))
  }

  lemma {:induction false} RefundsBounded(cfg: Config, turns: nat -> Turn, n: nat)
    ensures Refunds(cfg, turns, n) <= n
  {
    if n != 0 { RefundsBounded(cfg, turns, n - 1); }
  }

  lemma RefundedIff(cfg: Config, t: Turn, l: Loop)
    requires l.turnCount < cfg.maxTurns
    ensures Pass(cfg, t, l).0.compactions == l.compactions + if Refunded(cfg, t) then 1 else 0
    ensures Refunded(cfg, t) ==> Pass(cfg, t, l).1 == None
  {
    hide IsContextWindowError;
  }

  /** A pass either does nothing but end the loop, or starts one turn and then counts or refunds it. */
  lemma PassShape(cfg: Config, t: Turn, l: Loop)
    ensures var (l', end) := Pass(cfg, t, l);
            && (l.turnCount >= cfg.maxTurns ==> l' == l && end.Some?)
            && (l' != l || end.None? ==>
                  && l'.prompts == l.prompts + [if l.turnCount == 0 then IssuePrompt else ContinuationPrompt]
                  && l'.turnCount + l'.compactions == l.turnCount + l.compactions + 1
                  && l.turnCount <= l'.turnCount <= l.turnCount + 1)
  {
    hide TurnResult, AbortOutcome;
  }

  /** While the loop goes on, all refunds of the turns so far are in `compactions`. */
  lemma PassInv(cfg: Config, turns: nat -> Turn, l: Loop)
    requires Inv(cfg, turns, l) && l.compactions == Refunds(cfg, turns, |l.prompts|)
    ensures var (l', end) := Pass(cfg, turns(|l.prompts|), l);
            && Inv(cfg, turns, l')
            && l'.compactions == Refunds(cfg, turns, |l'.prompts|)
            && (end.None? ==> |l'.prompts| == |l.prompts| + 1)
  {
    var t := turns(|l.prompts|);
    PassShape(cfg, t, l);
    hide Pass, Refunded;
    if l.turnCount < cfg.maxTurns {
      RefundedIff(cfg, t, l);
      RefundsBounded(cfg, turns, |l.prompts| + 1);
    }
  }

  /**
   * In every run, after any number of passes: the count stays within the budget, turn starts
   * are the count plus the successful compactions, and the issue prompt goes out exactly while
   * every turn before was refunded - the count is back at zero - and the continuation prompt after.
   */
  lemma {:induction false} PassesInv(cfg: Config, turns: nat -> Turn, l: Loop, n: nat)
    requires Inv(cfg, turns, l) && l.compactions == Refunds(cfg, turns, |l.prompts|)
    ensures var l' := Passes(cfg, turns, l, n).0;
            Inv(cfg, turns, l') && l'.compactions == Refunds(cfg, turns, |l'.prompts|)
    decreases n
  {
    hide Pass, Inv, Refunds;
    if n != 0 {
      PassInv(cfg, turns, l);
      var (l', end) := Pass(cfg, turns(|l.prompts|), l);
      if end.None? { PassesInv(cfg, turns, l', n - 1); }
    }
  }

  // When the loop ends

  /** At turn `k` the budget is spent, refunds counted back, or the turn does not let the loop go on. */
  predicate Over(cfg: Config, turns: nat -> Turn, k: nat) {
    k - Refunds(cfg, turns, k) >= cfg.maxTurns || !GoesOn(cfg, turns(k))
  }

  ghost predicate OverWithin(cfg: Config, turns: nat -> Turn, first: nat, n: nat) {
    exists k :: first <= k < first + n && Over(cfg, turns, k)
  }

  /** A pass ends the loop exactly when its turn is over. */
  lemma PassEnds(cfg: Config, turns: nat -> Turn, l: Loop)
    requires Inv(cfg, turns, l) && l.compactions == Refunds(cfg, turns, |l.prompts|)
    ensures Pass(cfg, turns(|l.prompts|), l).1.Some? <==> Over(cfg, turns, |l.prompts|)
  {
    hide Pass, GoesOn, Refunds;
    GoesOnExactly(cfg, turns(|l.prompts|), l);
  }

  /** Within `n` passes the loop ends if and only if one of the next `n` turns is over. */
  lemma {:induction false} EndsExactly(cfg: Config, turns: nat -> Turn, l: Loop, n: nat)
    requires Inv(cfg, turns, l) && l.compactions == Refunds(cfg, turns, |l.prompts|)
    ensures Passes(cfg, turns, l, n).1.Some? <==> OverWithin(cfg, turns, |l.prompts|, n)
    decreases n
  {
    hide Pass, Inv, Refunds, Over;
    if n != 0 {
      PassEnds(cfg, turns, l);
      PassInv(cfg, turns, l);
      var (l', end) := Pass(cfg, turns(|l.prompts|), l);
      if end.None? {
        EndsExactly(cfg, turns, l', n - 1);
      }
    }
  }

  /**
   * Exactly when the loop never ends: every turn lets it go on, and at no point have as many
   * turns as the budget allows gone without a refund.
   */
  lemma Endless(cfg: Config, turns: nat -> Turn)
    ensures (forall n: nat :: Passes(cfg, turns, START, n).1.None?) <==> forall k: nat :: !Over(cfg, turns, k)
  {
    hide Passes, Over;
    forall n: nat ensures Passes(cfg, turns, START, n).1.Some? <==> OverWithin(cfg, turns, 0, n) {
      EndsExactly(cfg, turns, START, n);
    }
    if k: nat :| Over(cfg, turns, k) {
      assert OverWithin(cfg, turns, 0, k + 1);
      assert !Passes(cfg, turns, START, k + 1).1.None?;
    } else {
      forall n: nat ensures Passes(cfg, turns, START, n).1.None? {
        assert !OverWithin(cfg, turns, 0, n);
      }
    }
  }

  /** Up to turn `n` at most `bound` turns are refunded. */
  predicate RefundsAtMost(cfg: Config, turns: nat -> Turn, bound: nat, n: nat) {
    Refunds(cfg, turns, n) <= bound
  }

  /** The longest run that a bound on the refunds allows. */
  function Longest(cfg: Config, bound: nat): nat {
    (if cfg.maxTurns < 0 then 0 else cfg.maxTurns) + bound
  }

  /** With any bound on successful compactions the loop ends, within budget + bound + 1 passes. */
  lemma Terminates(cfg: Config, turns: nat -> Turn, bound: nat, l: Loop, n: nat)
    requires RefundsAtMost(cfg, turns, bound, Longest(cfg, bound))
    requires Inv(cfg, turns, l) && l.compactions == Refunds(cfg, turns, |l.prompts|)
    requires |l.prompts| <= Longest(cfg, bound) < |l.prompts| + n
    ensures Passes(cfg, turns, l, n).1.Some?
  {
    hide Passes, Inv, Refunds, GoesOn;
    EndsExactly(cfg, turns, l, n);
    assert Over(cfg, turns, Longest(cfg, bound));
  }

  /** If every turn is refunded, the loop never ends and the count is back at zero after each. */
  lemma {:induction false} AllRefunded(cfg: Config, turns: nat -> Turn, l: Loop, n: nat)
    requires cfg.maxTurns > 0 && l.turnCount == 0 && forall k: nat :: Refunded(cfg, turns(k))
    ensures Passes(cfg, turns, l, n).1 == None && Passes(cfg, turns, l, n).0.turnCount == 0
    decreases n
  {
    if n != 0 {
      var t := turns(|l.prompts|);
      RefundedIff(cfg, t, l);
      assert Refunded(cfg, t);
      var l' := Pass(cfg, t, l).0;
      assert l'.turnCount == 0 by { hide IsContextWindowError; }
      hide Pass, Refunded;
      AllRefunded(cfg, turns, l', n - 1);
    }
  }

  /** A turn that fails because the context is full, with a compaction that works. */
  const FULL_TURN: Turn :=
    Turn(None, Returned("t"), Returned(Completion(Some("failed"), None, Some("ContextWindowExceeded"))),
         None, Returned(true), false, true)

  /** An agent that fills its context in every turn keeps a budget of one turn busy for ever. */
  lemma EndlessExample(n: nat)
    ensures Passes(Config(1, true), k => FULL_TURN, START, n).1 == None
  {
    var turns := k => FULL_TURN;
    assert forall k: nat :: Refunded(Config(1, true), turns(k));
    AllRefunded(Config(1, true), turns, START, n);
  }

  // How a run ends

  /** What is seen once the loop is over: the exit code, a fatal failure, an abort, the OOM killer. */
  datatype Exit = Exit(code: Option<int>, fatal: Option<Failure>, abort: Option<string>, inContainer: bool, oomKilled: bool)

  /** `classifyExitState` */
  function ExitOutcome(x: Exit, l: Loop): Outcome {
    if x.fatal.Some? then FailureOutcome(x.fatal.value, l.turnId, l.turnCount)
    else if x.code.Some? && x.abort.None? then
      if x.inContainer && x.code.value == 137 && x.oomKilled
      then Outcome(Failed, "container_oom", l.turnId, l.turnCount)
      else Outcome(Failed, "port_exit", l.turnId, l.turnCount)
    else Outcome(Normal, "", l.turnId, l.turnCount)
  }

  /** `executeTurns`, given how the loop ended */
  function FinalOutcome(end: End, x: Exit, l: Loop): Outcome {
    match end
    case Left(_) => ExitOutcome(x, l)
    case Ended(o) => o
    case Thrown(e) =>
      if x.fatal.Some? then FailureOutcome(x.fatal.value, l.turnId, l.turnCount)
      else if x.abort.Some? then AbortOutcome(x.abort.value, l.turnId, l.turnCount)
      else ErrorOutcome(e, l.turnId, l.turnCount)
  }

  /**
   * The outcome of a loop that was left: a fatal failure first, then the exit of the process
   * unless the run was aborted - an OOM kill only if it exited with 137 inside a container
   * that says so - and a normal end otherwise.
   */
  lemma LeftOutcome(reason: Reason, x: Exit, l: Loop)
    ensures var o := FinalOutcome(Left(reason), x, l);
            && o.turnId == l.turnId && o.turnCount == l.turnCount
            && (x.fatal.Some? ==> o.kind == Failed && o.code == x.fatal.value.code)
            && (x.fatal.None? && x.code == Some(137) && x.abort.None? && x.inContainer && x.oomKilled ==>
                  o.kind == Failed && o.code == "container_oom")
            && (x.fatal.None? && x.code.Some? && x.abort.None?
                && !(x.code == Some(137) && x.inContainer && x.oomKilled) ==>
                  o.kind == Failed && o.code == "port_exit")
            && (x.fatal.None? && (x.code.None? || x.abort.Some?) ==> o.kind == Normal)
  {
  }

  lemma PassNeverNormal(cfg: Config, t: Turn, l: Loop)
    ensures var end := Pass(cfg, t, l).1; end.Some? && end.value.Ended? ==> end.value.outcome.kind != Normal
  {
    hide IsContextWindowError;
  }

  lemma {:induction false} PassesNeverNormal(cfg: Config, turns: nat -> Turn, l: Loop, n: nat)
    ensures var end := Passes(cfg, turns, l, n).1; end.Some? && end.value.Ended? ==> end.value.outcome.kind != Normal
    decreases n
  {
    hide Pass;
    if n != 0 {
      PassNeverNormal(cfg, turns(|l.prompts|), l);
      PassesNeverNormal(cfg, turns, Pass(cfg, turns(|l.prompts|), l).0, n - 1);
    }
  }

  /**
   * A run is "normal" exactly when the loop left by an inactive issue, a stop signal or the
   * spent budget, with no fatal failure then and either no exit code or an abort.
   */
  lemma NormalExactly(cfg: Config, turns: nat -> Turn, n: nat, x: Exit)
    requires Passes(cfg, turns, START, n).1.Some?
    ensures var (l, end) := Passes(cfg, turns, START, n);
            FinalOutcome(end.value, x, l).kind == Normal <==>
            end.value.Left? && x.fatal.None? && (x.code.None? || x.abort.Some?)
  {
    hide Passes;
    PassesNeverNormal(cfg, turns, START, n);
  }

  /**
   * A thrown error is a fatal failure if there is one, else an abort if there is one, else its
   * class: a timeout by type or wording, then the connection's exit, then the readiness check,
   * and a failed start when nothing else fits.
   */
  lemma ThrownOrder(e: Error, x: Exit, l: Loop)
    ensures var o := FinalOutcome(Thrown(e), x, l);
            && (x.fatal.Some? ==> o.kind == Failed && o.code == x.fatal.value.code)
            && (x.fatal.None? && x.abort.Some? ==>
                  && (o.kind == Stalled || o.kind == Cancelled)
                  && (o.kind == Stalled <==> x.abort.value == "stalled")
                  && (o.code == x.abort.value <==>
                        x.abort.value in ABORT_CODES || x.abort.value == "stalled" || x.abort.value == "cancelled")
                  && (o.code != x.abort.value ==> o.code == "cancelled"))
            && (x.fatal.None? && x.abort.None? ==>
                  var late := e.isTimeout || Includes(e.message, "timed out");
                  var gone := Includes(e.message, "connection exited");
                  && (o.kind == TimedOut <==> late) && (o.kind == Failed <==> !late)
                  && (o.code == "turn_timeout" <==> late && Includes(e.message, "turn completion"))
                  && (o.code == "read_timeout" <==> late && !Includes(e.message, "turn completion"))
                  && (o.code == "port_exit" <==> !late && gone)
                  && (o.code == "startup_timeout" <==> !late && !gone && Includes(e.message, "startup readiness"))
                  && (o.code == "startup_failed" <==> !late && !gone && !Includes(e.message, "startup readiness")))
            && o.turnCount == l.turnCount && o.turnId == l.turnId
  {
    hide Includes;
    CodesDiffer();
  }

  lemma CodesDiffer()
    ensures "turn_timeout" != "read_timeout" && "port_exit" != "turn_timeout" && "port_exit" != "read_timeout"
    ensures "startup_timeout" != "turn_timeout" && "startup_timeout" != "read_timeout" && "startup_timeout" != "port_exit"
    ensures "startup_failed" != "turn_timeout" && "startup_failed" != "read_timeout" && "startup_failed" != "port_exit"
    ensures "startup_failed" != "startup_timeout" && "cancelled" != "stalled"
  {
    assert "turn_timeout"[0] == 't' && "read_timeout"[0] == 'r' && "port_exit"[0] == 'p' && "startup_timeout"[0] == 's';
    assert |"startup_failed"| != |"startup_timeout"| && "cancelled"[0] == 'c';
  }

  // Messages of the other modules, as the classifier reads them

  lemma IncludesMiddle(a: string, part: string, b: string)
    ensures Includes(a + part + b, part)
  {
    var s := a + part + b;
    assert s[|a|..] == part + b;
  }

  /** Where an included text stands. */
  lemma IncludedAt(s: string, part: string) returns (f: nat)
    requires Includes(s, part)
    ensures f + |part| <= |s| && forall i :: 0 <= i < |part| ==> s[f + i] == part[i]
  {
    f := Find(s, part);
    assert forall i :: 0 <= i < |part| ==> s[f..][i] == s[f + i];
  }

  /** A text with no character `c` includes nothing that has one. */
  lemma LacksChar(s: string, part: string, c: char)
    requires c in part && c !in s
    ensures !Includes(s, part)
  {
    hide Includes;
    if Includes(s, part) {
      var i :| 0 <= i < |part| && part[i] == c;
      var f := IncludedAt(s, part);
    }
  }

  /** The rendezvous' timeout is a turn timeout. */
  lemma TurnTimeoutClass(after: string, l: Loop)
    ensures ErrorOutcome(Error("timed out" + " waiting for " + "turn completion" + after, false), l.turnId, l.turnCount)
         == Outcome(TimedOut, "turn_timeout", l.turnId, l.turnCount)
  {
    hide Includes;
    var m := "timed out" + " waiting for " + "turn completion" + after;
    IncludesMiddle("", "timed out", " waiting for " + "turn completion" + after);
    assert m == "" + "timed out" + (" waiting for " + "turn completion" + after);
    IncludesMiddle("timed out" + " waiting for ", "turn completion", after);
  }

  const TIMED_OUT_WAITING: string := "timed out waiting for "

  /** The words "turn completion" cannot start in this prefix, so only a method can bring them in. */
  lemma PrefixKeepsTurnCompletion(m: string)
    ensures Includes(TIMED_OUT_WAITING + m, "turn completion") <==> Includes(m, "turn completion")
  {
    hide Includes;
    var part, s, n := "turn completion", TIMED_OUT_WAITING + m, |TIMED_OUT_WAITING|;
    if Includes(m, part) {
      var f := IncludedAt(m, part);
      assert s == TIMED_OUT_WAITING + m[..f] + part + m[f + |part|..] by { assert m == m[..f] + part + m[f + |part|..]; }
      IncludesMiddle(TIMED_OUT_WAITING + m[..f], part, m[f + |part|..]);
    } else if Includes(s, part) {
      var f := IncludedAt(s, part);
      assert part[0] == 't' && part[1] == 'u';
      NoTurnStart(f);
      assert n <= f;
      assert m[f - n..f - n + |part|] == part;
      assert m == m[..f - n] + part + m[f - n + |part|..];
      IncludesMiddle(m[..f - n], part, m[f - n + |part|..]);
    }
  }

  lemma NoTurnStart(f: nat)
    ensures f < |TIMED_OUT_WAITING| && TIMED_OUT_WAITING[f] == 't' ==>
              f + 1 < |TIMED_OUT_WAITING| && TIMED_OUT_WAITING[f + 1] != 'u'
  {
  }

  /** The connection's timeout is a read timeout for every method that does not speak of a turn completion. */
  lemma RequestTimeoutClass(rpc: string, l: Loop)
    ensures ErrorOutcome(Error("timed out waiting for " + rpc, true), l.turnId, l.turnCount)
         == Outcome(TimedOut, if Includes(rpc, "turn completion") then "turn_timeout" else "read_timeout",
                    l.turnId, l.turnCount)
  {
    hide Includes;
    PrefixKeepsTurnCompletion(rpc);
  }

  /** A connection that exits under a pending request is a port exit. */
  lemma ExitWhileWaitingClass(id: string, l: Loop)
    requires Digits(id)
    ensures ErrorOutcome(Error("connection exited" + " while waiting for request " + id, false), l.turnId, l.turnCount)
         == Outcome(Failed, "port_exit", l.turnId, l.turnCount)
  {
    hide Includes;
    var m := "connection exited" + " while waiting for request " + id;
    assert 'm' !in "connection exited" && 'm' !in " while waiting for request ";
    LacksChar(m, "timed out", 'm');
    IncludesMiddle("", "connection exited", " while waiting for request " + id);
    assert m == "" + "connection exited" + (" while waiting for request " + id);
  }

  const ALREADY_EXITED: string := "connection already exited"

  /** But a request made after the exit is reported as a failed start: its message is worded otherwise. */
  lemma AlreadyExitedClass(l: Loop)
    ensures ErrorOutcome(Error("connection already exited", false), l.turnId, l.turnCount)
         == Outcome(Failed, "startup_failed", l.turnId, l.turnCount)
  {
    hide Includes;
    LacksChar(ALREADY_EXITED, "timed out", 'm');
    LacksChar(ALREADY_EXITED, "startup readiness", 's');
    NoExitedPhrase();
  }

  lemma NoExitedPhrase()
    ensures !Includes(ALREADY_EXITED, "connection exited")
  {
    hide Includes;
    var part := "connection exited";
    assert part[9] == 'n' && part[10] == ' ' && part[11] == 'e';
    if Includes(ALREADY_EXITED, part) {
      var f := IncludedAt(ALREADY_EXITED, part);
    }
  }

  // The object

  class TurnExecutor {
    const cfg: Config
    var turnCount: int
    var turnId: string
    var prompts: seq<Prompt>
    var compactions: nat

    constructor (cfg: Config)
      ensures this.cfg == cfg && State() == START
    {
      this.cfg := cfg;
      turnCount, turnId, prompts, compactions := 0, "", [], 0;
    }

    function State(): Loop
      reads this
    {
      Loop(turnCount, turnId, prompts, compactions)
    }

    /** `runSingleTurn` */
    method RunSingleTurn(t: Turn, prompt: Prompt) returns (r: Result)
      modifies this
      ensures turnCount == old(turnCount) + 1 && prompts == old(prompts) + [prompt] && compactions == old(compactions)
      ensures turnId == if t.start.Returned? then t.start.value else old(turnId)
      ensures r == if t.start.Threw? then Throws(t.start.error)
                   else if t.start.value == "" then Throws(NO_TURN_ID)
                   else TurnResult(t, State())
    {
      turnCount := turnCount + 1;
      prompts := prompts + [prompt];
      match t.start {
        case Threw(e) => return Throws(e);
        case Returned(id) => turnId := id;
      }
      if turnId == "" {
        return Throws(NO_TURN_ID);
      }
      return TurnResult(t, State());
    }

    /** `handleTurnLoop`: it calls itself until a pass ends the run; `k` is any turn that is over. */
    method HandleTurnLoop(turns: nat -> Turn, ghost k: nat) returns (end: End, ghost passes: nat)
      requires Inv(cfg, turns, State()) && compactions == Refunds(cfg, turns, |prompts|)
      requires |prompts| <= k && Over(cfg, turns, k)
      modifies this
      ensures Passes(cfg, turns, old(State()), passes) == (State(), Some(end))
      ensures passes <= k - |old(prompts)| + 1
      ensures Inv(cfg, turns, State())
      decreases k - |prompts|
    {
      hide TurnResult, Refunds, Passes, AbortOutcome, Over;
      PassInv(cfg, turns, State());
      PassEnds(cfg, turns, State());
      passes := 1;
      OnePass(cfg, turns, State());
      if turnCount >= cfg.maxTurns {
        return Left(BudgetSpent), 1;
      }
      var t := turns(|prompts|);
      if t.abortBefore.Some? {
        return Ended(AbortOutcome(t.abortBefore.value, turnId, turnCount)), 1;
      }
      var prompt := if turnCount == 0 then IssuePrompt else ContinuationPrompt;
      var result := RunSingleTurn(t, prompt);
      match result {
        case Stop => return Left(IssueInactive), 1;
        case Terminal(o) => return Ended(o), 1;
        case Throws(e) => return Thrown(e), 1;
        case CompactNeeded =>
          if !(cfg.canCompact && t.compactionWorks) {
            return Ended(Outcome(Failed, "context_window_exceeded", turnId, turnCount)), 1;
          }
          turnCount := turnCount - 1;
          compactions := compactions + 1;
        case Continue =>
          if t.stopSignal {
            return Left(StopSignal), 1;
          }
      }
      assert (State(), None) == Pass(cfg, turns(|old(prompts)|), old(State()));
      end, passes := HandleTurnLoop(turns, k);
      MorePasses(cfg, turns, old(State()), passes);
      passes := passes + 1;
    }
  }

  lemma OnePass(cfg: Config, turns: nat -> Turn, l: Loop)
    ensures Pass(cfg, turns(|l.prompts|), l).1.Some? ==>
              Passes(cfg, turns, l, 1) == Pass(cfg, turns(|l.prompts|), l)
  {
    hide Pass;
  }

  lemma MorePasses(cfg: Config, turns: nat -> Turn, l: Loop, n: nat)
    requires Pass(cfg, turns(|l.prompts|), l).1.None?
    ensures Passes(cfg, turns, l, n + 1) == Passes(cfg, turns, Pass(cfg, turns(|l.prompts|), l).0, n)
  {
    hide Pass;
  }
}
