/**
 * How a request on the connection can fail, the error its caller sees, and what the
 * classifier of a run makes of that error.
 */
module RequestFailures {
  import opened Text
  import opened Json
  import J = JsonRpc
  import T = TurnLoop

  /** Refused: made after the exit.  Answered: rejected by an error response. */
  datatype Failure = TimedOut | ExitedWhilePending | Refused | Answered(message: string)

  function FailureOf(s: J.Settlement): Option<Failure> {
    match s
    case Resolved(_) => None
    case Rejected(message) => Some(Answered(message))
    case TimedOut => Some(TimedOut)
    case Exited => Some(ExitedWhilePending)
  }

  /** The error that request `id`, a call of `rpc`, is rejected with. */
  function ErrorOf(f: Failure, id: nat, rpc: string): T.Error {
    match f
    case TimedOut => T.Error(T.TIMED_OUT_WAITING + rpc, true)
    case ExitedWhilePending => T.Error("connection exited" + " while waiting for request " + Decimal(id), false)
    case Refused => T.Error(T.ALREADY_EXITED, false)
    case Answered(message) => T.Error(message, false)
  }

  function CodeOf(f: Failure, id: nat, rpc: string, l: T.Loop): string {
    T.ErrorOutcome(ErrorOf(f, id, rpc), l.turnId, l.turnCount).code
  }

  /** An error response in whose message the classifier reads the connection's exit. */
  predicate SoundsExited(f: Failure) {
    f.Answered? && T.Includes(f.message, "connection exited") && !T.Includes(f.message, "timed out")
  }

  /**
   * The code is "port_exit" exactly for a request that was pending at the exit or was answered
   * in those words; a request made after the exit is a failed start, and one that timed out a read
   timeout unless its method speaks of a turn completion.
   */
  lemma PortExitExactly(f: Failure, id: nat, rpc: string, l: T.Loop)
    ensures CodeOf(f, id, rpc, l) == "port_exit" <==> f.ExitedWhilePending? || SoundsExited(f)
    ensures f.Refused? ==> CodeOf(f, id, rpc, l) == "startup_failed"
    ensures f.TimedOut? ==>
              CodeOf(f, id, rpc, l) == if T.Includes(rpc, "turn completion") then "turn_timeout" else "read_timeout"
  {
    hide T.Includes, Decimal;
    T.CodesDiffer();
    match f {
      case TimedOut => T.RequestTimeoutClass(rpc, l);
      case ExitedWhilePending => T.ExitWhileWaitingClass(Decimal(id), l);
      case Refused => T.AlreadyExitedClass(l);
      case Answered(_) =>
    }
  }

  // Which requests exit under the caller

  /** The request was pending when the child exited. */
  ghost predicate PendingAtExit(parse: string -> J.Incoming, events: seq<J.Event>, id: nat) {
    exists j :: 0 <= j < |events| && events[j].Exit?
                && var c := J.Run(parse, J.INITIAL, events[..j]); !c.crashed && id in c.pending
  }

  lemma {:induction false} DrainExitsNone(parse: string -> J.Incoming, c: J.Conn, id: nat)
    ensures (id, J.Exited) in J.Drain(parse, c).settled <==> (id, J.Exited) in c.settled
    decreases |c.buffer|
  {
    hide J.TakeLine, J.Drain, Find;
    if 0 <= Find(c.buffer, "\n") {
      J.DrainOne(parse, c);
      TakeLineExitsNone(parse, c, id);
      DrainExitsNone(parse, J.TakeLine(parse, c), id);
    } else {
      J.DrainNone(parse, c);
    }
  }

  lemma TakeLineExitsNone(parse: string -> J.Incoming, c: J.Conn, id: nat)
    requires 0 <= Find(c.buffer, "\n")
    ensures (id, J.Exited) in J.TakeLine(parse, c).settled <==> (id, J.Exited) in c.settled
  {
    hide J.HandleLine, Find, Trim;
    var i := Find(c.buffer, "\n");
    var more := J.LineSettles(parse, c.(buffer := c.buffer[i + 1..]), Trim(c.buffer[..i]));
    if more != [] { assert more == [more[0]] && more[0].1 != J.Exited; }
  }

  lemma ExitRejects(c: J.Conn, id: nat)
    requires J.Inv(c)
    ensures (id, J.Exited) in J.TakeExit(c).settled <==> (id, J.Exited) in c.settled || id in c.pending
  {
    var more := J.ExitSettlements(c.pending, c.nextId);
    J.ExitSettlementsAre(c.pending, c.nextId);
    J.ExitsOnly(c.pending, c.nextId);
    if id in c.pending {
      assert J.Issued(c, id);
      var i :| 0 <= i < |more| && more[i].0 == id;
      assert more[i] == (id, J.Exited);
    }
    if (id, J.Exited) in more {
      assert id in J.SettledIds(more);
    }
  }

  lemma StepExits(parse: string -> J.Incoming, c: J.Conn, e: J.Event, id: nat)
    requires J.Inv(c)
    ensures (id, J.Exited) in J.Step(parse, c, e).settled <==>
            (id, J.Exited) in c.settled || (e.Exit? && !c.crashed && id in c.pending)
  {
    hide J.Drain, J.Overflowed, J.Inv;
    if !c.crashed {
      match e {
        case Chunk(text) => DrainExitsNone(parse, c.(buffer := c.buffer + text), id);
        case Exit => ExitRejects(c, id);
        case _ =>
      }
    }
  }

  /** In every run a request fails by the exit exactly if it was pending then. */
  lemma {:induction false} ExitedExactly(parse: string -> J.Incoming, events: seq<J.Event>, id: nat)
    ensures (id, J.Exited) in J.Run(parse, J.INITIAL, events).settled <==> PendingAtExit(parse, events, id)
    decreases |events|
  {
    hide J.Step, J.Run, J.Inv;
    J.InitialInv();
    if events == [] {
      J.RunNothing(parse, J.INITIAL);
    } else {
      var n := |events| - 1;
      var before := events[..n];
      ExitedExactly(parse, before, id);
      J.RunInv(parse, J.INITIAL, before);
      J.RunLast(parse, J.INITIAL, events);
      StepExits(parse, J.Run(parse, J.INITIAL, before), events[n], id);
      PendingAtExitLast(parse, events, id);
    }
  }

  lemma PendingAtExitLast(parse: string -> J.Incoming, events: seq<J.Event>, id: nat)
    requires events != []
    ensures var n := |events| - 1; var c := J.Run(parse, J.INITIAL, events[..n]);
            PendingAtExit(parse, events, id) <==>
            PendingAtExit(parse, events[..n], id) || (events[n].Exit? && !c.crashed && id in c.pending)
  {
    hide J.Run;
    var n := |events| - 1;
    assert forall j :: 0 <= j <= n ==> events[..n][..j] == events[..j];
    if PendingAtExit(parse, events[..n], id) {
      var j :| 0 <= j < n && events[..n][j].Exit?
               && var c := J.Run(parse, J.INITIAL, events[..n][..j]); !c.crashed && id in c.pending;
      assert events[j].Exit?;
    }
    if PendingAtExit(parse, events, id) {
      var j :| 0 <= j < |events| && events[j].Exit?
               && var c := J.Run(parse, J.INITIAL, events[..j]); !c.crashed && id in c.pending;
      if j < n { assert events[..n][j].Exit?; }
    }
  }

  /**
   * Over whole runs: a request that failed is classified "port_exit" exactly if it was pending
   * when the child exited, or an error response said so in its own words.
   */
  lemma FailedRequestClass(parse: string -> J.Incoming, events: seq<J.Event>, i: nat, rpc: string, l: T.Loop)
    requires i < |J.Run(parse, J.INITIAL, events).settled|
    requires FailureOf(J.Run(parse, J.INITIAL, events).settled[i].1).Some?
    ensures var (id, s) := J.Run(parse, J.INITIAL, events).settled[i];
            var f := FailureOf(s).value;
            CodeOf(f, id, rpc, l) == "port_exit" <==> PendingAtExit(parse, events, id) || SoundsExited(f)
  {
    hide J.Run, CodeOf, SoundsExited, PendingAtExit;
    var d := J.Run(parse, J.INITIAL, events);
    var (id, s) := d.settled[i];
    PortExitExactly(FailureOf(s).value, id, rpc, l);
    ExitedExactly(parse, events, id);
    J.InitialInv();
    J.RunInv(parse, J.INITIAL, events);
    assert J.SettledOnce(d.settled);
    if (id, J.Exited) in d.settled {
      var k :| 0 <= k < |d.settled| && d.settled[k] == (id, J.Exited);
      assert k == i;
    }
  }
}
