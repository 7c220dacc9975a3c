/**
 * The JSON-RPC connection to the agent process: line framing, the pending requests
 * with their timers, and what exit does to them.
 */
module JsonRpc {
  import opened Text
  import opened Json

  const MAX_LINE_BYTES: nat := 10 * 1024 * 1024

  function Utf8Length(c: char): nat {
    if c as int < 0x80 then 1 else if c as int < 0x800 then 2 else if c as int < 0x10000 then 3 else 4
  }

  function ByteLength(s: string): nat {
    if s == "" then 0 else Utf8Length(s[0]) + ByteLength(s[1..])
  }

  lemma {:induction false} ByteLengthAppend(a: string, b: string)
    ensures ByteLength(a + b) == ByteLength(a) + ByteLength(b)
    decreases |a|
  {
    if a == "" {
      assert a + b == b;
    } else {
      assert (a + b)[1..] == a[1..] + b;
      ByteLengthAppend(a[1..], b);
    }
  }

  // Messages

  /** Only a number can be the id of one of our requests. */
  datatype Id = Number(n: nat) | OtherId

  /** Unreadable: making an `Error` of its message throws. */
  datatype ErrorField = Unreadable | ErrorMessage(message: string)

  /** What the classifiers see of a line; a field is `Some` when the object has it. */
  datatype Incoming =
    | NotJson
    | NotAnObject
    | Message(id: Option<Id>, result: Option<Doc>, error: Option<ErrorField>, name: Option<string>)

  predicate IsSuccess(m: Incoming) { m.Message? && m.id.Some? && m.result.Some? }

  predicate IsError(m: Incoming) { m.Message? && m.id.Some? && m.error.Some? }

  predicate IsRequest(m: Incoming) { m.Message? && m.id.Some? && m.name.Some? }

  predicate IsNotification(m: Incoming) { m.Message? && m.id.None? && m.name.Some? }

  // The connection

  datatype Settlement = Resolved(result: Doc) | Rejected(message: string) | TimedOut | Exited

  /**
   * `pending` maps a request id to its timer, `live` a running timer to the request it
   * would reject, and `refused` counts the requests rejected at once because the child had
   * exited.  The last five fields record what the connection did to its surroundings:
   * the promises settled, the request ids dropped without settling, the lines handled, the
   * messages passed on, and whether an exception escaped from the data handler.
   */
  datatype Conn = Conn(
    buffer: string, nextId: nat, nextTimer: nat, pending: map<nat, nat>, live: map<nat, nat>,
    exited: bool, killed: bool, refused: nat,
    settled: seq<(nat, Settlement)>, dropped: set<nat>, lines: seq<string>, forwarded: seq<Incoming>, crashed: bool)

  const INITIAL: Conn := Conn("", 1, 0, map[], map[], false, false, 0, [], {}, [], [], false)

  datatype Event = Request | Chunk(text: string) | Fire(timer: nat) | Exit

  function Issue(c: Conn): Conn {
    if c.exited then c.(refused := c.refused + 1) else
    c.(nextId := c.nextId + 1, nextTimer := c.nextTimer + 1,
       pending := c.pending[c.nextId := c.nextTimer], live := c.live[c.nextTimer := c.nextId])
  }

  function Settle(c: Conn, id: nat, s: Settlement): Conn
    requires id in c.pending
  {
    c.(pending := c.pending - {id}, live := c.live - {c.pending[id]}, settled := c.settled + [(id, s)])
  }

  function TimerFires(c: Conn, timer: nat): Conn {
    if timer !in c.live then c else
    c.(pending := c.pending - {c.live[timer]}, live := c.live - {timer},
       settled := c.settled + [(c.live[timer], TimedOut)])
  }

  /** The error branch evaluates `error.message` after it has dropped the entry. */
  function HandleMessage(c: Conn, m: Incoming): (r: Conn)
    ensures r.buffer == c.buffer && r.exited == c.exited && r.lines == c.lines
  {
    if IsSuccess(m) then
      if m.id.value.Number? && m.id.value.n in c.pending then Settle(c, m.id.value.n, Resolved(m.result.value)) else c
    else if IsError(m) then
      if m.id.value.Number? && m.id.value.n in c.pending then
        var n := m.id.value.n;
        match m.error.value
        case ErrorMessage(text) => Settle(c, n, Rejected(text))
        case Unreadable =>
          c.(pending := c.pending - {n}, live := c.live - {c.pending[n]}, dropped := c.dropped + {n}, crashed := true)
      else c
    else if IsRequest(m) || IsNotification(m) then c.(forwarded := c.forwarded + [m])
    else c
  }

  function HandleLine(parse: string -> Incoming, c: Conn, line: string): (r: Conn)
    ensures r.buffer == c.buffer && r.exited == c.exited && r.lines == c.lines + [line]
  {
    var c' := c.(lines := c.lines + [line]);
    if "risoluto:" <= line then c' else HandleMessage(c', parse(line))
  }

  /** One turn of the newline loop: a line is taken off the buffer before it is handled. */
  function TakeLine(parse: string -> Incoming, c: Conn): (r: Conn)
    requires 0 <= Find(c.buffer, "\n")
    ensures r.exited == c.exited && |r.buffer| < |c.buffer|
  {
    var i := Find(c.buffer, "\n");
    var line := Trim(c.buffer[..i]);
    var c' := c.(buffer := c.buffer[i + 1..]);
    if line == "" then c' else HandleLine(parse, c', line)
  }

  function Drain(parse: string -> Incoming, c: Conn): (r: Conn)
    ensures r.exited == c.exited
    decreases |c.buffer|
  {
    if Find(c.buffer, "\n") < 0 then c else
    var c' := TakeLine(parse, c);
    if c'.crashed then c' else Drain(parse, c')
  }

  lemma DrainOne(parse: string -> Incoming, c: Conn)
    requires 0 <= Find(c.buffer, "\n")
    ensures var c' := TakeLine(parse, c); Drain(parse, c) == if c'.crashed then c' else Drain(parse, c')
  {
    hide TakeLine, Find;
  }

  lemma DrainNone(parse: string -> Incoming, c: Conn)
    requires Find(c.buffer, "\n") < 0
    ensures Drain(parse, c) == c
  {
    hide TakeLine, Find;
  }

  predicate Overflowed(buffer: string) {
    ByteLength(buffer) > MAX_LINE_BYTES
  }

  function TakeChunk(parse: string -> Incoming, c: Conn, text: string): Conn {
    var c1 := c.(buffer := c.buffer + text);
    if Overflowed(c1.buffer) then c1.(killed := c.killed || !c.exited) else Drain(parse, c1)
  }

  /** The settlements of exit: every pending request below `n`, oldest first. */
  function ExitSettlements(pending: map<nat, nat>, n: nat): seq<(nat, Settlement)> {
    if n == 0 then []
    else ExitSettlements(pending, n - 1) + (if n - 1 in pending then [(n - 1, Exited)] else [])
  }

  function TakeExit(c: Conn): Conn {
    c.(exited := true, pending := map[], live := map[],
       settled := c.settled + ExitSettlements(c.pending, c.nextId))
  }

  /** An exception that escapes the data handler ends the process: no event follows it. */
  function Step(parse: string -> Incoming, c: Conn, e: Event): Conn {
    if c.crashed then c else
    match e
    case Request => Issue(c)
    case Chunk(text) => TakeChunk(parse, c, text)
    case Fire(timer) => TimerFires(c, timer)
    case Exit => TakeExit(c)
  }

  function Run(parse: string -> Incoming, c: Conn, events: seq<Event>): Conn
    decreases |events|
  {
    if events == [] then c else Run(parse, Step(parse, c, events[0]), events[1..])
  }

  lemma {:induction false} RunAppend(parse: string -> Incoming, c: Conn, a: seq<Event>, b: seq<Event>)
    ensures Run(parse, c, a + b) == Run(parse, Run(parse, c, a), b)
    decreases |a|
  {
    hide Step;
    if a == [] {
      assert a + b == b;
    } else {
      assert (a + b)[1..] == a[1..] + b;
      RunAppend(parse, Step(parse, c, a[0]), a[1..], b);
    }
  }

  lemma RunNothing(parse: string -> Incoming, c: Conn)
    ensures Run(parse, c, []) == c
  {
  }

  lemma RunLast(parse: string -> Incoming, c: Conn, events: seq<Event>)
    requires events != []
    ensures var n := |events| - 1;
            Run(parse, c, events) == Step(parse, Run(parse, c, events[..n]), events[n])
  {
    hide Step;
    var n := |events| - 1;
    assert events == events[..n] + [events[n]];
    RunAppend(parse, c, events[..n], [events[n]]);
    assert [events[n]][1..] == [];
  }

  // What every run keeps

  ghost function SettledIds(settled: seq<(nat, Settlement)>): set<nat> {
    set i | 0 <= i < |settled| :: settled[i].0
  }

  /** `id` has been given to a request. */
  predicate Issued(c: Conn, id: nat) {
    1 <= id < c.nextId
  }

  /** No request settles twice. */
  ghost predicate SettledOnce(settled: seq<(nat, Settlement)>) {
    forall i, j :: 0 <= i < j < |settled| ==> settled[i].0 != settled[j].0
  }

  /** Exactly one live timer per pending entry, and no other. */
  predicate TimersMatch(c: Conn) {
    && (forall id :: id in c.pending ==> c.pending[id] in c.live && c.live[c.pending[id]] == id)
    && (forall t :: t in c.live ==> t < c.nextTimer && c.live[t] in c.pending && c.pending[c.live[t]] == t)
  }

  /** Every issued request is in exactly one of three places. */
  ghost predicate Accounted(c: Conn) {
    && (forall id :: Issued(c, id) <==> id in c.pending || id in SettledIds(c.settled) || id in c.dropped)
    && c.pending.Keys !! SettledIds(c.settled) && c.pending.Keys !! c.dropped && SettledIds(c.settled) !! c.dropped
  }

  ghost predicate Inv(c: Conn) {
    && 1 <= c.nextId
    && Accounted(c)
    && SettledOnce(c.settled)
    && TimersMatch(c)
    && (c.exited ==> c.pending == map[])
    && (c.crashed <==> c.dropped != {})
  }

  lemma SettledAppend(settled: seq<(nat, Settlement)>, id: nat, s: Settlement)
    ensures SettledIds(settled + [(id, s)]) == SettledIds(settled) + {id}
    ensures SettledOnce(settled) && id !in SettledIds(settled) ==> SettledOnce(settled + [(id, s)])
  {
    var more := settled + [(id, s)];
    forall x | x in SettledIds(settled) + {id} ensures x in SettledIds(more) {
      if x == id {
        assert more[|settled|].0 == id;
      } else {
        var i :| 0 <= i < |settled| && settled[i].0 == x;
        assert more[i].0 == x;
      }
    }
  }

  /** A request gets an id that no earlier one had. */
  lemma IssueInv(c: Conn)
    requires Inv(c)
    ensures Inv(Issue(c))
    ensures !Issued(c, c.nextId) && c.nextId !in c.pending && c.nextId !in SettledIds(c.settled)
  {
    assert !Issued(c, c.nextId);
    var c' := Issue(c);
    if c.exited {
      SameBooksInv(c, c');
    } else {
      forall id ensures Issued(c', id) <==> Issued(c, id) || id == c.nextId {
      }
    }
  }

  lemma SettleInv(c: Conn, id: nat, s: Settlement)
    requires Inv(c) && id in c.pending
    ensures Inv(Settle(c, id, s))
  {
    SettledAppend(c.settled, id, s);
    hide SettledIds, SettledOnce;
    var c' := Settle(c, id, s);
    forall i ensures Issued(c', i) <==> Issued(c, i) {
    }
  }

  lemma DropInv(c: Conn, id: nat)
    requires Inv(c) && id in c.pending
    ensures Inv(c.(pending := c.pending - {id}, live := c.live - {c.pending[id]},
                   dropped := c.dropped + {id}, crashed := true))
  {
    hide SettledIds, SettledOnce;
    var c' := c.(pending := c.pending - {id}, live := c.live - {c.pending[id]},
                 dropped := c.dropped + {id}, crashed := true);
    forall i ensures Issued(c', i) <==> Issued(c, i) {
    }
  }

  /** Bookkeeping does not depend on the buffer, the logs of lines and messages, or the kill flag. */
  predicate SameBooks(c: Conn, d: Conn) {
    && d.nextId == c.nextId && d.nextTimer == c.nextTimer && d.pending == c.pending && d.live == c.live
    && d.exited == c.exited && d.settled == c.settled && d.dropped == c.dropped && d.crashed == c.crashed
  }

  lemma SameBooksInv(c: Conn, d: Conn)
    requires Inv(c) && SameBooks(c, d)
    ensures Inv(d)
  {
    hide SettledIds, SettledOnce;
    forall i ensures Issued(d, i) <==> Issued(c, i) {
    }
  }

  lemma HandleLineInv(parse: string -> Incoming, c: Conn, line: string)
    requires Inv(c)
    ensures Inv(HandleLine(parse, c, line))
  {
    var c' := c.(lines := c.lines + [line]);
    SameBooksInv(c, c');
    var m := parse(line);
    var out := HandleMessage(c', m);
    if !("risoluto:" <= line) {
      hide Inv;
      if (IsSuccess(m) || IsError(m)) && m.id.value.Number? && m.id.value.n in c'.pending {
        var n := m.id.value.n;
        if IsSuccess(m) {
          SettleInv(c', n, Resolved(m.result.value));
        } else if m.error.value.ErrorMessage? {
          SettleInv(c', n, Rejected(m.error.value.message));
        } else {
          DropInv(c', n);
        }
      } else {
        SameBooksInv(c', out);
      }
    }
  }

  lemma TakeLineInv(parse: string -> Incoming, c: Conn)
    requires Inv(c) && 0 <= Find(c.buffer, "\n")
    ensures Inv(TakeLine(parse, c))
  {
    hide Inv, HandleLine;
    var i := Find(c.buffer, "\n");
    var c' := c.(buffer := c.buffer[i + 1..]);
    SameBooksInv(c, c');
    HandleLineInv(parse, c', Trim(c.buffer[..i]));
  }

  lemma {:induction false} DrainInv(parse: string -> Incoming, c: Conn)
    requires Inv(c)
    ensures Inv(Drain(parse, c))
    decreases |c.buffer|
  {
    if 0 <= Find(c.buffer, "\n") {
      TakeLineInv(parse, c);
      if !TakeLine(parse, c).crashed {
        assert |TakeLine(parse, c).buffer| < |c.buffer|;
        hide Inv, TakeLine;
        DrainInv(parse, TakeLine(parse, c));
      }
    }
  }

  lemma {:induction false} ExitSettlementsAre(pending: map<nat, nat>, n: nat)
    ensures forall id :: id in SettledIds(ExitSettlements(pending, n)) <==> id in pending && id < n
    ensures SettledOnce(ExitSettlements(pending, n))
    decreases n
  {
    if n != 0 {
      ExitSettlementsAre(pending, n - 1);
      var before := ExitSettlements(pending, n - 1);
      if n - 1 in pending {
        SettledAppend(before, n - 1, Exited);
        assert ExitSettlements(pending, n) == before + [(n - 1, Exited)];
      } else {
        assert ExitSettlements(pending, n) == before;
      }
    }
  }

  lemma SettledConcat(a: seq<(nat, Settlement)>, b: seq<(nat, Settlement)>)
    requires SettledOnce(a) && SettledOnce(b) && SettledIds(a) !! SettledIds(b)
    ensures SettledOnce(a + b) && SettledIds(a + b) == SettledIds(a) + SettledIds(b)
  {
    forall i, j | 0 <= i < j < |a + b| ensures (a + b)[i].0 != (a + b)[j].0 {
      if i < |a| <= j {
        assert a[i].0 in SettledIds(a) && b[j - |a|].0 in SettledIds(b);
      }
    }
    forall x | x in SettledIds(a) + SettledIds(b) ensures x in SettledIds(a + b) {
      if x in SettledIds(a) {
        var i :| 0 <= i < |a| && a[i].0 == x;
        assert (a + b)[i].0 == x;
      } else {
        var i :| 0 <= i < |b| && b[i].0 == x;
        assert (a + b)[|a| + i].0 == x;
      }
    }
  }

  /** Exit settles every pending request, once. */
  lemma ExitInv(c: Conn)
    requires Inv(c)
    ensures Inv(TakeExit(c))
  {
    var s := ExitSettlements(c.pending, c.nextId);
    ExitSettlementsAre(c.pending, c.nextId);
    SettledConcat(c.settled, s);
    hide SettledOnce, SettledIds;
    var c' := TakeExit(c);
    forall i ensures Issued(c', i) <==> Issued(c, i) {
    }
    forall i | i in c.pending ensures i in SettledIds(s) {
      assert Issued(c, i);
    }
  }

  lemma StepInv(parse: string -> Incoming, c: Conn, e: Event)
    requires Inv(c)
    ensures Inv(Step(parse, c, e))
  {
    if c.crashed {
      return;
    }
    match e {
      case Request => IssueInv(c);
      case Chunk(text) =>
        var c1 := c.(buffer := c.buffer + text);
        SameBooksInv(c, c1);
        SameBooksInv(c1, c1.(killed := c.killed || !c.exited));
        DrainInv(parse, c1);
      case Fire(timer) =>
        if timer in c.live {
          SettleInv(c, c.live[timer], TimedOut);
          assert TimerFires(c, timer) == Settle(c, c.live[timer], TimedOut);
        }
      case Exit => ExitInv(c);
    }
  }

  lemma InitialInv()
    ensures Inv(INITIAL)
  {
    assert forall id :: !Issued(INITIAL, id);
  }

  /** In every run: each request is pending, settled once, or dropped; timers match; exit empties. */
  lemma {:induction false} RunInv(parse: string -> Incoming, c: Conn, events: seq<Event>)
    requires Inv(c)
    ensures Inv(Run(parse, c, events))
    decreases |events|
  {
    hide Inv, Step;
    if events != [] {
      StepInv(parse, c, events[0]);
      RunInv(parse, Step(parse, c, events[0]), events[1..]);
    }
  }

  /** Exit is final: afterwards no id is issued, nothing settles, nothing becomes pending. */
  lemma {:induction false} ExitIsFinal(parse: string -> Incoming, c: Conn, events: seq<Event>)
    requires Inv(c) && c.exited
    ensures var d := Run(parse, c, events);
            d.exited && d.nextId == c.nextId && d.settled == c.settled && d.pending == map[]
    decreases |events|
  {
    if events != [] {
      StepInv(parse, c, events[0]);
      ExitedStep(parse, c, events[0]);
      hide Inv, Step;
      ExitIsFinal(parse, Step(parse, c, events[0]), events[1..]);
    }
  }

  lemma ExitedStep(parse: string -> Incoming, c: Conn, e: Event)
    requires Inv(c) && c.exited
    ensures var d := Step(parse, c, e); d.exited && d.nextId == c.nextId && d.settled == c.settled
  {
    hide Drain, SettledIds, SettledOnce, Accounted;
    match e {
      case Chunk(text) => ExitedDrain(parse, c.(buffer := c.buffer + text));
      case Exit => NothingToSettle(c.nextId);
      case _ =>
    }
  }

  lemma {:induction false} NothingToSettle(n: nat)
    ensures ExitSettlements(map[], n) == []
  {
    if n != 0 { NothingToSettle(n - 1); }
  }

  lemma NoPendingLine(parse: string -> Incoming, c: Conn)
    requires c.pending == map[] && 0 <= Find(c.buffer, "\n")
    ensures var d := TakeLine(parse, c);
            d.pending == map[] && d.settled == c.settled && d.nextId == c.nextId && d.crashed == c.crashed
  {
    hide HandleMessage, Trim, Find;
    var i := Find(c.buffer, "\n");
    var line := Trim(c.buffer[..i]);
    NoPendingMessage(c.(buffer := c.buffer[i + 1..], lines := c.lines + [line]), parse(line));
  }

  lemma NoPendingMessage(c: Conn, m: Incoming)
    requires c.pending == map[]
    ensures var d := HandleMessage(c, m);
            d.pending == map[] && d.settled == c.settled && d.nextId == c.nextId && d.crashed == c.crashed
  {
  }

  lemma {:induction false} ExitedDrain(parse: string -> Incoming, c: Conn)
    requires c.pending == map[]
    ensures var d := Drain(parse, c);
            d.pending == map[] && d.settled == c.settled && d.nextId == c.nextId && d.crashed == c.crashed
    decreases |c.buffer|
  {
    hide TakeLine;
    if 0 <= Find(c.buffer, "\n") {
      NoPendingLine(parse, c);
      var c' := TakeLine(parse, c);
      if !c'.crashed { ExitedDrain(parse, c'); }
    }
  }

  // Requests that are refused

  function Requests(events: seq<Event>): nat {
    if events == [] then 0
    else Requests(events[..|events| - 1]) + if events[|events| - 1].Request? then 1 else 0
  }

  lemma LineIssuesNothing(parse: string -> Incoming, c: Conn, line: string)
    ensures HandleLine(parse, c, line).nextId == c.nextId && HandleLine(parse, c, line).refused == c.refused
  {
  }

  lemma {:induction false} DrainIssuesNothing(parse: string -> Incoming, c: Conn)
    ensures Drain(parse, c).nextId == c.nextId && Drain(parse, c).refused == c.refused
    decreases |c.buffer|
  {
    hide Find, Trim, HandleLine;
    if 0 <= Find(c.buffer, "\n") {
      var i := Find(c.buffer, "\n");
      LineIssuesNothing(parse, c.(buffer := c.buffer[i + 1..]), Trim(c.buffer[..i]));
      DrainIssuesNothing(parse, TakeLine(parse, c));
    }
  }

  /** Every request either was issued with an id of its own or was refused, and is refused only after exit. */
  lemma {:induction false} RequestsCounted(parse: string -> Incoming, events: seq<Event>)
    ensures var c := Run(parse, INITIAL, events);
            && (!c.crashed ==> Requests(events) == c.nextId - 1 + c.refused)
            && (c.refused > 0 ==> c.exited)
    decreases |events|
  {
    if events != [] {
      var before, e := events[..|events| - 1], events[|events| - 1];
      RequestsCounted(parse, before);
      RunLast(parse, INITIAL, events);
      hide Run, Drain, Overflowed;
      var c := Run(parse, INITIAL, before);
      if e.Chunk? { DrainIssuesNothing(parse, c.(buffer := c.buffer + e.text)); }
    }
  }

  // The one way a request is lost

  /** An error response to a pending request, with an error that cannot be read. */
  predicate LosesRequest(c: Conn, m: Incoming) {
    !IsSuccess(m) && IsError(m) && m.error.value.Unreadable? && m.id.value.Number? && m.id.value.n in c.pending
  }

  /** A message drops a request without settling it exactly if it is such a response. */
  lemma LostExactly(c: Conn, m: Incoming)
    requires Inv(c)
    ensures HandleMessage(c, m).dropped != c.dropped <==> LosesRequest(c, m)
    ensures HandleMessage(c, m).crashed != c.crashed ==> LosesRequest(c, m)
  {
    hide SettledIds, SettledOnce;
    if LosesRequest(c, m) {
      assert m.id.value.n !in c.dropped;
    }
  }

  /** Pending is exactly issued minus settled if and only if no such response has come. */
  lemma PendingExactly(c: Conn)
    requires Inv(c)
    ensures (forall id :: id in c.pending <==> Issued(c, id) && id !in SettledIds(c.settled)) <==> !c.crashed
  {
    hide SettledIds, SettledOnce;
    if c.crashed {
      var id :| id in c.dropped;
      assert Issued(c, id) && id !in SettledIds(c.settled) && id !in c.pending;
    }
  }

  // What one event does, field by field

  /** Request `n` and its timer are gone, every other request and timer is untouched. */
  ghost predicate Removed(c: Conn, d: Conn, n: nat) {
    && n !in d.pending && (forall t :: t in d.live ==> d.live[t] != n)
    && (forall i :: i != n ==> (i in d.pending <==> i in c.pending) && (i in c.pending ==> d.pending[i] == c.pending[i]))
    && (forall t :: t in c.live && c.live[t] != n ==> t in d.live && d.live[t] == c.live[t])
    && (forall t :: t in d.live ==> t in c.live)
    && d.nextId == c.nextId && d.nextTimer == c.nextTimer && d.exited == c.exited && d.refused == c.refused
  }

  lemma EntryRemoved(c: Conn, d: Conn, n: nat)
    requires TimersMatch(c) && n in c.pending
    requires d.pending == c.pending - {n} && d.live == c.live - {c.pending[n]}
    requires d.nextId == c.nextId && d.nextTimer == c.nextTimer && d.exited == c.exited && d.refused == c.refused
    ensures Removed(c, d, n)
  {
  }

  /** A response to a pending request settles it: with its result if it has one, else with its error's message. */
  lemma ResponseSettlesRequest(parse: string -> Incoming, c: Conn, line: string, n: nat)
    requires Inv(c) && n in c.pending && !("risoluto:" <= line)
    requires parse(line).Message? && parse(line).id == Some(Number(n))
    requires parse(line).result.Some? || parse(line).error.Some?
    ensures var m := parse(line); var d := HandleLine(parse, c, line);
            && d.lines == c.lines + [line] && d.forwarded == c.forwarded
            && (m.result.Some? ==>
                  d.settled == c.settled + [(n, Resolved(m.result.value))] && Removed(c, d, n) && d.crashed == c.crashed)
            && (m.result.None? && m.error.Some? && m.error.value.ErrorMessage? ==>
                  d.settled == c.settled + [(n, Rejected(m.error.value.message))] && Removed(c, d, n)
                  && d.crashed == c.crashed)
            && (m.result.None? && m.error == Some(Unreadable) ==>
                  d.settled == c.settled && Removed(c, d, n) && d.crashed)
  {
    InvTimers(c);
    hide Inv, TimersMatch, Removed;
    var m, d := parse(line), HandleLine(parse, c, line);
    EntryRemoved(c, d, n);
  }

  lemma InvTimers(c: Conn)
    requires Inv(c)
    ensures TimersMatch(c)
  {
  }

  /** A request or notification of the agent is passed on, and touches no request of ours. */
  lemma MessagePassedOn(parse: string -> Incoming, c: Conn, line: string)
    requires !("risoluto:" <= line) && parse(line).Message? && parse(line).name.Some?
    requires parse(line).id.Some? ==> parse(line).result.None? && parse(line).error.None?
    ensures var d := HandleLine(parse, c, line);
            d.forwarded == c.forwarded + [parse(line)] && d.lines == c.lines + [line] && SameBooks(c, d)
  {
  }

  /** A sentinel, a line that is no message, and a response to no pending request change nothing. */
  lemma LineIgnored(parse: string -> Incoming, c: Conn, line: string)
    requires var m := parse(line);
             || "risoluto:" <= line || !m.Message?
             || (m.id.None? && m.name.None?)
             || (m.id.Some? && m.result.None? && m.error.None? && m.name.None?)
             || (m.id.Some? && (m.result.Some? || m.error.Some?)
                 && (m.id.value.OtherId? || m.id.value.n !in c.pending))
    ensures HandleLine(parse, c, line) == c.(lines := c.lines + [line])
  {
  }

  /** A running timer rejects the request it belongs to; one that was cleared does nothing. */
  lemma TimerRejects(c: Conn, timer: nat)
    requires Inv(c)
    ensures timer in c.live ==>
              var d := TimerFires(c, timer);
              d.settled == c.settled + [(c.live[timer], TimedOut)] && Removed(c, d, c.live[timer])
              && d.crashed == c.crashed && d.lines == c.lines && d.buffer == c.buffer
    ensures timer !in c.live ==> TimerFires(c, timer) == c
  {
    InvTimers(c);
    hide Inv;
    if timer in c.live { EntryRemoved(c, TimerFires(c, timer), c.live[timer]); }
  }

  /** A request gets the next id and the next timer, unless the child has exited. */
  lemma IssueRegisters(c: Conn)
    ensures var d := Issue(c);
            && d.settled == c.settled && d.exited == c.exited
            && (!c.exited ==> d.nextId == c.nextId + 1 && d.refused == c.refused
                              && d.pending == c.pending[c.nextId := c.nextTimer]
                              && d.live == c.live[c.nextTimer := c.nextId])
            && (c.exited ==> d.nextId == c.nextId && d.refused == c.refused + 1
                             && d.pending == c.pending && d.live == c.live)
  {
  }

  /** Text that makes the buffer too long gets the child killed, unless it has exited, and no line is handled. */
  lemma OverflowKills(parse: string -> Incoming, c: Conn, text: string)
    ensures var d := TakeChunk(parse, c, text);
            ByteLength(c.buffer + text) > 10485760 ==> (d.killed || c.exited) && d.lines == c.lines && d.settled == c.settled
  {
    hide Drain, ByteLength;
  }

  /** Only that kills the child. */
  lemma {:induction false} DrainKillsNothing(parse: string -> Incoming, c: Conn)
    ensures Drain(parse, c).killed == c.killed
    decreases |c.buffer|
  {
    hide Find, Trim, HandleLine;
    if 0 <= Find(c.buffer, "\n") {
      var i := Find(c.buffer, "\n");
      LineKillsNothing(parse, c.(buffer := c.buffer[i + 1..]), Trim(c.buffer[..i]));
      DrainKillsNothing(parse, TakeLine(parse, c));
    }
  }

  lemma LineKillsNothing(parse: string -> Incoming, c: Conn, line: string)
    ensures HandleLine(parse, c, line).killed == c.killed
  {
  }

  /** The bytes of a text in UTF-8. */
  lemma Utf8Lengths(c: char)
    ensures ByteLength([c]) == if c <= '\U{7F}' then 1 else if c <= '\U{7FF}' then 2 else if c <= '\U{FFFF}' then 3 else 4
    ensures ByteLength("") == 0
  {
    assert [c][1..] == "";
  }

  // Where results come from

  /** The line is a response to request `id` that settles it this way. */
  predicate Answers(parse: string -> Incoming, line: string, id: nat, s: Settlement) {
    var m := parse(line);
    && !("risoluto:" <= line) && m.Message? && m.id == Some(Number(id))
    && match s
       case Resolved(result) => m.result == Some(result)
       case Rejected(message) => m.result.None? && m.error == Some(ErrorMessage(message))
       case _ => false
  }

  ghost predicate HasAnswer(parse: string -> Incoming, lines: seq<string>, id: nat, s: Settlement) {
    s == TimedOut || s == Exited || exists i :: 0 <= i < |lines| && Answers(parse, lines[i], id, s)
  }

  ghost predicate Backed(parse: string -> Incoming, c: Conn) {
    forall i :: 0 <= i < |c.settled| ==> HasAnswer(parse, c.lines, c.settled[i].0, c.settled[i].1)
  }

  lemma HasAnswerStill(parse: string -> Incoming, lines: seq<string>, more: seq<string>, id: nat, s: Settlement)
    requires HasAnswer(parse, lines, id, s)
    ensures HasAnswer(parse, lines + more, id, s)
  {
    hide Answers;
    if s != TimedOut && s != Exited {
      var i :| 0 <= i < |lines| && Answers(parse, lines[i], id, s);
      assert (lines + more)[i] == lines[i];
    }
  }

  lemma BackedMore(parse: string -> Incoming, c: Conn, d: Conn, more: seq<string>, added: seq<(nat, Settlement)>)
    requires Backed(parse, c) && d.lines == c.lines + more && d.settled == c.settled + added
    requires forall i :: 0 <= i < |added| ==> HasAnswer(parse, d.lines, added[i].0, added[i].1)
    ensures Backed(parse, d)
  {
    hide HasAnswer;
    forall i | 0 <= i < |d.settled| ensures HasAnswer(parse, d.lines, d.settled[i].0, d.settled[i].1) {
      if i < |c.settled| {
        HasAnswerStill(parse, c.lines, more, c.settled[i].0, c.settled[i].1);
      } else {
        assert d.settled[i] == added[i - |c.settled|];
      }
    }
  }

  /** A line settles at most one request, and only one it answers. */
  lemma LineSettles(parse: string -> Incoming, c: Conn, line: string) returns (more: seq<(nat, Settlement)>)
    ensures HandleLine(parse, c, line).settled == c.settled + more && |more| <= 1
    ensures more != [] ==> Answers(parse, line, more[0].0, more[0].1)
  {
    var m := parse(line);
    more := [];
    if !("risoluto:" <= line) && (IsSuccess(m) || IsError(m)) && m.id.value.Number? && m.id.value.n in c.pending {
      if IsSuccess(m) {
        more := [(m.id.value.n, Resolved(m.result.value))];
      } else if m.error.value.ErrorMessage? {
        more := [(m.id.value.n, Rejected(m.error.value.message))];
      }
    }
    assert c.settled + [] == c.settled;
  }

  lemma LineBacked(parse: string -> Incoming, c: Conn, line: string)
    requires Backed(parse, c)
    ensures Backed(parse, HandleLine(parse, c, line))
  {
    hide HandleLine, Answers, Backed;
    var d := HandleLine(parse, c, line);
    var more := LineSettles(parse, c, line);
    assert d.lines[|c.lines|] == line;
    BackedMore(parse, c, d, [line], more);
  }

  lemma {:induction false} DrainBacked(parse: string -> Incoming, c: Conn)
    requires Backed(parse, c)
    ensures Backed(parse, Drain(parse, c))
    decreases |c.buffer|
  {
    hide HandleLine, Find, HasAnswer;
    if 0 <= Find(c.buffer, "\n") {
      var i := Find(c.buffer, "\n");
      LineBacked(parse, c.(buffer := c.buffer[i + 1..]), Trim(c.buffer[..i]));
      DrainBacked(parse, TakeLine(parse, c));
    }
  }

  lemma {:induction false} ExitsOnly(pending: map<nat, nat>, n: nat)
    ensures forall i :: 0 <= i < |ExitSettlements(pending, n)| ==> ExitSettlements(pending, n)[i].1 == Exited
  {
    if n != 0 { ExitsOnly(pending, n - 1); }
  }

  lemma StepBacked(parse: string -> Incoming, c: Conn, e: Event)
    requires Backed(parse, c)
    ensures Backed(parse, Step(parse, c, e))
  {
    hide Drain, Overflowed;
    if c.crashed {
      return;
    }
    match e {
      case Chunk(text) => DrainBacked(parse, c.(buffer := c.buffer + text));
      case Exit =>
        ExitsOnly(c.pending, c.nextId);
        hide Answers;
        BackedMore(parse, c, TakeExit(c), [], ExitSettlements(c.pending, c.nextId));
      case Fire(timer) =>
        if timer in c.live {
          BackedMore(parse, c, TimerFires(c, timer), [], [(c.live[timer], TimedOut)]);
        }
      case Request =>
    }
  }

  /**
   * In every run a request is resolved or rejected only by a response to its own id that came in
   * as a line, and with the result or the message of that response.
   */
  lemma {:induction false} RunBacked(parse: string -> Incoming, c: Conn, events: seq<Event>)
    requires Backed(parse, c)
    ensures Backed(parse, Run(parse, c, events))
    decreases |events|
  {
    hide Step, Backed;
    if events != [] {
      StepBacked(parse, c, events[0]);
      RunBacked(parse, Step(parse, c, events[0]), events[1..]);
    }
  }

  // Framing

  function Cleaned(pieces: seq<string>): seq<string> {
    if pieces == [] then []
    else (if Trim(pieces[0]) == "" then [] else [Trim(pieces[0])]) + Cleaned(pieces[1..])
  }

  /** The non-empty trimmed lines of a text: its newline-terminated pieces. */
  function LinesOf(text: string): seq<string> {
    var p := Split(text, "\n");
    Cleaned(p[..|p| - 1])
  }

  /** The text after the last newline. */
  function TailOf(text: string): string {
    var p := Split(text, "\n");
    p[|p| - 1]
  }

  lemma {:induction false} CleanedAppend(a: seq<string>, b: seq<string>)
    ensures Cleaned(a + b) == Cleaned(a) + Cleaned(b)
    decreases |a|
  {
    hide Trim;
    if a == [] {
      assert a + b == b;
    } else {
      assert (a + b)[1..] == a[1..] + b;
      CleanedAppend(a[1..], b);
    }
  }

  lemma LinesOfPieces(text: string, a: seq<string>, q: seq<string>)
    requires Split(text, "\n") == a + q && q != []
    ensures LinesOf(text) == Cleaned(a) + Cleaned(q[..|q| - 1]) && TailOf(text) == q[|q| - 1]
  {
    hide Cleaned, Split;
    assert (a + q)[..|a + q| - 1] == a + q[..|q| - 1];
    CleanedAppend(a, q[..|q| - 1]);
  }

  lemma LinesAppend(x: string, y: string)
    ensures LinesOf(x + y) == LinesOf(x) + LinesOf(TailOf(x) + y)
    ensures TailOf(x + y) == TailOf(TailOf(x) + y)
  {
    hide Cleaned, Split;
    SplitAppend(x, y, "\n");
    var p, q := Split(x, "\n"), Split(TailOf(x) + y, "\n");
    LinesOfPieces(x + y, p[..|p| - 1], q);
  }

  lemma TakeLineLines(parse: string -> Incoming, c: Conn, i: nat)
    requires Find(c.buffer, "\n") == i && i < |c.buffer|
    ensures TakeLine(parse, c).buffer == c.buffer[i + 1..]
    ensures TakeLine(parse, c).lines == c.lines + Cleaned([c.buffer[..i]])
  {
    hide HandleLine, Trim;
    CleanedOne(c.buffer[..i]);
  }

  /** The newline loop, when nothing is thrown, takes exactly the complete lines off the buffer. */
  lemma {:induction false} DrainFrames(parse: string -> Incoming, c: Conn)
    requires !Drain(parse, c).crashed
    ensures Drain(parse, c).lines == c.lines + LinesOf(c.buffer)
    ensures Drain(parse, c).buffer == TailOf(c.buffer)
    decreases |c.buffer|
  {
    hide TakeLine, LinesOf, TailOf, Cleaned, Find;
    var i := Find(c.buffer, "\n");
    if i < 0 {
      NoLines(c.buffer);
    } else {
      TakeLineLines(parse, c, i);
      DrainFrames(parse, TakeLine(parse, c));
      FirstLine(c.buffer, i);
    }
  }

  lemma NoLines(text: string)
    requires Find(text, "\n") < 0
    ensures LinesOf(text) == [] && TailOf(text) == text
  {
    assert Split(text, "\n") == [text];
  }

  lemma CleanedOne(piece: string)
    ensures Cleaned([piece]) == if Trim(piece) == "" then [] else [Trim(piece)]
  {
    hide Trim;
    assert [piece][1..] == [];
  }

  lemma FirstLine(text: string, i: nat)
    requires Find(text, "\n") == i && i < |text|
    ensures LinesOf(text) == Cleaned([text[..i]]) + LinesOf(text[i + 1..])
    ensures TailOf(text) == TailOf(text[i + 1..])
  {
    hide Cleaned, Split, Find, Trim;
    SplitFirst(text, "\n");
    var rest := text[i + 1..];
    assert Split(text, "\n") == [text[..i]] + Split(rest, "\n");
    LinesOfPieces(text, [text[..i]], Split(rest, "\n"));
  }

  function TextOf(events: seq<Event>): string {
    if events == [] then ""
    else (if events[0].Chunk? then events[0].text else "") + TextOf(events[1..])
  }

  /** Once the limit is exceeded no line is ever handled again. */
  lemma {:induction false} OverflowIsFinal(parse: string -> Incoming, c: Conn, events: seq<Event>)
    requires Overflowed(c.buffer)
    ensures var d := Run(parse, c, events);
            Overflowed(d.buffer) && d.lines == c.lines && d.crashed == c.crashed
    decreases |events|
  {
    if events != [] {
      if events[0].Chunk? { ByteLengthAppend(c.buffer, events[0].text); }
      var d := Step(parse, c, events[0]);
      assert Overflowed(d.buffer) && d.lines == c.lines && d.crashed == c.crashed;
      hide Step;
      OverflowIsFinal(parse, d, events[1..]);
    }
  }

  lemma {:induction false} CrashIsFinal(parse: string -> Incoming, c: Conn, events: seq<Event>)
    requires c.crashed
    ensures Run(parse, c, events) == c
    decreases |events|
  {
    if events != [] { CrashIsFinal(parse, c, events[1..]); }
  }

  /**
   * Within the limit, the lines handled are those of all the text received so far,
   * whatever the chunks and whatever happens between them.
   */
  lemma {:induction false} FramingFrom(parse: string -> Incoming, c: Conn, events: seq<Event>)
    requires TailOf(c.buffer) == c.buffer && LinesOf(c.buffer) == []
    requires var d := Run(parse, c, events); !d.crashed && !Overflowed(d.buffer)
    ensures var d := Run(parse, c, events);
            && d.lines == c.lines + LinesOf(c.buffer + TextOf(events))
            && d.buffer == TailOf(c.buffer + TextOf(events))
    decreases |events|
  {
    hide Overflowed, LinesOf, TailOf, Step;
    if events == [] {
      assert c.buffer + TextOf(events) == c.buffer;
      return;
    }
    assert Run(parse, c, events) == Run(parse, Step(parse, c, events[0]), events[1..]);
    hide Run;
    var e := events[0];
    var c' := Step(parse, c, e);
    if c'.crashed { CrashIsFinal(parse, c', events[1..]); }
    if Overflowed(c'.buffer) { OverflowIsFinal(parse, c', events[1..]); }
    var text, rest := c.buffer + (if e.Chunk? then e.text else ""), TextOf(events[1..]);
    assert c.buffer + TextOf(events) == text + rest;
    hide TextOf, Find;
    FramingStep(parse, c, e);
    TailIsTail(text);
    FramingFrom(parse, c', events[1..]);
    LinesAppend(text, rest);
  }

  lemma FramingStep(parse: string -> Incoming, c: Conn, e: Event)
    requires TailOf(c.buffer) == c.buffer && LinesOf(c.buffer) == []
    requires var d := Step(parse, c, e); !d.crashed && !Overflowed(d.buffer)
    ensures var d := Step(parse, c, e);
            var text := c.buffer + (if e.Chunk? then e.text else "");
            d.lines == c.lines + LinesOf(text) && d.buffer == TailOf(text)
  {
    hide Overflowed, LinesOf, TailOf, Drain;
    if e.Chunk? {
      DrainFrames(parse, c.(buffer := c.buffer + e.text));
    } else {
      assert c.buffer + "" == c.buffer;
    }
  }

  lemma {:induction false} TailIsTail(text: string)
    ensures TailOf(TailOf(text)) == TailOf(text) && LinesOf(TailOf(text)) == []
    decreases |text|
  {
    hide LinesOf, TailOf;
    var i := Find(text, "\n");
    if 0 <= i {
      FirstLine(text, i);
      TailIsTail(text[i + 1..]);
    } else {
      NoLines(text);
    }
  }

  lemma Framing(parse: string -> Incoming, events: seq<Event>)
    requires var d := Run(parse, INITIAL, events); !d.crashed && !Overflowed(d.buffer)
    ensures var d := Run(parse, INITIAL, events);
            d.lines == LinesOf(TextOf(events)) && d.buffer == TailOf(TextOf(events))
  {
    hide Overflowed, Run;
    NoLines("");
    assert "" + TextOf(events) == TextOf(events);
    FramingFrom(parse, INITIAL, events);
  }

  // The object

  class JsonRpcConnection {
    const parse: string -> Incoming
    var buffer: string
    var nextId: nat
    var nextTimer: nat
    var pending: map<nat, nat>
    var live: map<nat, nat>
    var exited: bool
    var killed: bool
    var refused: nat
    var settled: seq<(nat, Settlement)>
    var dropped: set<nat>
    var lines: seq<string>
    var forwarded: seq<Incoming>
    var crashed: bool

    function State(): Conn
      reads this
    {
      Conn(buffer, nextId, nextTimer, pending, live, exited, killed, refused, settled, dropped, lines, forwarded, crashed)
    }

    constructor (parse: string -> Incoming)
      ensures State() == INITIAL && this.parse == parse
    {
      this.parse := parse;
      buffer, nextId, nextTimer := "", 1, 0;
      pending, live := map[], map[];
      exited, killed, refused, crashed := false, false, 0, false;
      settled, dropped, lines, forwarded := [], {}, [], [];
    }

    /** The new request's id, or none when the connection has already exited. */
    method Request() returns (id: Option<nat>)
      modifies this
      ensures State() == Issue(old(State()))
      ensures id == if old(exited) then None else Some(old(nextId))
    {
      if exited {
        refused := refused + 1;
        return None;
      }
      id := Some(nextId);
      var timer := nextTimer;
      nextTimer := nextTimer + 1;
      live := live[timer := nextId];
      pending := pending[nextId := timer];
      nextId := nextId + 1;
    }

    method OnTimer(timer: nat)
      modifies this
      ensures State() == TimerFires(old(State()), timer)
    {
      if timer in live {
        var id := live[timer];
        live := live - {timer};
        pending := pending - {id};
        settled := settled + [(id, TimedOut)];
      }
    }

    /** The timer is cleared and the entry deleted before the promise settles. */
    method SettleEntry(id: nat, s: Settlement)
      requires id in pending
      modifies this
      ensures State() == Settle(old(State()), id, s)
    {
      live := live - {pending[id]};
      pending := pending - {id};
      settled := settled + [(id, s)];
    }

    method OnLine(line: string)
      modifies this
      ensures State() == HandleLine(parse, old(State()), line)
    {
      lines := lines + [line];
      if "risoluto:" <= line {
        return;
      }
      var m := parse(line);
      if IsSuccess(m) {
        if m.id.value.Number? && m.id.value.n in pending {
          SettleEntry(m.id.value.n, Resolved(m.result.value));
        }
        return;
      }
      if IsError(m) {
        if m.id.value.Number? && m.id.value.n in pending {
          var n := m.id.value.n;
          match m.error.value {
            case Unreadable =>
              live := live - {pending[n]};
              pending := pending - {n};
              dropped, crashed := dropped + {n}, true;
            case ErrorMessage(text) => SettleEntry(n, Rejected(text));
          }
        }
        return;
      }
      if IsRequest(m) || IsNotification(m) {
        forwarded := forwarded + [m];
      }
    }

    method OnChunk(text: string)
      requires !crashed
      modifies this
      ensures State() == TakeChunk(parse, old(State()), text)
    {
      hide HandleLine, ByteLength, Trim, Find, Drain;
      buffer := buffer + text;
      if ByteLength(buffer) > MAX_LINE_BYTES {
        killed := killed || !exited;
        return;
      }
      ghost var target := Drain(parse, State());
      var newlineIndex := Find(buffer, "\n");
      while 0 <= newlineIndex
        invariant newlineIndex == Find(buffer, "\n") && !crashed
        invariant Drain(parse, State()) == target
        decreases |buffer|
      {
        DrainOne(parse, State());
        var line := Trim(buffer[..newlineIndex]);
        buffer := buffer[newlineIndex + 1..];
        if line != "" {
          OnLine(line);
          if crashed {
            return;
          }
        }
        newlineIndex := Find(buffer, "\n");
      }
      DrainNone(parse, State());
    }

    method OnExit()
      modifies this
      ensures State() == TakeExit(old(State()))
    {
      exited := true;
      var id := 0;
      while id < nextId
        invariant 0 <= id <= nextId
        invariant State() == old(State()).(exited := true,
                    settled := old(settled) + ExitSettlements(pending, id))
      {
        if id in pending {
          settled := settled + [(id, Exited)];
        }
        id := id + 1;
      }
      pending, live := map[], map[];
    }
  }
}
