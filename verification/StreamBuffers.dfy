/**
 * The live buffers of a turn: deltas accumulate per item, capped, and a debounce
 * timer per item emits what there is.  A timer may fire at any time.
 */
module StreamBuffers {
  import opened Json

  const MAX_LIVE_BUFFER_CHARS: nat := 16000

  datatype Kind = AgentMessage | CommandOutput | ReasoningDelta

  /** The three buffer maps are one map here, keyed by which of them and by item. */
  datatype Key = Key(kind: Kind, item: string)

  type TimerId = nat

  datatype Buffer = Buffer(content: string, pending: Option<TimerId>)

  datatype Emission = Emission(key: Key, content: string)

  /** `timers` are the running ones, with the buffer each will flush. */
  datatype State = State(
    buffers: map<Key, Buffer>, timers: map<TimerId, Key>, nextTimer: TimerId, emitted: seq<Emission>)

  const EMPTY: State := State(map[], map[], 0, [])

  datatype Step = Delta(key: Key, text: string) | Fire(timer: TimerId) | Completed(item: string) | ClearAll

  /** The last characters of a text, as many as a buffer keeps. */
  function Tail(s: string): (t: string)
    ensures |t| <= MAX_LIVE_BUFFER_CHARS
  {
    if |s| > MAX_LIVE_BUFFER_CHARS then s[|s| - MAX_LIVE_BUFFER_CHARS..] else s
  }

  /** The tail is the end of the text, all of it up to 16000 characters. */
  lemma TailIsEnd(s: string)
    ensures |Tail(s)| == if |s| <= 16000 then |s| else 16000
    ensures Tail(s) == s[|s| - |Tail(s)|..]
  {
  }

  /** Cutting as the text grows leaves what cutting once would. */
  lemma TailAppend(a: string, b: string)
    ensures Tail(Tail(a) + b) == Tail(a + b)
  {
    if |a + b| > MAX_LIVE_BUFFER_CHARS && |a| > MAX_LIVE_BUFFER_CHARS {
      assert a + b == a[..|a| - MAX_LIVE_BUFFER_CHARS] + (Tail(a) + b);
    }
  }

  function BufferAt(buffers: map<Key, Buffer>, key: Key): Buffer {
    if key in buffers then buffers[key] else Buffer("", None)
  }

  /** `scheduleStreamEmit`; the handlers before it let no empty item or text through. */
  function OnDelta(s: State, key: Key, text: string): State {
    if key.item == "" || text == "" then s else
    var b := BufferAt(s.buffers, key);
    var content := Tail(b.content + text);
    if b.pending.Some? then s.(buffers := s.buffers[key := b.(content := content)])
    else s.(buffers := s.buffers[key := Buffer(content, Some(s.nextTimer))],
            timers := s.timers[s.nextTimer := key], nextTimer := s.nextTimer + 1)
  }

  /** The timer's callback. */
  function OnFire(s: State, t: TimerId): State {
    if t !in s.timers || s.timers[t] !in s.buffers then s else
    var key := s.timers[t];
    s.(buffers := s.buffers[key := s.buffers[key].(pending := None)], timers := s.timers - {t},
       emitted := s.emitted + [Emission(key, s.buffers[key].content)])
  }

  /** `clearStreamingBuffer` for each of these. */
  function Clear(s: State, keys: set<Key>): State {
    s.(buffers := s.buffers - keys,
       timers := s.timers - set key | key in keys && key in s.buffers && s.buffers[key].pending.Some?
                                :: s.buffers[key].pending.value)
  }

  function KeysOf(item: string): set<Key> {
    if item == "" then {} else {Key(AgentMessage, item), Key(CommandOutput, item), Key(ReasoningDelta, item)}
  }

  function Apply(s: State, step: Step): State {
    match step
    case Delta(key, text) => OnDelta(s, key, text)
    case Fire(t) => OnFire(s, t)
    case Completed(item) => Clear(s, KeysOf(item))
    case ClearAll => Clear(s, s.buffers.Keys)
  }

  function Run(steps: seq<Step>): State {
    if steps == [] then EMPTY else Apply(Run(steps[..|steps| - 1]), steps[|steps| - 1])
  }

  function Grow(received: string, step: Step, key: Key): string {
    match step
    case Delta(k, text) => if k == key && key.item != "" then received + text else received
    case Fire(_) => received
    case Completed(item) => if key in KeysOf(item) then "" else received
    case ClearAll => ""
  }

  /** All deltas of a buffer since it was created, uncut. */
  function Received(steps: seq<Step>, key: Key): string {
    if steps == [] then "" else Grow(Received(steps[..|steps| - 1], key), steps[|steps| - 1], key)
  }

  // Every run

  /** The running timers are the pending flushes, one to a buffer. */
  predicate TimersOk(s: State) {
    && (forall key <- s.buffers :: s.buffers[key].pending.Some? ==>
          s.buffers[key].pending.value in s.timers && s.timers[s.buffers[key].pending.value] == key)
    && (forall t <- s.timers ::
          t < s.nextTimer && s.timers[t] in s.buffers && s.buffers[s.timers[t]].pending == Some(t))
  }

  lemma ApplyTimers(s: State, step: Step)
    requires TimersOk(s)
    ensures TimersOk(Apply(s, step))
  {
    hide Tail;
  }

  /** No timer runs for a buffer that was completed, and none at all after a clear-all. */
  lemma ClearedSilent(s: State, keys: set<Key>)
    requires TimersOk(s)
    ensures TimersOk(Clear(s, keys))
    ensures forall t <- Clear(s, keys).timers :: Clear(s, keys).timers[t] in s.buffers.Keys - keys
  {
  }

  /** What was emitted last for a buffer since `from` emissions. */
  function LastEmitted(emitted: seq<Emission>, key: Key): Option<string> {
    if emitted == [] then None
    else if emitted[|emitted| - 1].key == key then Some(emitted[|emitted| - 1].content)
    else LastEmitted(emitted[..|emitted| - 1], key)
  }

  /** A buffer holds the tail of its deltas, and with no flush pending that is what went out last. */
  predicate BufferOk(s: State, received: string, key: Key) {
    && (key in s.buffers <==> received != "")
    && (key in s.buffers ==>
          && s.buffers[key].content == Tail(received)
          && (s.buffers[key].pending.None? ==> LastEmitted(s.emitted, key) == Some(s.buffers[key].content)))
  }

  lemma ApplyBuffer(s: State, step: Step, received: string, key: Key)
    requires TimersOk(s) && BufferOk(s, received, key)
    ensures BufferOk(Apply(s, step), Grow(received, step, key), key)
  {
    EmptyTail();
    hide Tail;
    match step {
      case Delta(k, text) =>
        TailAppend(received, text);
        assert "" + text == text && received + "" == received;
      case Fire(t) =>
        var e := Apply(s, step).emitted;
        assert e != s.emitted ==> e[..|e| - 1] == s.emitted;
      case Completed(item) =>
      case ClearAll =>
    }
  }

  lemma EmptyTail()
    ensures Tail("") == ""
  {
  }

  /**
   * In every run, however timers fire between deltas, completions and clear-alls: the content of
   * a buffer is the last 16000 characters of all its deltas since it was created, the running
   * timers are exactly the pending flushes, at most one to a buffer, and a buffer without a
   * pending flush has been emitted as it stands.
   */
  lemma {:induction false} RunBuffers(steps: seq<Step>, key: Key)
    ensures TimersOk(Run(steps)) && BufferOk(Run(steps), Received(steps, key), key)
    decreases |steps|
  {
    if steps != [] {
      hide Apply, TimersOk, BufferOk, Grow;
      var before, step := steps[..|steps| - 1], steps[|steps| - 1];
      RunBuffers(before, key);
      ApplyTimers(Run(before), step);
      ApplyBuffer(Run(before), step, Received(before, key), key);
    }
  }

  /** A timer that fires while running emits the tail of its buffer's deltas; any other does nothing. */
  lemma FlushEmits(steps: seq<Step>, t: TimerId)
    ensures var s := Run(steps);
            Run(steps + [Fire(t)]).emitted ==
            s.emitted + if t in s.timers then [Emission(s.timers[t], Tail(Received(steps, s.timers[t])))] else []
  {
    hide Tail, LastEmitted, Received;
    var s := Run(steps);
    assert (steps + [Fire(t)])[..|steps|] == steps;
    RunBuffers(steps, if t in s.timers then s.timers[t] else Key(AgentMessage, ""));
  }

  /** After a completion no timer of the item runs, and after a clear-all none does. */
  lemma NoFlushAfter(steps: seq<Step>, step: Step)
    requires step.Completed? || step.ClearAll?
    ensures forall t <- Run(steps + [step]).timers ::
              step.Completed? && Run(steps + [step]).timers[t].item != step.item
  {
    hide TimersOk, BufferOk, OnDelta, OnFire, Clear;
    assert (steps + [step])[..|steps|] == steps;
    RunBuffers(steps, Key(AgentMessage, ""));
    NoEmptyItem(steps);
    var s := Run(steps);
    ClearedSilent(s, if step.Completed? then KeysOf(step.item) else s.buffers.Keys);
    KindsOf();
  }

  lemma KindsOf()
    ensures forall key: Key :: key.item != "" ==> key in KeysOf(key.item)
  {
    forall key: Key | key.item != "" ensures key in KeysOf(key.item) {
      match key.kind
      case AgentMessage => assert key == Key(AgentMessage, key.item);
      case CommandOutput => assert key == Key(CommandOutput, key.item);
      case ReasoningDelta => assert key == Key(ReasoningDelta, key.item);
    }
  }

  lemma {:induction false} NoEmptyItem(steps: seq<Step>)
    ensures forall key <- Run(steps).buffers :: key.item != ""
    decreases |steps|
  {
    hide Tail;
    if steps != [] { NoEmptyItem(steps[..|steps| - 1]); }
  }

  // The object

  class StreamingBuffer {
    var content: string
    var pending: Option<TimerId>

    constructor ()
      ensures content == "" && pending == None
    {
      content, pending := "", None;
    }

    function View(): Buffer
      reads this
    {
      Buffer(content, pending)
    }

    method SetPending(timer: Option<TimerId>)
      modifies this`pending
      ensures pending == timer
    {
      pending := timer;
    }

    method Append(delta: string)
      modifies this`content
      ensures content == Tail(old(content) + delta)
    {
      content := content + delta;
      if |content| > MAX_LIVE_BUFFER_CHARS {
        content := content[|content| - MAX_LIVE_BUFFER_CHARS..];
      }
    }
  }

  /** A running timer's closure holds the buffer object it will flush. */
  datatype Closure = Closure(key: Key, buffer: StreamingBuffer)

  class TurnStreams {
    var buffers: map<Key, StreamingBuffer>
    var timers: map<TimerId, Closure>
    var nextTimer: TimerId
    var emitted: seq<Emission>

    /** The buffers are distinct, and a running timer holds the one that stands in the map under its key. */
    ghost predicate Linked()
      reads this`buffers, this`timers
    {
      && (forall a, b :: a in buffers && b in buffers && buffers[a] == buffers[b] ==> a == b)
      && (forall t <- timers :: timers[t].key in buffers && buffers[timers[t].key] == timers[t].buffer)
    }

    ghost predicate Valid()
      reads this, buffers.Values
    {
      Linked() && TimersOk(View())
    }

    ghost function Buffers(): map<Key, Buffer>
      reads this`buffers, buffers.Values
    {
      map key | key in buffers :: buffers[key].View()
    }

    ghost function Timers(): map<TimerId, Key>
      reads this`timers
    {
      map t | t in timers :: timers[t].key
    }

    ghost function View(): State
      reads this, buffers.Values
    {
      State(Buffers(), Timers(), nextTimer, emitted)
    }

    constructor ()
      ensures Valid() && View() == EMPTY
    {
      buffers, timers, nextTimer, emitted := map[], map[], 0, [];
    }

    /** `getOrCreateStreamingBuffer` */
    method GetOrCreate(key: Key) returns (b: StreamingBuffer)
      requires Linked()
      modifies this`buffers
      ensures Linked() && key in buffers && b == buffers[key] && Timers() == old(Timers())
      ensures Buffers() == if key in old(buffers) then old(Buffers()) else old(Buffers())[key := Buffer("", None)]
      ensures fresh(buffers.Values - old(buffers.Values))
    {
      if key in buffers {
        return buffers[key];
      }
      b := new StreamingBuffer();
      ghost var before := buffers;
      buffers := buffers[key := b];
      assert buffers.Values <= before.Values + {b};
    }

    method Append(key: Key, b: StreamingBuffer, delta: string)
      requires Linked() && key in buffers && b == buffers[key]
      modifies b
      ensures Linked() && Timers() == old(Timers())
      ensures Buffers() == old(Buffers())[key := Buffer(Tail(old(b.content) + delta), old(b.pending))]
    {
      hide Tail;
      b.Append(delta);
    }

    method Extend(key: Key, delta: string) returns (b: StreamingBuffer)
      requires Linked()
      modifies this`buffers, buffers.Values
      ensures Linked() && Timers() == old(Timers()) && key in buffers && b == buffers[key]
      ensures fresh(buffers.Values - old(buffers.Values))
      ensures var was := BufferAt(old(Buffers()), key);
              b.View() == Buffer(Tail(was.content + delta), was.pending) && Buffers() == old(Buffers())[key := b.View()]
    {
      hide Tail, Linked, Timers;
      b := GetOrCreate(key);
      assert b.View() == Buffers()[key];
      Append(key, b, delta);
      assert b.View() == Buffers()[key];
    }

    /** `setTimeout` for a buffer */
    method Arm(key: Key, b: StreamingBuffer)
      requires Linked() && key in buffers && b == buffers[key]
      modifies this`timers, this`nextTimer, b
      ensures Linked() && Timers() == old(Timers())[old(nextTimer) := key] && nextTimer == old(nextTimer) + 1
      ensures Buffers() == old(Buffers())[key := Buffer(old(b.content), Some(old(nextTimer)))]
    {
      b.SetPending(Some(nextTimer));
      assert Buffers() == old(Buffers())[key := b.View()];
      hide Buffers, Linked, Timers;
      SetTimer(key, b);
    }

    method SetTimer(key: Key, b: StreamingBuffer)
      requires Linked() && key in buffers && b == buffers[key]
      modifies this`timers, this`nextTimer
      ensures Linked() && Timers() == old(Timers())[old(nextTimer) := key] && nextTimer == old(nextTimer) + 1
    {
      timers := timers[nextTimer := Closure(key, b)];
      nextTimer := nextTimer + 1;
    }

    /** `scheduleStreamEmit` behind the handlers' guard */
    method Schedule(key: Key, delta: string)
      requires Valid()
      modifies this, buffers.Values
      ensures Valid() && View() == OnDelta(old(View()), key, delta)
    {
      hide TimersOk, Tail, Linked, Timers;
      ApplyTimers(View(), Delta(key, delta));
      if key.item == "" || delta == "" {
        return;
      }
      OnDeltaInSteps(View(), key, delta);
      hide OnDelta, BufferAt;
      var b := Extend(key, delta);
      hide Buffers;
      if b.pending.None? {
        Arm(key, b);
      }
    }

    /** The callback of a running timer. */
    method OnTimer(t: TimerId)
      requires Valid() && t in timers
      modifies this, buffers.Values
      ensures Valid() && View() == OnFire(old(View()), t)
    {
      hide TimersOk;
      ghost var s := View();
      ApplyTimers(s, Fire(t));
      var closure := timers[t];
      timers := timers - {t};
      closure.buffer.pending := None;
      emitted := emitted + [Emission(closure.key, closure.buffer.content)];
      assert Timers() == s.timers - {t};
      assert Buffers() == s.buffers[closure.key := s.buffers[closure.key].(pending := None)];
    }

    /** `clearTimeout` and `delete` for one key */
    method Remove(key: Key, gone: set<TimerId>)
      requires Linked() && forall t <- Timers() :: t in gone || Timers()[t] != key
      modifies this`buffers, this`timers
      ensures Linked() && buffers == old(buffers) - {key}
      ensures Timers() == old(Timers()) - gone && Buffers() == old(Buffers()) - {key}
    {
      timers := timers - gone;
      buffers := buffers - {key};
      assert forall t <- timers :: Timers()[t] != key;
    }

    /** `clearStreamingBuffer` */
    method ClearBuffer(key: Key)
      requires Valid()
      modifies this`buffers, this`timers
      ensures Valid() && View() == Clear(old(View()), {key}) && buffers == old(buffers) - {key}
    {
      hide TimersOk, Linked, Timers, Clear;
      ghost var s := View();
      ClearedSilent(s, {key});
      ClearOne(s, key);
      assert key in buffers ==> s.buffers[key] == buffers[key].View();
      assert key in s.buffers <==> key in buffers;
      hide Buffers;
      var gone := if key in buffers && buffers[key].pending.Some? then {buffers[key].pending.value} else {};
      assert Clear(s, {key}).timers == s.timers - gone;
      assert forall t <- Timers() :: t in gone || t in Clear(s, {key}).timers;
      Remove(key, gone);
    }

    /** The clean-up of `handleItemEvent` when an item is completed. */
    method OnItemCompleted(item: string)
      requires Valid()
      modifies this
      ensures Valid() && View() == Apply(old(View()), Completed(item))
    {
      hide Clear, TimersOk, Linked, Buffers, Timers;
      ghost var s := View();
      ClearNone(s);
      if item == "" {
        return;
      }
      var a, c, r := Key(AgentMessage, item), Key(CommandOutput, item), Key(ReasoningDelta, item);
      ClearBuffer(a);
      ClearMore(s, {a}, c);
      ClearBuffer(c);
      ClearMore(s, {a} + {c}, r);
      ClearBuffer(r);
      assert {a} + {c} + {r} == KeysOf(item);
    }

    /** `clearAllStreamingBuffers` */
    method ClearAllBuffers()
      requires Valid()
      modifies this
      ensures Valid() && View() == Apply(old(View()), ClearAll)
    {
      hide TimersOk, Linked, Timers, Clear;
      ghost var s := View();
      var todo := buffers.Keys;
      ClearNone(s);
      assert s.buffers.Keys == todo && todo - todo == {};
      hide Buffers;
      while todo != {}
        invariant buffers.Keys == todo <= s.buffers.Keys
        invariant Valid() && View() == Clear(s, s.buffers.Keys - todo)
        decreases |todo|
      {
        var key :| key in todo;
        ClearMore(s, s.buffers.Keys - todo, key);
        assert s.buffers.Keys - (todo - {key}) == s.buffers.Keys - todo + {key};
        ClearBuffer(key);
        todo := todo - {key};
      }
      assert s.buffers.Keys - {} == s.buffers.Keys;
    }
  }

  lemma ClearNone(s: State)
    ensures Clear(s, {}) == s
  {
    assert Clear(s, {}).timers == s.timers && Clear(s, {}).buffers == s.buffers;
  }

  /** `OnDelta`, with the content put in before the timer. */
  lemma OnDeltaInSteps(s: State, key: Key, text: string)
    requires key.item != "" && text != ""
    ensures var was := BufferAt(s.buffers, key);
            var b := Buffer(Tail(was.content + text), was.pending);
            var extended := s.buffers[key := b];
            OnDelta(s, key, text) ==
            if b.pending.Some? then State(extended, s.timers, s.nextTimer, s.emitted)
            else State(extended[key := Buffer(b.content, Some(s.nextTimer))], s.timers[s.nextTimer := key],
                       s.nextTimer + 1, s.emitted)
  {
    hide Tail;
  }

  lemma ClearOne(s: State, key: Key)
    ensures Clear(s, {key}).buffers == s.buffers - {key} && Clear(s, {key}).nextTimer == s.nextTimer
    ensures Clear(s, {key}).emitted == s.emitted
    ensures Clear(s, {key}).timers ==
            s.timers - if key in s.buffers && s.buffers[key].pending.Some? then {s.buffers[key].pending.value} else {}
  {
  }

  lemma ClearMore(s: State, keys: set<Key>, key: Key)
    ensures Clear(Clear(s, keys), {key}) == Clear(s, keys + {key})
  {
    assert Clear(Clear(s, keys), {key}).buffers == Clear(s, keys + {key}).buffers;
  }
}
