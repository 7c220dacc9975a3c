/**
 * The dispatch stream between data plane and control plane: what the server
 * writes, and what the client makes of it however the network cuts it up.
 */
module Dispatch {
  import opened Text
  import opened Json

  datatype Message = Event(payload: Doc) | Outcome(payload: Doc)

  const FRAME_END: string := "\n\n"

  function Encode(m: Message): string {
    Print(DObj([Field("type", DStr(if m.Event? then "event" else "outcome")), Field("payload", m.payload)]))
  }

  /** What `sendSSE` writes for one message, without the blank line that ends it. */
  function Body(m: Message): string {
    "data: " + Encode(m)
  }

  function Frames(ms: seq<Message>): string {
    if ms == [] then "" else Body(ms[0]) + FRAME_END + Frames(ms[1..])
  }

  // The server

  /** What running the attempt came to: an outcome, or an error that was thrown. */
  datatype Result = Finished(outcome: Doc) | Threw(message: string)

  function FailureOutcome(message: string): Doc {
    DObj([Field("kind", DStr("failed")), Field("errorCode", DStr("dispatch_error")),
          Field("errorMessage", DStr(message)), Field("threadId", DNull),
          Field("turnId", DNull), Field("turnCount", DNum("0"))])
  }

  function FinalMessage(result: Result): Message {
    match result
    case Finished(outcome) => Outcome(outcome)
    case Threw(message) => Outcome(FailureOutcome(message))
  }

  function Events(payloads: seq<Doc>): (ms: seq<Message>)
    ensures |ms| == |payloads| && forall i :: 0 <= i < |ms| ==> ms[i] == Event(payloads[i])
  {
    seq(|payloads|, i requires 0 <= i < |payloads| => Event(payloads[i]))
  }

  class DataPlane {
    var active: set<string>

    /** One dispatch: every event in order, then exactly one outcome, whether the run returned or threw. */
    method Dispatch(runId: string, payloads: seq<Doc>, result: Result) returns (written: string)
      modifies this
      ensures active == old(active) - {runId}
      ensures written == Frames(Events(payloads) + [FinalMessage(result)])
      ensures result.Finished? ==> written == Frames(Events(payloads) + [Outcome(result.outcome)])
    {
      active := active + {runId};
      written := "";
      var n := 0;
      while n < |payloads|
        invariant 0 <= n <= |payloads|
        invariant written == Frames(Events(payloads)[..n])
        invariant active == old(active) + {runId}
      {
        FramesAppend(Events(payloads)[..n], Event(payloads[n]));
        assert Events(payloads)[..n + 1] == Events(payloads)[..n] + [Event(payloads[n])];
        written := written + (Body(Event(payloads[n])) + FRAME_END);
        n := n + 1;
      }
      assert Events(payloads)[..n] == Events(payloads);
      FramesAppend(Events(payloads), FinalMessage(result));
      match result {
        case Finished(outcome) =>
          written := written + (Body(Outcome(outcome)) + FRAME_END);
        case Threw(message) =>
          written := written + (Body(Outcome(FailureOutcome(message))) + FRAME_END);
      }
      active := active - {runId};
    }
  }

  lemma {:induction false} FramesAppend(ms: seq<Message>, m: Message)
    ensures Frames(ms + [m]) == Frames(ms) + (Body(m) + FRAME_END)
  {
    if ms == [] {
      assert ms + [m] == [m];
      assert Frames([m][1..]) == "";
    } else {
      assert (ms + [m])[1..] == ms[1..] + [m];
      FramesAppend(ms[1..], m);
    }
  }

  // The client

  /** What `JSON.parse` and the inspection of `type` make of a payload. */
  datatype Decoded = Nothing | EventPayload(event: Option<Doc>) | OutcomePayload(outcome: Doc)

  datatype Client = Client(buffer: string, delivered: seq<Option<Doc>>, outcome: Option<Doc>)

  const START: Client := Client("", [], None)

  function HandleFrame(decode: string -> Decoded, line: string, c: Client): Client {
    if Trim(line) == "" then c else
    var trimmed := TrimStart(line);
    if !("data:" <= trimmed) then c else
    match decode(TrimStart(trimmed[5..]))
    case Nothing => c
    case EventPayload(e) => c.(delivered := c.delivered + [e])
    case OutcomePayload(o) => c.(outcome := Some(o))
  }

  function HandleFrames(decode: string -> Decoded, lines: seq<string>, c: Client): Client {
    if lines == [] then c else HandleFrames(decode, lines[1..], HandleFrame(decode, lines[0], c))
  }

  /** One chunk: complete frames are handled, the last piece stays in the buffer. */
  function Feed(decode: string -> Decoded, c: Client, chunk: string): Client {
    var pieces := Split(c.buffer + chunk, FRAME_END);
    HandleFrames(decode, pieces[..|pieces| - 1], c).(buffer := pieces[|pieces| - 1])
  }

  function FeedAll(decode: string -> Decoded, c: Client, chunks: seq<string>): Client
    decreases |chunks|
  {
    if chunks == [] then c else FeedAll(decode, Feed(decode, c, chunks[0]), chunks[1..])
  }

  /** The loop of `parseDispatchStream`; no outcome at the end of the stream is an error. */
  method ParseDispatchStream(decode: string -> Decoded, chunks: seq<string>)
    returns (delivered: seq<Option<Doc>>, outcome: Option<Doc>)
    ensures delivered == FeedAll(decode, START, chunks).delivered
    ensures outcome == FeedAll(decode, START, chunks).outcome
  {
    var buffer := "";
    delivered, outcome := [], None;
    var next := 0;
    while next < |chunks|
      invariant 0 <= next <= |chunks|
      invariant FeedAll(decode, Client(buffer, delivered, outcome), chunks[next..]) == FeedAll(decode, START, chunks)
    {
      ghost var before := Client(buffer, delivered, outcome);
      var lines := Split(buffer + chunks[next], FRAME_END);
      buffer := lines[|lines| - 1];
      lines := lines[..|lines| - 1];
      var i := 0;
      while i < |lines|
        invariant 0 <= i <= |lines|
        invariant HandleFrames(decode, lines[i..], Client(before.buffer, delivered, outcome))
               == HandleFrames(decode, lines, before)
      {
        assert lines[i..][1..] == lines[i + 1..];
        var c := HandleFrame(decode, lines[i], Client("", delivered, outcome));
        HandleFrameKeepsBuffer(decode, lines[i], Client(before.buffer, delivered, outcome));
        delivered, outcome := c.delivered, c.outcome;
        i := i + 1;
      }
      assert Client(buffer, delivered, outcome) == Feed(decode, before, chunks[next]);
      assert chunks[next..][1..] == chunks[next + 1..];
      next := next + 1;
    }
  }

  lemma HandleFrameKeepsBuffer(decode: string -> Decoded, line: string, c: Client)
    ensures HandleFrame(decode, line, c) == HandleFrame(decode, line, c.(buffer := "")).(buffer := c.buffer)
  {
  }

  // How the stream is cut does not matter

  lemma {:induction false} HandleFramesAppend(decode: string -> Decoded, a: seq<string>, b: seq<string>, c: Client)
    ensures HandleFrames(decode, a + b, c) == HandleFrames(decode, b, HandleFrames(decode, a, c))
    decreases |a|
  {
    if a == [] {
      assert a + b == b;
    } else {
      assert (a + b)[1..] == a[1..] + b;
      HandleFramesAppend(decode, a[1..], b, HandleFrame(decode, a[0], c));
    }
  }

  /** Handling frames neither reads nor writes the buffer. */
  lemma {:induction false} HandleFramesBuffer(decode: string -> Decoded, a: seq<string>, c: Client, x: string)
    ensures HandleFrames(decode, a, c).buffer == c.buffer
    ensures HandleFrames(decode, a, c.(buffer := x)) == HandleFrames(decode, a, c).(buffer := x)
    decreases |a|
  {
    if a != [] {
      HandleFrameKeepsBuffer(decode, a[0], c);
      HandleFrameKeepsBuffer(decode, a[0], c.(buffer := x));
      HandleFramesBuffer(decode, a[1..], HandleFrame(decode, a[0], c), x);
    }
  }

  lemma FeedTwice(decode: string -> Decoded, c: Client, x: string, y: string)
    ensures Feed(decode, Feed(decode, c, x), y) == Feed(decode, c, x + y)
  {
    hide HandleFrame, HandleFrames, Split;
    var p := Split(c.buffer + x, FRAME_END);
    var done, last := p[..|p| - 1], p[|p| - 1];
    var q := Split(last + y, FRAME_END);
    SplitAppend(c.buffer + x, y, FRAME_END);
    assert c.buffer + (x + y) == c.buffer + x + y;
    assert (done + q)[..|done + q| - 1] == done + q[..|q| - 1];
    HandleFramesAppend(decode, done, q[..|q| - 1], c);
    HandleFramesBuffer(decode, q[..|q| - 1], HandleFrames(decode, done, c), last);
  }

  function Concat(chunks: seq<string>): string {
    if chunks == [] then "" else chunks[0] + Concat(chunks[1..])
  }

  /** A frame boundary is not yet pending in the buffer. */
  predicate Settled(c: Client) {
    Find(c.buffer, FRAME_END) < 0
  }

  /** Any way of cutting any stream into chunks has the effect of the whole stream at once. */
  lemma {:induction false} ChunkIndependent(decode: string -> Decoded, c: Client, chunks: seq<string>)
    requires Settled(c)
    ensures FeedAll(decode, c, chunks) == Feed(decode, c, Concat(chunks))
    decreases |chunks|
  {
    if chunks == [] {
      assert c.buffer + "" == c.buffer;
    } else {
      SplitLastSettled(c.buffer + chunks[0]);
      ChunkIndependent(decode, Feed(decode, c, chunks[0]), chunks[1..]);
      FeedTwice(decode, c, chunks[0], Concat(chunks[1..]));
    }
  }

  lemma {:induction false} SplitLastSettled(s: string)
    ensures var p := Split(s, FRAME_END); Find(p[|p| - 1], FRAME_END) < 0
    decreases |s|
  {
    var i := Find(s, FRAME_END);
    if 0 <= i { SplitLastSettled(s[i + 2..]); }
  }

  // The client understands what the server writes

  predicate Falsy(d: Doc) {
    d == DNull || d == DBool(false) || d == DStr("") || d == DNum("0")
  }

  /** The client's decoding, over the compact JSON text that the server emits. */
  function Decode(text: string): Decoded {
    match Parse(text)
    case Some(DObj(fields)) =>
      var payload := Lookup(fields, "payload");
      if Lookup(fields, "type") == Some(DStr("event")) then EventPayload(payload)
      else if Lookup(fields, "type") == Some(DStr("outcome")) && payload.Some? && !Falsy(payload.value)
      then OutcomePayload(payload.value)
      else Nothing
    case _ => Nothing
  }

  /** Outcomes are objects. */
  predicate Proper(m: Message) {
    m.Outcome? ==> m.payload.DObj?
  }

  function EventsOf(ms: seq<Message>): seq<Option<Doc>> {
    if ms == [] then []
    else (if ms[0].Event? then [Some(ms[0].payload)] else []) + EventsOf(ms[1..])
  }

  function LastOutcome(ms: seq<Message>, otherwise: Option<Doc>): Option<Doc> {
    if ms == [] then otherwise
    else LastOutcome(ms[1..], if ms[0].Outcome? then Some(ms[0].payload) else otherwise)
  }

  lemma DecodeEncode(m: Message)
    requires Proper(m)
    ensures Decode(Encode(m)) == if m.Event? then EventPayload(Some(m.payload)) else OutcomePayload(m.payload)
  {
    var f := [Field("type", DStr(if m.Event? then "event" else "outcome")), Field("payload", m.payload)];
    ParsePrint(DObj(f));
    assert f[1..] == [f[1]] && f[1..][1..] == [];
    assert Lookup(f[1..][1..], "type") == None && Lookup(f[1..][1..], "payload") == None;
    assert Lookup(f[1..], "type") == None && Lookup(f[1..], "payload") == Some(m.payload);
  }

  lemma EncodeShape(m: Message)
    ensures var e := Encode(m); 2 <= |e| && e[0] == '{' && e[|e| - 1] == '}' && NoControl(e)
  {
    PrintNoControl(DObj([Field("type", DStr(if m.Event? then "event" else "outcome")), Field("payload", m.payload)]));
  }

  lemma BodyShape(m: Message)
    ensures Trimmed(Body(m)) && 6 <= |Body(m)|
    ensures forall i :: 0 <= i < |Body(m)| ==> Body(m)[i] != '\n'
  {
    hide Encode;
    EncodeShape(m);
    assert forall i :: 6 <= i < |Body(m)| ==> Body(m)[i] == Encode(m)[i - 6];
  }

  lemma PayloadOfBody(m: Message)
    ensures var line := Body(m);
            && Trim(line) == line == TrimStart(line)
            && "data:" <= line && TrimStart(line[5..]) == Encode(m)
  {
    hide Encode;
    BodyShape(m);
    EncodeShape(m);
    hide Trim;
    TrimTrimmed(Body(m));
    var p := " " + Encode(m);
    assert Body(m)[5..] == p;
    RunIs(IsSpace, p, 1);
    assert p[1..] == Encode(m);
  }

  lemma HandleBody(m: Message, c: Client)
    requires Proper(m)
    ensures HandleFrame(Decode, Body(m), c) ==
            if m.Event? then c.(delivered := c.delivered + [Some(m.payload)]) else c.(outcome := Some(m.payload))
  {
    BodyShape(m);
    PayloadOfBody(m);
    DecodeEncode(m);
    hide Decode, Encode, Body, Trim, TrimStart;
  }

  lemma {:induction false} SplitFrames(ms: seq<Message>, x: string)
    ensures Split(Frames(ms) + x, FRAME_END) == Bodies(ms) + Split(x, FRAME_END)
    decreases |ms|
  {
    hide Body, Split;
    if ms == [] {
      assert Frames(ms) + x == x;
    } else {
      BodyShape(ms[0]);
      SplitFrames(ms[1..], x);
      assert Frames(ms) + x == Body(ms[0]) + FRAME_END + (Frames(ms[1..]) + x);
      SplitPiece(Body(ms[0]), FRAME_END, Frames(ms[1..]) + x);
    }
  }

  function Bodies(ms: seq<Message>): (r: seq<string>)
    ensures |r| == |ms|
  {
    if ms == [] then [] else [Body(ms[0])] + Bodies(ms[1..])
  }

  lemma HandleNoFrames(c: Client)
    ensures HandleFrames(Decode, [], c) == c
  {
  }

  lemma HandleFramesCons(line: string, lines: seq<string>, c: Client)
    ensures HandleFrames(Decode, [line] + lines, c) == HandleFrames(Decode, lines, HandleFrame(Decode, line, c))
  {
    hide HandleFrame;
    assert ([line] + lines)[1..] == lines;
  }

  lemma {:induction false} HandleBodies(ms: seq<Message>, c: Client)
    requires forall i :: 0 <= i < |ms| ==> Proper(ms[i])
    ensures HandleFrames(Decode, Bodies(ms), c)
         == Client(c.buffer, c.delivered + EventsOf(ms), LastOutcome(ms, c.outcome))
    decreases |ms|
  {
    hide HandleFrame, HandleFrames, Decode, Body;
    if ms == [] {
      HandleNoFrames(c);
    } else {
      var m, rest := ms[0], ms[1..];
      var first := if m.Event? then [Some(m.payload)] else [];
      assert Bodies(ms) == [Body(m)] + Bodies(rest) && EventsOf(ms) == first + EventsOf(rest);
      assert LastOutcome(ms, c.outcome) == LastOutcome(rest, if m.Event? then c.outcome else Some(m.payload));
      hide Bodies, EventsOf, LastOutcome, Proper;
      HandleBody(m, c);
      var c' := HandleFrame(Decode, Body(m), c);
      HandleBodies(rest, c');
      HandleFramesCons(Body(m), Bodies(rest), c);
      assert c.delivered + first + EventsOf(rest) == c.delivered + (first + EventsOf(rest));
      assert m.Outcome? ==> c.delivered + first == c.delivered;
    }
  }

  /** The start of a frame: a proper prefix of its body and end marker. */
  ghost predicate PartOf(m: Message, x: string) {
    x <= Body(m) + FRAME_END && x != Body(m) + FRAME_END
  }

  lemma PartIsUnsplit(m: Message, x: string)
    requires PartOf(m, x)
    ensures Split(x, FRAME_END) == [x]
  {
    hide Body;
    BodyShape(m);
    assert forall j :: 0 <= j < |x| && j < |Body(m)| ==> x[j] == (Body(m) + FRAME_END)[j] == Body(m)[j];
    forall j | 0 <= j <= |x| ensures !(FRAME_END <= x[j..]) {
      if j + 2 <= |x| { assert x[j..][0] == x[j]; }
    }
  }

  /**
   * However the stream is cut into chunks and wherever it breaks off, the client has
   * delivered exactly the events of the frames that arrived whole, in order, and holds
   * the outcome of the last outcome frame among them.
   */
  lemma StreamDelivers(ms: seq<Message>, n: nat, part: string, chunks: seq<string>)
    requires forall i :: 0 <= i < |ms| ==> Proper(ms[i])
    requires n <= |ms| && (if n < |ms| then PartOf(ms[n], part) else part == "")
    requires Concat(chunks) == Frames(ms[..n]) + part
    ensures FeedAll(Decode, START, chunks) == Client(part, EventsOf(ms[..n]), LastOutcome(ms[..n], None))
  {
    hide Body, Decode, HandleFrame, HandleFrames, Split, FeedAll;
    ChunkIndependent(Decode, START, chunks);
    assert START.buffer + Concat(chunks) == Concat(chunks);
    SplitFrames(ms[..n], part);
    if n < |ms| { PartIsUnsplit(ms[n], part); } else { SplitWhole(part, FRAME_END); }
    assert Split(part, FRAME_END) == [part];
    assert (Bodies(ms[..n]) + [part])[..n] == Bodies(ms[..n]);
    HandleBodies(ms[..n], START);
  }

  /** Every prefix of a stream is some whole frames and a part of the next one. */
  lemma {:induction false} PrefixShape(ms: seq<Message>, t: string) returns (n: nat, part: string)
    requires t <= Frames(ms)
    ensures n <= |ms| && (if n < |ms| then PartOf(ms[n], part) else part == "")
    ensures t == Frames(ms[..n]) + part
    decreases |ms|
  {
    hide Body;
    if ms == [] {
      n, part := 0, "";
      return;
    }
    var f := Body(ms[0]) + FRAME_END;
    assert Frames(ms) == f + Frames(ms[1..]);
    if |t| < |f| {
      n, part := 0, t;
      assert t <= f;
    } else {
      assert f <= t;
      assert t[|f|..] <= Frames(ms[1..]);
      var n', part' := PrefixShape(ms[1..], t[|f|..]);
      n, part := n' + 1, part';
      assert ms[..n][1..] == ms[1..][..n'];
      assert t == f + t[|f|..];
    }
  }

  lemma {:induction false} EventsOfEvents(payloads: seq<Doc>, last: Message, n: nat)
    requires last.Outcome?
    requires n <= |payloads| + 1
    ensures var ms := (Events(payloads) + [last])[..n];
            && EventsOf(ms) == Delivered(if n <= |payloads| then payloads[..n] else payloads)
            && LastOutcome(ms, None) == if n == |payloads| + 1 then Some(last.payload) else None
    decreases |payloads|
  {
    var ms := (Events(payloads) + [last])[..n];
    if n == 0 {
      return;
    }
    if payloads == [] {
      assert ms == [last] && ms[1..] == [];
    } else {
      assert ms[1..] == (Events(payloads[1..]) + [last])[..n - 1];
      EventsOfEvents(payloads[1..], last, n - 1);
      var p := if n <= |payloads| then payloads[..n] else payloads;
      assert p[1..] == if n <= |payloads| then payloads[1..][..n - 1] else payloads[1..];
    }
  }

  function Delivered(payloads: seq<Doc>): seq<Option<Doc>> {
    if payloads == [] then [] else [Some(payloads[0])] + Delivered(payloads[1..])
  }

  /** The outcome a client should see: the run's own, or a failure with the message that was thrown. */
  predicate Reports(outcome: Doc, result: Result) {
    match result
    case Finished(o) => outcome == o
    case Threw(message) =>
      && outcome.DObj?
      && Lookup(outcome.fields, "kind") == Some(DStr("failed"))
      && Lookup(outcome.fields, "errorCode") == Some(DStr("dispatch_error"))
      && Lookup(outcome.fields, "errorMessage") == Some(DStr(message))
      && Lookup(outcome.fields, "threadId") == Some(DNull)
      && Lookup(outcome.fields, "turnId") == Some(DNull)
      && Lookup(outcome.fields, "turnCount") == Some(DNum("0"))
  }

  lemma {:induction false} LookupNth(fs: seq<Field>, i: nat)
    requires i < |fs| && forall j :: i < j < |fs| ==> fs[j].key != fs[i].key
    ensures Lookup(fs, fs[i].key) == Some(fs[i].value)
    decreases |fs|
  {
    if i == 0 {
      LookupNone(fs[1..], fs[0].key);
    } else {
      assert forall j :: 0 <= j < |fs| - 1 ==> fs[1..][j] == fs[j + 1];
      LookupNth(fs[1..], i - 1);
    }
  }

  lemma {:induction false} LookupNone(fs: seq<Field>, key: string)
    requires forall j :: 0 <= j < |fs| ==> fs[j].key != key
    ensures Lookup(fs, key) == None
    decreases |fs|
  {
    if fs != [] { LookupNone(fs[1..], key); }
  }

  lemma FailureNames(message: string)
    ensures var fs := FailureOutcome(message).fields;
            |fs| == 6 && forall j, k :: 0 <= j < k < 6 ==> fs[j].key != fs[k].key
  {
    var fs := FailureOutcome(message).fields;
    assert |fs[0].key| == 4 && |fs[1].key| == 9 && |fs[2].key| == 12 && |fs[3].key| == 8 && |fs[4].key| == 6;
    assert |fs[5].key| == 9 && fs[1].key[0] == 'e' && fs[5].key[0] == 't';
  }

  lemma FinalReports(result: Result)
    ensures FinalMessage(result).Outcome? && Reports(FinalMessage(result).payload, result)
  {
    if result.Threw? {
      FailureNames(result.message);
      var fs := FailureOutcome(result.message).fields;
      hide Lookup;
      LookupNth(fs, 0);
      LookupNth(fs, 1);
      LookupNth(fs, 2);
      LookupNth(fs, 3);
      LookupNth(fs, 4);
      LookupNth(fs, 5);
    }
  }

  lemma FinalProper(result: Result)
    requires result.Finished? ==> result.outcome.DObj?
    ensures Proper(FinalMessage(result)) && forall payload :: Proper(Event(payload))
  {
  }

  /**
   * End to end: of what `DataPlane.Dispatch` writes, let any prefix arrive in any chunks.
   * The client delivers a prefix of the events, in order; it has an outcome exactly
   * when everything arrived, and then it has delivered every event.
   */
  lemma EndToEnd(payloads: seq<Doc>, result: Result, chunks: seq<string>) returns (n: nat)
    requires result.Finished? ==> result.outcome.DObj?
    requires Concat(chunks) <= Frames(Events(payloads) + [FinalMessage(result)])
    ensures n <= |payloads|
    ensures var c := FeedAll(Decode, START, chunks);
            && c.delivered == Delivered(payloads[..n])
            && (c.outcome.Some? <==> Concat(chunks) == Frames(Events(payloads) + [FinalMessage(result)]))
            && (c.outcome.Some? ==> n == |payloads| && Reports(c.outcome.value, result))
  {
    FinalReports(result);
    FinalProper(result);
    hide Reports, Proper, FinalMessage, Decode, Body, FeedAll, PartOf;
    var last := FinalMessage(result);
    var ms := Events(payloads) + [last];
    var whole, part := PrefixShape(ms, Concat(chunks));
    StreamDelivers(ms, whole, part, chunks);
    EventsOfEvents(payloads, last, whole);
    n := if whole <= |payloads| then whole else |payloads|;
    assert payloads[..|payloads|] == payloads;
    if whole == |ms| {
      assert ms[..whole] == ms;
      assert Concat(chunks) == Frames(ms);
    } else {
      FramesPrefix(ms, whole);
    }
  }

  lemma {:induction false} FramesPrefix(ms: seq<Message>, n: nat)
    requires n < |ms|
    ensures |Frames(ms[..n])| + |Body(ms[n])| + 2 <= |Frames(ms)|
    decreases |ms|
  {
    hide Body;
    if n == 0 {
      assert Frames(ms) == Body(ms[0]) + FRAME_END + Frames(ms[1..]);
    } else {
      FramesPrefix(ms[1..], n - 1);
      assert ms[..n][1..] == ms[1..][..n - 1];
    }
  }
}
