/**
 * The two stores behind the overlay port - one keeps a map and a file, the other
 * a table of JSON sections and a cached map - and why callers cannot tell them apart.
 */
module ConfigStores {
  import opened Text
  import opened Json
  import opened Canonical
  import opened ConfigTree

  datatype Op = Patch(patch: Record) | SetValue(path: string, value: Value) | Delete(path: string)

  /** What a call answers: whether it changed anything, or that it threw. */
  datatype Reply = Done(changed: bool) | Refused

  function Trims(pieces: seq<string>): (r: seq<string>)
    ensures forall i :: 0 <= i < |r| ==> r[i] != ""
  {
    if pieces == [] then [] else
    var t := Trim(pieces[0]);
    (if t == "" then [] else [t]) + Trims(pieces[1..])
  }

  /** `normalizePathExpression` */
  function NormalizePath(expression: string): (p: Path)
    ensures forall i :: 0 <= i < |p| ==> p[i] != ""
  {
    Trims(Split(expression, "."))
  }

  function Join(p: Path): string {
    if p == [] then "" else if |p| == 1 then p[0] else p[0] + "." + Join(p[1..])
  }

  predicate IsSegment(s: string) {
    s != "" && Trimmed(s) && '.' !in s
  }

  /** Every path of trimmed, dot-free segments is the reading of its dotted text. */
  lemma {:induction false} NormalizeJoin(p: Path)
    requires p != [] && forall i :: 0 <= i < |p| ==> IsSegment(p[i])
    ensures NormalizePath(Join(p)) == p
    decreases |p|
  {
    TrimTrimmed(p[0]);
    hide Trim, Trimmed, Split;
    if |p| == 1 {
      SplitWhole(p[0], ".");
      assert Trims([p[0]][1..]) == [];
      assert p == [p[0]];
    } else {
      NormalizeJoin(p[1..]);
      SplitPiece(p[0], ".", Join(p[1..]));
      assert p == [p[0]] + p[1..];
    }
  }

  // The file-backed store

  function FileApply(m: Record, op: Op): (Reply, Record) {
    match op
    case Patch(patch) =>
      var next := Merge(Obj(m), Obj(patch)).fields;
      (Done(next != m), next)
    case SetValue(path, value) =>
      var p := NormalizePath(path);
      if p == [] || !SafePath(p) then (Refused, m) else
      (Done(SetPath(m, p, value) != m), SetPath(m, p, value))
    case Delete(path) =>
      var p := NormalizePath(path);
      if p == [] || RemovalThrows(m, p) then (Refused, m) else
      (Done(RemovePath(m, p).0), RemovePath(m, p).1)
  }

  class FileStore {
    var overlay: Record
    var file: Record
    var notices: nat

    /** Writes and notifies exactly when the overlay really changed. */
    method Commit(next: Record) returns (changed: bool)
      modifies this
      ensures changed <==> next != old(overlay)
      ensures overlay == next
      ensures file == if changed then next else old(file)
      ensures notices == old(notices) + if changed then 1 else 0
    {
      CanonTextInjective(Obj(next), Obj(overlay));
      if CanonText(Obj(next)) == CanonText(Obj(overlay)) {
        return false;
      }
      overlay := next;
      file := overlay;
      notices := notices + 1;
      return true;
    }

    method ApplyPatch(patch: Record) returns (reply: Reply)
      modifies this
      ensures (reply, overlay) == FileApply(old(overlay), Patch(patch))
      ensures file == if overlay != old(overlay) then overlay else old(file)
      ensures notices == old(notices) + if overlay != old(overlay) then 1 else 0
    {
      var next := MergeOverlayMaps(overlay, patch);
      var changed := Commit(next);
      return Done(changed);
    }

    method Set(path: string, value: Value) returns (reply: Reply)
      modifies this
      ensures (reply, overlay) == FileApply(old(overlay), SetValue(path, value))
      ensures file == if overlay != old(overlay) then overlay else old(file)
      ensures notices == old(notices) + if overlay != old(overlay) then 1 else 0
    {
      var p := NormalizePath(path);
      if p == [] || !SafePath(p) {
        return Refused;
      }
      var changed := Commit(SetPath(overlay, p, value));
      return Done(changed);
    }

    /** A removal that answers true has always changed the overlay, so `Commit` never drops it. */
    method Remove(path: string) returns (reply: Reply)
      modifies this
      ensures (reply, overlay) == FileApply(old(overlay), Delete(path))
      ensures reply.Done? ==> (reply.changed <==> overlay != old(overlay))
      ensures file == if overlay != old(overlay) then overlay else old(file)
      ensures notices == old(notices) + if overlay != old(overlay) then 1 else 0
    {
      var p := NormalizePath(path);
      if p == [] || RemovalThrows(overlay, p) {
        return Refused;
      }
      RemovalChanges(overlay, p);
      var (removed, next) := RemovePath(overlay, p);
      if !removed {
        return Done(false);
      }
      var changed := Commit(next);
      return Done(true);
    }
  }

  lemma RemovalChanges(m: Record, p: Path)
    ensures RemovePath(m, p).0 <==> RemovePath(m, p).1 != m
  {
    RemoveExact(m, p);
    if RemovePath(m, p).0 { RemovedIsGone(m, p); }
  }

  // The table-backed store

  type Table = map<string, string>

  /** A section's value; a text that does not parse counts as an empty record. */
  function DecodeRow(text: string): Value {
    match Parse(text)
    case Some(d) => View(d)
    case None => Obj(map[])
  }

  function DecodeTable(t: Table): (m: Record)
    ensures m.Keys == t.Keys
  {
    map k | k in t :: DecodeRow(t[k])
  }

  /** The table after `writeSections`: one row for each harmless key of the map. */
  function EncodeTable(m: Record): (t: Table)
    ensures forall k :: k in t <==> k in m && !IsDangerous(k)
  {
    map k | k in m && !IsDangerous(k) :: CanonText(m[k])
  }

  predicate SafeTop(m: Record) {
    forall k :: k in m ==> !IsDangerous(k)
  }

  lemma DecodeEncode(m: Record)
    requires SafeTop(m)
    ensures DecodeTable(EncodeTable(m)) == m
  {
    forall k | k in m ensures DecodeTable(EncodeTable(m))[k] == m[k] {
      ReadCanonText(m[k]);
    }
  }

  /** Section values stand in the table in key order; the map does not record another one. */
  function DbApply(m: Record, op: Op): (Reply, Record) {
    match op
    case Patch(patch) =>
      var next := Merge(Obj(m), Obj(patch)).fields;
      if next == m then (Done(false), m) else (Done(true), DecodeTable(EncodeTable(next)))
    case SetValue(path, value) =>
      var p := NormalizePath(path);
      if p == [] then (Refused, m) else
      var next := SetPath(m, p, value);
      if next == m then (Done(false), m) else (Done(true), DecodeTable(EncodeTable(next)))
    case Delete(path) =>
      var p := NormalizePath(path);
      if p == [] then (Refused, m) else
      var (removed, next) := RemovePath(m, p);
      if !removed then (Done(false), m) else (Done(true), DecodeTable(EncodeTable(next)))
  }

  class DbStore {
    var table: Table
    var cachedMap: Record
    var notices: nat

    /** The cached map is what the table decodes to. */
    predicate Valid()
      reads this
    {
      cachedMap == DecodeTable(table)
    }

    method Refresh()
      modifies this`cachedMap
      ensures Valid()
    {
      var configMap: Record := map[];
      var keys := table.Keys;
      while keys != {}
        invariant keys <= table.Keys
        invariant configMap == map k | k in table && k !in keys :: DecodeRow(table[k])
        decreases |keys|
      {
        var key :| key in keys;
        keys := keys - {key};
        configMap := configMap[key := DecodeRow(table[key])];
      }
      cachedMap := configMap;
    }

    /** Upsert every section of the map, then prune the rows it no longer names. */
    method WriteSections(m: Record)
      modifies this`table
      ensures table == EncodeTable(m)
    {
      var mapKeys: set<string> := {};
      var keys := m.Keys;
      while keys != {}
        invariant keys <= m.Keys
        invariant forall k :: k in mapKeys <==> k in m && k !in keys && !IsDangerous(k)
        invariant forall k :: k in mapKeys ==> k in table && table[k] == CanonText(m[k])
        decreases |keys|
      {
        var key :| key in keys;
        keys := keys - {key};
        if IsDangerous(key) {
          continue;
        }
        mapKeys := mapKeys + {key};
        table := table[key := CanonText(m[key])];
      }
      var rows := table.Keys;
      while rows != {}
        invariant rows <= table.Keys
        invariant forall k :: k in mapKeys ==> k in table && table[k] == CanonText(m[k])
        invariant forall k :: k in table ==> k in rows || k in mapKeys
        decreases |rows|
      {
        var key :| key in rows;
        rows := rows - {key};
        if key !in mapKeys {
          table := table - {key};
        }
      }
      assert table.Keys == EncodeTable(m).Keys;
    }

    method Store(next: Record)
      modifies this
      ensures Valid() && cachedMap == DecodeTable(EncodeTable(next))
      ensures notices == old(notices) + 1
    {
      WriteSections(next);
      Refresh();
      notices := notices + 1;
    }

    method ApplyPatch(patch: Record) returns (reply: Reply)
      requires Valid()
      modifies this
      ensures Valid() && (reply, cachedMap) == DbApply(old(cachedMap), Patch(patch))
      ensures notices == old(notices) + if reply == Done(true) then 1 else 0
    {
      var merged := MergeOverlayMaps(cachedMap, patch);
      CanonTextInjective(Obj(merged), Obj(cachedMap));
      if CanonText(Obj(merged)) == CanonText(Obj(cachedMap)) {
        return Done(false);
      }
      Store(merged);
      return Done(true);
    }

    method Set(path: string, value: Value) returns (reply: Reply)
      requires Valid()
      modifies this
      ensures Valid() && (reply, cachedMap) == DbApply(old(cachedMap), SetValue(path, value))
      ensures notices == old(notices) + if reply == Done(true) then 1 else 0
    {
      var p := NormalizePath(path);
      if p == [] {
        return Refused;
      }
      var after := SetPath(cachedMap, p, value);
      CanonTextInjective(Obj(after), Obj(cachedMap));
      if CanonText(Obj(after)) == CanonText(Obj(cachedMap)) {
        return Done(false);
      }
      Store(after);
      return Done(true);
    }

    method Remove(path: string) returns (reply: Reply)
      requires Valid()
      modifies this
      ensures Valid() && (reply, cachedMap) == DbApply(old(cachedMap), Delete(path))
      ensures notices == old(notices) + if reply == Done(true) then 1 else 0
    {
      var p := NormalizePath(path);
      if p == [] {
        return Refused;
      }
      var (removed, next) := RemovePath(cachedMap, p);
      if !removed {
        return Done(false);
      }
      Store(next);
      return Done(true);
    }
  }

  // The two stores compared

  /** The file store throws where the table store ignores: a dangerous segment the call reaches. */
  predicate Accepted(m: Record, op: Op) {
    match op
    case Patch(_) => true
    case SetValue(path, _) => SafePath(NormalizePath(path))
    case Delete(path) => !RemovalThrows(m, NormalizePath(path))
  }

  lemma MergeSafeTop(m: Record, patch: Record)
    requires SafeTop(m)
    ensures SafeTop(Merge(Obj(m), Obj(patch)).fields)
  {
    forall k | k in Merge(Obj(m), Obj(patch)).fields ensures !IsDangerous(k) {
      MergeField(Obj(m), Obj(patch), k);
    }
  }

  /** One call: same reply and same map on both stores exactly when the call is accepted. */
  lemma StoresAgree(m: Record, op: Op)
    requires SafeTop(m)
    ensures DbApply(m, op) == FileApply(m, op) <==> Accepted(m, op)
    ensures SafeTop(FileApply(m, op).1)
  {
    hide Merge, CanonText, DecodeRow, NormalizePath;
    match op {
      case Patch(patch) =>
        MergeSafeTop(m, patch);
        DecodeEncode(Merge(Obj(m), Obj(patch)).fields);
      case SetValue(path, value) =>
        var p := NormalizePath(path);
        if p != [] {
          assert SafeTop(SetPath(m, p, value));
          DecodeEncode(SetPath(m, p, value));
        }
      case Delete(path) =>
        var p := NormalizePath(path);
        RemoveSafeTop(m, p);
        RemovalChanges(m, p);
        DecodeEncode(RemovePath(m, p).1);
    }
  }

  /**
   * A write is refused exactly if its path is empty or names a dangerous segment, on the file store,
   * and exactly if it is empty on the other.  An accepted one can be read back from either store, says
   * whether another value stood there, and leaves every path beside it alone.
   */
  lemma SetTakesEffect(m: Record, path: string, value: Value)
    requires SafeTop(m)
    ensures var p := NormalizePath(path);
            && (FileApply(m, SetValue(path, value)).0 == Refused <==> p == [] || !SafePath(p))
            && (DbApply(m, SetValue(path, value)).0 == Refused <==> p == [])
            && (p != [] && SafePath(p) ==>
                  var (reply, next) := FileApply(m, SetValue(path, value));
                  && reply == Done(Get(m, p) != Some(value))
                  && Get(next, p) == Some(value)
                  && (forall q :: q != [] && Incomparable(p, q) ==> Get(next, q) == Get(m, q))
                  && DbApply(m, SetValue(path, value)) == (reply, next))
  {
    hide NormalizePath, SetPath, Get, DecodeTable, EncodeTable, Incomparable;
    var p := NormalizePath(path);
    if p != [] && SafePath(p) {
      StoresAgree(m, SetValue(path, value));
      SetChangesExactly(m, p, value);
      GetAfterSet(m, p, value);
      forall q | q != [] && Incomparable(p, q) ensures Get(SetPath(m, p, value), q) == Get(m, q) {
        SetFrame(m, p, value, q);
      }
    }
  }

  /** Some dangerous segment of the path is reached. */
  ghost predicate ThrowsAt(m: Record, p: Path) {
    exists i :: 0 <= i < |p| && p[i] in ["__proto__", "constructor", "prototype"] && Reached(m, p, i)
  }

  /**
   * A removal that is accepted says on either store whether anything stood at its path; afterwards
   * nothing does, and every path beside it is as it was.
   */
  lemma DeleteTakesEffect(m: Record, path: string)
    requires SafeTop(m)
    ensures var p := NormalizePath(path);
            && (FileApply(m, Delete(path)).0 == Refused <==> p == [] || ThrowsAt(m, p))
            && (DbApply(m, Delete(path)).0 == Refused <==> p == [])
            && (p != [] && !ThrowsAt(m, p) ==>
                  var (reply, next) := FileApply(m, Delete(path));
                  && reply == Done(Get(m, p).Some?)
                  && Get(next, p) == None
                  && (forall q :: q != [] && Incomparable(p, q) ==> Get(next, q) == Get(m, q))
                  && DbApply(m, Delete(path)) == (reply, next))
  {
    RemovalThrowsExactly(m, NormalizePath(path));
    hide NormalizePath, RemovePath, Get, RemovalThrows, Reached, DecodeTable, EncodeTable, Incomparable;
    var p := NormalizePath(path);
    if p != [] && !RemovalThrows(m, p) {
      StoresAgree(m, Delete(path));
      RemoveExact(m, p);
      FoundIsSafe(m, p);
      if RemovePath(m, p).0 { RemovedIsGone(m, p); }
      forall q | q != [] && Incomparable(p, q) ensures Get(RemovePath(m, p).1, q) == Get(m, q) {
        RemoveFrame(m, p, q);
      }
    }
  }

  /** A path that is all there is walked to its end, so a dangerous segment in it is reached. */
  lemma {:induction false} FoundIsSafe(m: Record, p: Path)
    requires p != []
    ensures Get(m, p).Some? && !RemovalThrows(m, p) ==> SafePath(p)
    decreases |p|
  {
    if 1 < |p| && p[0] in m && m[p[0]].Obj? {
      FoundIsSafe(m[p[0]].fields, p[1..]);
      assert p == [p[0]] + p[1..];
    }
  }

  /** A patch, on either store: what it leaves at every path, and whether it says that it changed anything. */
  lemma PatchTakesEffect(m: Record, patch: Record, q: Path)
    requires SafeTop(m) && q != [] && SafePath(q)
    ensures var (reply, next) := FileApply(m, Patch(patch));
            && reply == Done(next != m)
            && DbApply(m, Patch(patch)) == (reply, next)
            && (Silent(patch, q) ==> Get(next, q) == Get(m, q))
            && (Get(patch, q).Some? && !Get(patch, q).value.Obj? ==> Get(next, q) == Get(patch, q))
  {
    hide Merge, DecodeTable, EncodeTable, Get, Silent;
    StoresAgree(m, Patch(patch));
    MergeGet(m, patch, q);
  }

  /** A write to a dangerous key: the file store refuses it, the database store lets it pass without effect. */
  lemma StoresDiffer(m: Record, key: string, value: Value)
    requires key in ["__proto__", "constructor", "prototype"]
    ensures FileApply(m, SetValue(key, value)) == (Refused, m)
    ensures DbApply(m, SetValue(key, value)) == (Done(false), m)
  {
    DangerousPath(key);
    DangerousKey(key);
    hide IsDangerous, NormalizePath, DecodeTable, EncodeTable;
    assert !SafePath([key]) by { assert IsDangerous([key][0]); }
  }

  lemma DangerousKey(key: string)
    requires key in ["__proto__", "constructor", "prototype"]
    ensures IsDangerous(key)
  {
  }

  lemma DangerousPath(key: string)
    requires key in ["__proto__", "constructor", "prototype"]
    ensures NormalizePath(key) == [key]
  {
    assert IsSegment(key);
    hide IsSegment, NormalizePath;
    NormalizeJoin([key]);
  }

  lemma RemoveSafeTop(m: Record, p: Path)
    requires SafeTop(m)
    ensures SafeTop(RemovePath(m, p).1)
  {
  }

  function FileRun(m: Record, ops: seq<Op>): (seq<Reply>, Record)
    decreases |ops|
  {
    if ops == [] then ([], m) else
    var (reply, next) := FileApply(m, ops[0]);
    var (replies, last) := FileRun(next, ops[1..]);
    ([reply] + replies, last)
  }

  function DbRun(m: Record, ops: seq<Op>): (seq<Reply>, Record)
    decreases |ops|
  {
    if ops == [] then ([], m) else
    var (reply, next) := DbApply(m, ops[0]);
    var (replies, last) := DbRun(next, ops[1..]);
    ([reply] + replies, last)
  }

  predicate AllAccepted(m: Record, ops: seq<Op>)
    decreases |ops|
  {
    ops == [] || (Accepted(m, ops[0]) && AllAccepted(FileApply(m, ops[0]).1, ops[1..]))
  }

  /**
   * Any sequence of calls: the stores give the same replies and end with the same map
   * if and only if every call is accepted where it is made.
   */
  lemma {:induction false} RunsAgree(m: Record, ops: seq<Op>)
    requires SafeTop(m)
    ensures DbRun(m, ops) == FileRun(m, ops) <==> AllAccepted(m, ops)
    decreases |ops|
  {
    if ops != [] {
      StoresAgree(m, ops[0]);
      if !Accepted(m, ops[0]) { RefusedReply(m, ops[0]); }
      hide FileApply, DbApply, Accepted, SafeTop;
      RunsAgree(FileApply(m, ops[0]).1, ops[1..]);
      assert FileRun(m, ops).0[0] == FileApply(m, ops[0]).0 && DbRun(m, ops).0[0] == DbApply(m, ops[0]).0;
      assert FileRun(m, ops).0[1..] == FileRun(FileApply(m, ops[0]).1, ops[1..]).0;
      assert DbRun(m, ops).0[1..] == DbRun(DbApply(m, ops[0]).1, ops[1..]).0;
    }
  }

  /** A call that is not accepted already gets different replies. */
  lemma RefusedReply(m: Record, op: Op)
    requires SafeTop(m) && !Accepted(m, op)
    ensures DbApply(m, op).0 != FileApply(m, op).0
  {
  }

  // The mutation chain of the file store

  /** Calls wait in `queue`; at most one has started and not yet settled, with its reply in `pending`. */
  datatype Chain = Chain(overlay: Record, queue: seq<Op>, pending: Option<Reply>, replies: seq<Reply>)

  datatype ChainEvent = Called(op: Op) | Started | Settled

  /** A call may come at any time; the next one starts only when the one before has settled. */
  function ChainStep(c: Chain, e: ChainEvent): Chain {
    match e
    case Called(op) => c.(queue := c.queue + [op])
    case Started =>
      if c.pending.Some? || c.queue == [] then c else
      var (reply, next) := FileApply(c.overlay, c.queue[0]);
      c.(overlay := next, queue := c.queue[1..], pending := Some(reply))
    case Settled =>
      if c.pending.None? then c else c.(pending := None, replies := c.replies + [c.pending.value])
  }

  function ChainRun(c: Chain, events: seq<ChainEvent>): Chain
    decreases |events|
  {
    if events == [] then c else ChainRun(ChainStep(c, events[0]), events[1..])
  }

  function Calls(events: seq<ChainEvent>): seq<Op> {
    if events == [] then []
    else (if events[0].Called? then [events[0].op] else []) + Calls(events[1..])
  }

  /** What the chain will have answered and stored once its queue is worked off. */
  function Prospect(c: Chain): (seq<Reply>, Record) {
    var (rest, last) := FileRun(c.overlay, c.queue);
    (c.replies + (if c.pending.Some? then [c.pending.value] else []) + rest, last)
  }

  lemma {:induction false} FileRunAppend(m: Record, ops: seq<Op>, more: seq<Op>)
    ensures var (r1, m1) := FileRun(m, ops);
            var (r2, m2) := FileRun(m1, more);
            FileRun(m, ops + more) == (r1 + r2, m2)
    decreases |ops|
  {
    hide FileApply;
    if ops == [] {
      assert ops + more == more && [] + FileRun(m, more).0 == FileRun(m, more).0;
    } else {
      assert (ops + more)[1..] == ops[1..] + more;
      var (reply, next) := FileApply(m, ops[0]);
      FileRunAppend(next, ops[1..], more);
      var (r1, m1) := FileRun(next, ops[1..]);
      assert [reply] + (r1 + FileRun(m1, more).0) == [reply] + r1 + FileRun(m1, more).0;
    }
  }

  lemma ChainStepProspect(c: Chain, e: ChainEvent)
    requires !e.Called?
    ensures Prospect(ChainStep(c, e)) == Prospect(c)
  {
    hide FileApply;
    if e.Started? && c.pending.None? && c.queue != [] {
      var (reply, next) := FileApply(c.overlay, c.queue[0]);
      var rest := FileRun(next, c.queue[1..]).0;
      assert c.replies + [reply] + rest == c.replies + [] + ([reply] + rest);
    } else if e.Settled? && c.pending.Some? {
      assert c.replies + [c.pending.value] + [] == c.replies + [c.pending.value];
    }
  }

  lemma ChainCallProspect(c: Chain, op: Op)
    ensures var (replies, m) := Prospect(c);
            var (reply, next) := FileApply(m, op);
            Prospect(ChainStep(c, Called(op))) == (replies + [reply], next)
  {
    hide FileApply;
    var (rest, m) := FileRun(c.overlay, c.queue);
    var (reply, next) := FileApply(m, op);
    FileRunAppend(c.overlay, c.queue, [op]);
    assert [op][1..] == [] && FileRun(next, []) == ([], next);
    assert [reply] + [] == [reply];
    assert FileRun(c.overlay, c.queue + [op]) == (rest + [reply], next);
    var head := c.replies + (if c.pending.Some? then [c.pending.value] else []);
    assert head + (rest + [reply]) == head + rest + [reply];
  }

  /**
   * In every interleaving of calls, starts and completions, the replies and the overlay
   * are those of the calls run one after the other in the order they were made.
   */
  lemma {:induction false} ChainIsSequential(c: Chain, events: seq<ChainEvent>)
    ensures var (replies, m) := Prospect(c);
            var (more, last) := FileRun(m, Calls(events));
            Prospect(ChainRun(c, events)) == (replies + more, last)
    decreases |events|
  {
    hide FileApply, Prospect, ChainStep;
    if events == [] {
      assert Prospect(c).0 + [] == Prospect(c).0;
      return;
    }
    var e := events[0];
    var c' := ChainStep(c, e);
    ChainIsSequential(c', events[1..]);
    if e.Called? {
      ChainCallProspect(c, e.op);
      var (replies, m) := Prospect(c);
      var (reply, next) := FileApply(m, e.op);
      var rest := FileRun(next, Calls(events[1..])).0;
      assert Calls(events) == [e.op] + Calls(events[1..]) && Calls(events)[1..] == Calls(events[1..]);
      assert replies + [reply] + rest == replies + ([reply] + rest);
    } else {
      ChainStepProspect(c, e);
      assert Calls(events) == Calls(events[1..]);
    }
  }

  /** The completion of one call and the start of the next. */
  function Turnover(n: nat): (events: seq<ChainEvent>)
    ensures Calls(events) == []
  {
    if n == 0 then [Settled] else [Settled, Started] + Turnover(n - 1)
  }

  /** Once every call has had its start and its completion, nothing is left waiting. */
  lemma {:induction false} TurnoverDrains(c: Chain, n: nat)
    requires |c.queue| <= n
    ensures var c' := ChainRun(c, Turnover(n)); c'.queue == [] && c'.pending == None
    decreases n
  {
    hide FileApply;
    var events := Turnover(n);
    var c1 := ChainStep(c, Settled);
    if n == 0 {
      assert ChainRun(c1, events[1..]) == c1;
    } else {
      var c2 := ChainStep(c1, Started);
      assert events[1..][1..] == Turnover(n - 1);
      assert ChainRun(c, events) == ChainRun(c2, Turnover(n - 1));
      TurnoverDrains(c2, n - 1);
    }
  }

  /**
   * Every call is answered, and in call order: whatever has interleaved, once the calls still waiting
   * have had their turn, the replies and the overlay are those of all calls run one after the other.
   */
  lemma AllAnswered(m: Record, events: seq<ChainEvent>, n: nat)
    requires |ChainRun(Chain(m, [], None, []), events).queue| <= n
    ensures var c := ChainRun(ChainRun(Chain(m, [], None, []), events), Turnover(n));
            (c.replies, c.overlay) == FileRun(m, Calls(events))
  {
    hide FileApply, ChainRun, ChainStep;
    var start := Chain(m, [], None, []);
    var c := ChainRun(start, events);
    ChainIsSequential(start, events);
    ChainIsSequential(c, Turnover(n));
    TurnoverDrains(c, n);
    var last := ChainRun(c, Turnover(n));
    assert FileRun(Prospect(c).1, []) == ([], Prospect(c).1);
    assert Prospect(last) == Prospect(c) by { assert Prospect(c).0 + [] == Prospect(c).0; }
    assert Prospect(last) == (last.replies, last.overlay) by { assert last.replies + [] + [] == last.replies; }
    assert Prospect(start) == ([], m);
    assert [] + FileRun(m, Calls(events)).0 == FileRun(m, Calls(events)).0;
  }
}
