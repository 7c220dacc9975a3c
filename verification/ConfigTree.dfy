/**
 * Path writes, path removal and the two deep merges of the configuration overlay.
 * A record is a map from keys to values; the callers hand these operations a fresh
 * clone, so an update in place is modelled by the record it leaves.
 */
module ConfigTree {
  import opened Json
  import opened Canonical

  type Record = map<string, Value>
  type Path = seq<string>

  predicate IsDangerous(key: string) {
    key == "__proto__" || key == "constructor" || key == "prototype"
  }

  predicate SafePath(p: Path) {
    forall i :: 0 <= i < |p| ==> !IsDangerous(p[i])
  }

  /** What is stored at a path. */
  function Get(r: Record, p: Path): Option<Value>
    requires p != []
    decreases |p|
  {
    if p[0] !in r then None
    else if |p| == 1 then Some(r[p[0]])
    else if r[p[0]].Obj? then Get(r[p[0]].fields, p[1..])
    else None
  }

  /** The record a traversal enters at `key`: a missing or non-record child counts as empty. */
  function Child(r: Record, key: string): Record {
    if key in r && r[key].Obj? then r[key].fields else map[]
  }

  /** `setOverlayPathValue` in "ignore" mode: it stops at the first dangerous segment. */
  function SetPath(r: Record, p: Path, v: Value): Record
    requires p != []
    decreases |p|
  {
    if IsDangerous(p[0]) then r
    else if |p| == 1 then r[p[0] := v]
    else r[p[0] := Obj(SetPath(Child(r, p[0]), p[1..], v))]
  }

  /** `removeOverlayPathValue` in "ignore" mode, with its pruning of emptied records. */
  function RemovePath(r: Record, p: Path): (res: (bool, Record))
    decreases |p|
  {
    if p == [] || IsDangerous(p[0]) || p[0] !in r then (false, r)
    else if |p| == 1 then (true, r - {p[0]})
    else if !r[p[0]].Obj? then (false, r)
    else
      var (removed, child) := RemovePath(r[p[0]].fields, p[1..]);
      if removed && child == map[] then (true, r - {p[0]})
      else (removed, r[p[0] := Obj(child)])
  }

  /**
   * "throw" mode refuses a dangerous segment as soon as the walk reaches it.
   * A write reaches every segment; a removal stops where the path breaks off.
   */
  predicate RemovalThrows(r: Record, p: Path)
    decreases |p|
  {
    && p != []
    && (IsDangerous(p[0]) || (1 < |p| && p[0] in r && r[p[0]].Obj? && RemovalThrows(r[p[0]].fields, p[1..])))
  }

  /** A walk along the path gets as far as segment `i`. */
  predicate Reached(r: Record, p: Path, i: nat)
    requires i < |p|
  {
    i == 0 || (Get(r, p[..i]).Some? && Get(r, p[..i]).value.Obj?)
  }

  /** In "throw" mode a removal throws exactly if the walk reaches a dangerous segment. */
  lemma {:induction false} RemovalThrowsExactly(r: Record, p: Path)
    ensures RemovalThrows(r, p) <==>
            exists i :: 0 <= i < |p| && p[i] in ["__proto__", "constructor", "prototype"] && Reached(r, p, i)
    decreases |p|
  {
    if 1 < |p| && p[0] in r && r[p[0]].Obj? {
      var child, tail := r[p[0]].fields, p[1..];
      RemovalThrowsExactly(child, tail);
      forall i | 1 <= i < |p| ensures Reached(r, p, i) <==> Reached(child, tail, i - 1) {
        assert p[..i][1..] == tail[..i - 1];
      }
      hide Reached;
      if j :| 0 <= j < |tail| && tail[j] in ["__proto__", "constructor", "prototype"] && Reached(child, tail, j) {
        assert Reached(r, p, j + 1) && p[j + 1] == tail[j];
      }
      if i :| 1 <= i < |p| && p[i] in ["__proto__", "constructor", "prototype"] && Reached(r, p, i) {
        assert Reached(child, tail, i - 1) && p[i] == tail[i - 1];
      }
    }
  }

  // Reading after writing

  lemma {:induction false} GetAfterSet(r: Record, p: Path, v: Value)
    requires p != [] && SafePath(p)
    ensures Get(SetPath(r, p, v), p) == Some(v)
    decreases |p|
  {
    if 1 < |p| {
      assert SafePath(p[1..]);
      GetAfterSet(Child(r, p[0]), p[1..], v);
    }
  }

  /** Below the written path, the written value is what is read. */
  lemma {:induction false} GetBelowSet(r: Record, p: Path, v: Value, t: Path)
    requires p != [] && SafePath(p) && t != []
    ensures Get(SetPath(r, p, v), p + t) == if v.Obj? then Get(v.fields, t) else None
    decreases |p|
  {
    if 1 < |p| {
      assert SafePath(p[1..]);
      assert (p + t)[1..] == p[1..] + t;
      GetBelowSet(Child(r, p[0]), p[1..], v, t);
    } else {
      assert (p + t)[1..] == t;
    }
  }

  ghost predicate Incomparable(p: Path, q: Path) {
    !(p <= q) && !(q <= p)
  }

  lemma TailIncomparable(p: Path, q: Path)
    requires p != [] && q != [] && p[0] == q[0] && Incomparable(p, q)
    ensures 1 < |p| && 1 < |q| && Incomparable(p[1..], q[1..])
  {
    assert p == [p[0]] + p[1..] && q == [q[0]] + q[1..];
    assert p[1..] <= q[1..] ==> p <= q;
    assert q[1..] <= p[1..] ==> q <= p;
  }

  /** A write changes nothing beside its path. */
  lemma {:induction false} SetFrame(r: Record, p: Path, v: Value, q: Path)
    requires p != [] && q != [] && Incomparable(p, q)
    ensures Get(SetPath(r, p, v), q) == Get(r, q)
    decreases |p|
  {
    if p[0] == q[0] && !IsDangerous(p[0]) {
      TailIncomparable(p, q);
      SetFrame(Child(r, p[0]), p[1..], v, q[1..]);
      GetInEmpty(q[1..]);
    }
  }

  /** A write changes nothing at all exactly if the value stood there already. */
  lemma {:induction false} SetChangesExactly(r: Record, p: Path, v: Value)
    requires p != [] && SafePath(p)
    ensures SetPath(r, p, v) == r <==> Get(r, p) == Some(v)
    decreases |p|
  {
    var k := p[0];
    if |p| == 1 {
      assert k in r && r[k] == v ==> r[k := v] == r;
    } else {
      assert SafePath(p[1..]);
      SetChangesExactly(Child(r, k), p[1..], v);
      GetInEmpty(p[1..]);
      assert SetPath(r, p, v)[k] == Obj(SetPath(Child(r, k), p[1..], v));
      assert k in r && r[k] == Obj(Child(r, k)) ==> r[k := Obj(Child(r, k))] == r;
    }
  }

  lemma GetInEmpty(q: Path)
    requires q != []
    ensures Get(map[], q) == None
  {
  }

  // Removal

  /** Removal succeeds exactly on existing, harmless paths; otherwise nothing changes. */
  lemma {:induction false} RemoveExact(r: Record, p: Path)
    ensures RemovePath(r, p).0 <==> p != [] && SafePath(p) && Get(r, p).Some?
    ensures !RemovePath(r, p).0 ==> RemovePath(r, p).1 == r
    decreases |p|
  {
    if 1 < |p| && p[0] in r && r[p[0]].Obj? {
      RemoveExact(r[p[0]].fields, p[1..]);
      assert p == [p[0]] + p[1..];
      assert r[p[0] := Obj(r[p[0]].fields)] == r;
    }
  }

  lemma {:induction false} RemovedIsGone(r: Record, p: Path)
    requires RemovePath(r, p).0
    ensures p != [] && Get(RemovePath(r, p).1, p) == None
    decreases |p|
  {
    if 1 < |p| {
      RemovedIsGone(r[p[0]].fields, p[1..]);
    }
  }

  /** Removal, pruning included, changes nothing beside its path. */
  lemma {:induction false} RemoveFrame(r: Record, p: Path, q: Path)
    requires q != [] && Incomparable(p, q)
    ensures Get(RemovePath(r, p).1, q) == Get(r, q)
    decreases |p|
  {
    if p != [] && p[0] == q[0] && p[0] in r && !IsDangerous(p[0]) && r[p[0]].Obj? {
      TailIncomparable(p, q);
      RemoveFrame(r[p[0]].fields, p[1..], q[1..]);
      GetInEmpty(q[1..]);
    }
  }

  /**
   * Nothing stands at `p`, no leaf stands in its way, and every record the path
   * already enters holds something.
   */
  predicate Vacant(r: Record, p: Path)
    requires p != []
    decreases |p|
  {
    || p[0] !in r
    || (1 < |p| && r[p[0]].Obj? && r[p[0]].fields != map[] && Vacant(r[p[0]].fields, p[1..]))
  }

  lemma {:induction false} RemoveAfterSetSucceeds(r: Record, p: Path, v: Value)
    requires p != [] && SafePath(p)
    ensures RemovePath(SetPath(r, p, v), p).0
    decreases |p|
  {
    if 1 < |p| {
      assert SafePath(p[1..]);
      RemoveAfterSetSucceeds(Child(r, p[0]), p[1..], v);
    }
  }

  /** Removing what was just written restores the record exactly when the path was vacant. */
  lemma {:induction false} RemoveUndoesSet(r: Record, p: Path, v: Value)
    requires p != [] && SafePath(p)
    ensures RemovePath(SetPath(r, p, v), p) == (true, r) <==> Vacant(r, p)
    decreases |p|
  {
    RemoveAfterSetSucceeds(r, p, v);
    var k := p[0];
    if |p| == 1 {
      assert k !in r ==> r[k := v] - {k} == r;
      return;
    }
    var tail, c := p[1..], Child(r, k);
    assert SafePath(tail);
    RemoveUndoesSet(c, tail, v);
    RemoveAfterSetSucceeds(c, tail, v);
    var c' := SetPath(c, tail, v);
    var back := RemovePath(c', tail).1;
    var r' := r[k := Obj(c')];
    assert RemovePath(r', p) == if back == map[] then (true, r' - {k}) else (true, r'[k := Obj(back)]);
    if k !in r {
      RemoveUndoesSetInEmpty(tail, v);
      assert r' - {k} == r;
    } else {
      assert back == map[] ==> k !in r' - {k};
      assert r'[k := Obj(back)][k] == Obj(back);
      assert r[k] == Obj(back) ==> r'[k := Obj(back)] == r;
    }
  }

  lemma {:induction false} RemoveUndoesSetInEmpty(p: Path, v: Value)
    requires p != [] && SafePath(p)
    ensures RemovePath(SetPath(map[], p, v), p) == (true, map[])
    decreases |p|
  {
    if 1 < |p| {
      assert SafePath(p[1..]);
      RemoveUndoesSetInEmpty(p[1..], v);
    }
  }

  // No dangerous key anywhere

  predicate Harmless(v: Value) {
    match v
    case Arr(items) => forall i :: 0 <= i < |items| ==> Harmless(items[i])
    case Obj(fields) => forall k :: k in fields ==> !IsDangerous(k) && Harmless(fields[k])
    case _ => true
  }

  /** Whatever the path, a write never introduces a dangerous key. */
  lemma {:induction false} SetKeepsHarmless(r: Record, p: Path, v: Value)
    requires p != [] && Harmless(Obj(r)) && Harmless(v)
    ensures Harmless(Obj(SetPath(r, p, v)))
    decreases |p|
  {
    if !IsDangerous(p[0]) && 1 < |p| {
      var c := Child(r, p[0]);
      assert Harmless(Obj(c)) by {
        if p[0] in r && r[p[0]].Obj? { assert Harmless(r[p[0]]) && r[p[0]] == Obj(c); }
      }
      SetKeepsHarmless(c, p[1..], v);
    }
  }

  // The two merges

  /** `mergeOverlayMaps`: dangerous keys of the patch are skipped, records merge, the rest replaces. */
  function Merge(base: Value, patch: Value): (m: Value)
    requires base.Obj? && patch.Obj?
    ensures m.Obj?
    decreases patch
  {
    var b, p := base.fields, patch.fields;
    Obj(map k | k in b.Keys + p.Keys && (k in b || !IsDangerous(k)) ::
          if k !in p || IsDangerous(k) then b[k]
          else if k in b && b[k].Obj? && p[k].Obj? then Merge(b[k], p[k])
          else p[k])
  }

  /** `deepMerge`: written for any pair of values, with no key filter; `None` is `undefined`. */
  function DeepMerge(base: Option<Value>, overlay: Value): (m: Value)
    decreases overlay
  {
    if !overlay.Obj? then overlay else
    var b := if base.Some? && base.value.Obj? then base.value.fields else map[];
    Obj(map k | k in b.Keys + overlay.fields.Keys ::
          if k in overlay.fields then DeepMerge(if k in b then Some(b[k]) else None, overlay.fields[k])
          else b[k])
  }

  /** `Merge`, one key at a time. */
  lemma MergeField(base: Value, patch: Value, k: string)
    requires base.Obj? && patch.Obj?
    ensures k in Merge(base, patch).fields <==> k in base.fields || (k in patch.fields && !IsDangerous(k))
    ensures k in base.fields && (k !in patch.fields || IsDangerous(k)) ==>
              Merge(base, patch).fields[k] == base.fields[k]
    ensures k in patch.fields && !IsDangerous(k) ==>
              Merge(base, patch).fields[k] ==
              if k in base.fields && base.fields[k].Obj? && patch.fields[k].Obj?
              then Merge(base.fields[k], patch.fields[k]) else patch.fields[k]
  {
  }

  /** The patch says nothing about the path: it breaks off before its end, at a missing key. */
  predicate Silent(patch: Record, q: Path)
    requires q != []
    decreases |q|
  {
    q[0] !in patch || (1 < |q| && patch[q[0]].Obj? && Silent(patch[q[0]].fields, q[1..]))
  }

  /**
   * What stands at a path after a merge: what the patch has there, merged over the base if both
   * are records; what the base has if the patch is silent; nothing below a leaf of the patch.
   */
  lemma {:induction false} MergeGet(base: Record, patch: Record, q: Path)
    requires q != [] && SafePath(q)
    ensures var r := Get(Merge(Obj(base), Obj(patch)).fields, q);
            var b, p := Get(base, q), Get(patch, q);
            && (Silent(patch, q) ==> p == None && r == b)
            && (p.Some? ==> r == Some(if b.Some? && b.value.Obj? && p.value.Obj? then Merge(b.value, p.value) else p.value))
            && (p.None? && !Silent(patch, q) ==> r == None)
    decreases |q|
  {
    MergeField(Obj(base), Obj(patch), q[0]);
    hide Merge;
    if 1 < |q| && q[0] in patch && patch[q[0]].Obj? {
      assert SafePath(q[1..]);
      if q[0] in base && base[q[0]].Obj? {
        MergeGet(base[q[0]].fields, patch[q[0]].fields, q[1..]);
      } else {
        SilentIsNone(patch[q[0]].fields, q[1..]);
      }
    }
  }

  lemma {:induction false} SilentIsNone(patch: Record, q: Path)
    requires q != []
    ensures Silent(patch, q) ==> Get(patch, q) == None
    decreases |q|
  {
    if 1 < |q| && q[0] in patch && patch[q[0]].Obj? { SilentIsNone(patch[q[0]].fields, q[1..]); }
  }

  /** The merge after the keys in `done` have been written. */
  ghost predicate MergedOn(base: Record, patch: Record, done: set<string>, output: Record) {
    && (forall k :: k in output <==> k in base || (k in done && !IsDangerous(k)))
    && (forall k :: k in output ==>
          if k in done && !IsDangerous(k)
          then k in Merge(Obj(base), Obj(patch)).fields && output[k] == Merge(Obj(base), Obj(patch)).fields[k]
          else k in base && output[k] == base[k])
  }

  lemma MergedOnAll(base: Record, patch: Record, output: Record)
    requires MergedOn(base, patch, patch.Keys, output)
    ensures Obj(output) == Merge(Obj(base), Obj(patch))
  {
    var target := Merge(Obj(base), Obj(patch)).fields;
    forall k ensures (k in output <==> k in target) && (k in output ==> output[k] == target[k]) {
      MergeField(Obj(base), Obj(patch), k);
      hide Merge;
    }
    hide Merge;
    assert output == target;
  }

  lemma MergedOnNothing(base: Record, patch: Record)
    ensures MergedOn(base, patch, {}, base)
  {
  }

  lemma MergedOnNext(base: Record, patch: Record, done: set<string>, output: Record, key: string, value: Value)
    requires MergedOn(base, patch, done, output) && key in patch && key !in done && !IsDangerous(key)
    requires value == (if key in output && output[key].Obj? && patch[key].Obj?
                       then Merge(output[key], patch[key]) else patch[key])
    ensures MergedOn(base, patch, done + {key}, output[key := value])
  {
    MergeField(Obj(base), Obj(patch), key);
    hide Merge;
  }

  lemma MergedOnSkip(base: Record, patch: Record, done: set<string>, output: Record, key: string)
    requires MergedOn(base, patch, done, output) && IsDangerous(key)
    ensures MergedOn(base, patch, done + {key}, output)
  {
    hide Merge;
  }

  /** The loop of `mergeOverlayMaps`: clone the base, then write the patch key by key. */
  method MergeOverlayMaps(base: Record, patch: Record) returns (output: Record)
    ensures Obj(output) == Merge(Obj(base), Obj(patch))
    decreases Obj(patch)
  {
    hide Merge, MergedOn;
    output := base;
    var keys := patch.Keys;
    MergedOnNothing(base, patch);
    assert patch.Keys - keys == {};
    while keys != {}
      invariant keys <= patch.Keys
      invariant MergedOn(base, patch, patch.Keys - keys, output)
      decreases |keys|
    {
      var key :| key in keys;
      ghost var done := patch.Keys - keys;
      keys := keys - {key};
      assert patch.Keys - keys == done + {key};
      if IsDangerous(key) {
        MergedOnSkip(base, patch, done, output, key);
        continue;
      }
      assert patch[key] < Obj(patch) by { assert patch[key] == Obj(patch).fields[key]; }
      var value := patch[key];
      if key in output && output[key].Obj? && value.Obj? {
        var merged := MergeOverlayMaps(output[key].fields, value.fields);
        value := Obj(merged);
      }
      MergedOnNext(base, patch, done, output, key, value);
      output := output[key := value];
    }
    assert patch.Keys - keys == patch.Keys;
    MergedOnAll(base, patch, output);
  }

  lemma {:induction false} DeepMergeFresh(base: Option<Value>, overlay: Value)
    requires !(base.Some? && base.value.Obj?)
    ensures DeepMerge(base, overlay) == overlay
    decreases overlay
  {
    if overlay.Obj? {
      forall k | k in overlay.fields ensures DeepMerge(None, overlay.fields[k]) == overlay.fields[k] {
        DeepMergeFresh(None, overlay.fields[k]);
      }
      assert DeepMerge(base, overlay).fields == overlay.fields;
    }
  }

  /** The two independently written merges agree wherever no dangerous key is involved. */
  lemma {:induction false} MergesAgree(base: Value, patch: Value)
    requires base.Obj? && patch.Obj? && Harmless(patch)
    ensures Merge(base, patch) == DeepMerge(Some(base), patch)
    decreases patch
  {
    var b, p := base.fields, patch.fields;
    forall k | k in p
      ensures k in DeepMerge(Some(base), patch).fields && k in Merge(base, patch).fields
      ensures Merge(base, patch).fields[k] == DeepMerge(Some(base), patch).fields[k]
    {
      assert !IsDangerous(k) && Harmless(p[k]);
      if k in b && b[k].Obj? && p[k].Obj? {
        MergesAgree(b[k], p[k]);
      } else {
        if p[k].Obj? { DeepMergeFresh(if k in b then Some(b[k]) else None, p[k]); }
      }
    }
    assert Merge(base, patch).fields == DeepMerge(Some(base), patch).fields;
  }

  lemma {:induction false} MergeSelf(v: Value)
    requires v.Obj?
    ensures Merge(v, v) == v
    decreases v
  {
    forall k | k in v.fields && v.fields[k].Obj? ensures Merge(v.fields[k], v.fields[k]) == v.fields[k] {
      MergeSelf(v.fields[k]);
    }
    assert Merge(v, v).fields == v.fields;
  }

  /** Applying the same patch twice changes nothing more. */
  lemma {:induction false} MergeIdempotent(base: Value, patch: Value)
    requires base.Obj? && patch.Obj?
    ensures Merge(Merge(base, patch), patch) == Merge(base, patch)
    decreases patch
  {
    var b, p := base.fields, patch.fields;
    var m := Merge(base, patch);
    forall k | k in p && !IsDangerous(k)
      ensures Merge(m, patch).fields[k] == m.fields[k]
    {
      if p[k].Obj? {
        if k in b && b[k].Obj? { MergeIdempotent(b[k], p[k]); } else { MergeSelf(p[k]); }
      }
    }
    assert Merge(m, patch).fields == m.fields;
  }

  lemma {:induction false} DeepMergeIdempotent(base: Option<Value>, overlay: Value)
    ensures DeepMerge(Some(DeepMerge(base, overlay)), overlay) == DeepMerge(base, overlay)
    decreases overlay
  {
    if overlay.Obj? {
      var m := DeepMerge(base, overlay);
      var b := if base.Some? && base.value.Obj? then base.value.fields else map[];
      forall k | k in overlay.fields
        ensures DeepMerge(Some(m), overlay).fields[k] == m.fields[k]
      {
        DeepMergeIdempotent(if k in b then Some(b[k]) else None, overlay.fields[k]);
      }
      assert DeepMerge(Some(m), overlay).fields == m.fields;
    }
  }

  /**
   * The patch has every key of the base, at every depth the two share; a dangerous key, which
   * merging takes from the base alone, is in both or in neither, with one value.
   */
  predicate Covers(base: Value, patch: Value)
    requires base.Obj? && patch.Obj?
    decreases patch
  {
    && (forall k :: k in base.fields ==>
          k in patch.fields &&
          if IsDangerous(k) then base.fields[k] == patch.fields[k]
          else base.fields[k].Obj? && patch.fields[k].Obj? ==> Covers(base.fields[k], patch.fields[k]))
    && (forall k :: k in patch.fields && IsDangerous(k) ==> k in base.fields)
  }

  /** Then, and only then, the merge is the patch. */
  lemma {:induction false} CoversExactly(base: Value, patch: Value)
    requires base.Obj? && patch.Obj?
    ensures Merge(base, patch) == patch <==> Covers(base, patch)
    decreases patch
  {
    var b, p, m := base.fields, patch.fields, Merge(base, patch);
    forall k | k in b && k in p && b[k].Obj? && p[k].Obj?
      ensures Merge(b[k], p[k]) == p[k] <==> Covers(b[k], p[k])
    {
      CoversExactly(b[k], p[k]);
    }
    if Covers(base, patch) {
      assert m.fields == p;
    } else if m == patch {
      forall k ensures k in p <==> k in b || (k in p && !IsDangerous(k)) {
        assert k in m.fields <==> k in b || (k in p && !IsDangerous(k));
      }
    }
  }

  /**
   * Where associativity breaks: a middle patch that turns a record of the base into
   * a leaf, followed by a patch that makes it a record again without covering it.
   */
  predicate NoRevival(a: Value, b: Value, c: Value)
    requires a.Obj? && b.Obj? && c.Obj?
    decreases c
  {
    forall k :: !IsDangerous(k) && k in c.fields && k in b.fields && k in a.fields
                && c.fields[k].Obj? && a.fields[k].Obj? ==>
      if b.fields[k].Obj? then NoRevival(a.fields[k], b.fields[k], c.fields[k])
      else Covers(a.fields[k], c.fields[k])
  }

  /** The part of `NoRevival` that speaks of one key. */
  predicate NoRevivalAt(a: Value, b: Value, c: Value, k: string)
    requires a.Obj? && b.Obj? && c.Obj?
  {
    !IsDangerous(k) && k in c.fields && k in b.fields && k in a.fields
    && c.fields[k].Obj? && a.fields[k].Obj? ==>
      if b.fields[k].Obj? then NoRevival(a.fields[k], b.fields[k], c.fields[k])
      else Covers(a.fields[k], c.fields[k])
  }

  /** Merging is associative exactly on the triples without such a revival. */
  lemma {:induction false} MergeAssociative(a: Value, b: Value, c: Value)
    requires a.Obj? && b.Obj? && c.Obj?
    ensures Merge(Merge(a, b), c) == Merge(a, Merge(b, c)) <==> NoRevival(a, b, c)
    decreases c
  {
    hide Merge, NoRevival, Covers;
    NoRevivalByKey(a, b, c);
    forall k
      ensures var l, r := Merge(Merge(a, b), c), Merge(a, Merge(b, c));
              (k in l.fields <==> k in r.fields) &&
              (k in l.fields ==> (l.fields[k] == r.fields[k] <==> NoRevivalAt(a, b, c, k)))
    {
      if k in c.fields && k in b.fields && k in a.fields
         && c.fields[k].Obj? && a.fields[k].Obj? && b.fields[k].Obj? {
        MergeAssociative(a.fields[k], b.fields[k], c.fields[k]);
      }
      MergeAssociativeAt(a, b, c, k);
    }
    hide NoRevivalAt, Harmless;
    var l, r := Merge(Merge(a, b), c), Merge(a, Merge(b, c));
    if forall k :: k in c.fields ==> NoRevivalAt(a, b, c, k) {
      forall k | k in l.fields ensures l.fields[k] == r.fields[k] {
        if k !in c.fields { MergeAssociativeElsewhere(a, b, c, k); }
      }
      assert l.fields == r.fields;
    } else {
      var k :| k in c.fields && !NoRevivalAt(a, b, c, k);
      RevivedKey(a, b, c, k);
      assert l.fields[k] != r.fields[k];
    }
  }

  lemma NoRevivalByKey(a: Value, b: Value, c: Value)
    requires a.Obj? && b.Obj? && c.Obj?
    ensures NoRevival(a, b, c) <==> forall k :: k in c.fields ==> NoRevivalAt(a, b, c, k)
  {
  }

  lemma MergeAssociativeElsewhere(a: Value, b: Value, c: Value, k: string)
    requires a.Obj? && b.Obj? && c.Obj? && k !in c.fields
    ensures NoRevivalAt(a, b, c, k)
  {
  }

  lemma RevivedKey(a: Value, b: Value, c: Value, k: string)
    requires a.Obj? && b.Obj? && c.Obj? && k in c.fields && !NoRevivalAt(a, b, c, k)
    ensures k in Merge(Merge(a, b), c).fields
  {
    hide Merge, NoRevival, Covers;
    MergeField(a, b, k);
    MergeField(Merge(a, b), c, k);
  }

  lemma MergeAssociativeAt(a: Value, b: Value, c: Value, k: string)
    requires a.Obj? && b.Obj? && c.Obj?
    requires !IsDangerous(k) && k in c.fields && k in b.fields && k in a.fields
             && c.fields[k].Obj? && a.fields[k].Obj? && b.fields[k].Obj? ==>
               ((Merge(Merge(a.fields[k], b.fields[k]), c.fields[k])
                 == Merge(a.fields[k], Merge(b.fields[k], c.fields[k]))) <==> NoRevivalAt(a, b, c, k))
    ensures var l, r := Merge(Merge(a, b), c), Merge(a, Merge(b, c));
            && (k in l.fields <==> k in r.fields)
            && (k in l.fields ==> (l.fields[k] == r.fields[k] <==> NoRevivalAt(a, b, c, k)))
  {
    MergeField(a, b, k);
    MergeField(Merge(a, b), c, k);
    MergeField(b, c, k);
    MergeField(a, Merge(b, c), k);
    if k in c.fields && k in a.fields && c.fields[k].Obj? && a.fields[k].Obj? {
      CoversExactly(a.fields[k], c.fields[k]);
    }
    hide Merge, NoRevival, Covers;
  }

  /** A leaf in the middle: merged from the left the old field is gone, merged from the right it is back. */
  lemma NotAssociative()
    ensures var a := Obj(map["x" := Obj(map["y" := Null])]);
            var b := Obj(map["x" := Null]);
            var c := Obj(map["x" := Obj(map[])]);
            Merge(Merge(a, b), c) == c && Merge(a, Merge(b, c)) == a && a != c
  {
    var inner := Obj(map["y" := Null]);
    var a, b, c := Obj(map["x" := inner]), Obj(map["x" := Null]), Obj(map["x" := Obj(map[])]);
    assert !IsDangerous("x") by { assert |"__proto__"| != 1 && |"constructor"| != 1 && |"prototype"| != 1; }
    assert Merge(a, b).fields == b.fields && Merge(b, c).fields == c.fields;
    assert Merge(inner, Obj(map[])).fields == inner.fields;
    assert Merge(a, c).fields == a.fields;
    assert inner.fields.Keys == {"y"};
    assert "x" in a.fields && a.fields["x"] != c.fields["x"];
  }
}
