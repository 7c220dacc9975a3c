/**
 * JSON values without key order, and the canonical text that the overlay stores
 * compare: `sortForStableStringify` followed by `JSON.stringify`.
 */
module Canonical {
  import opened Json

  /** A JSON value: what is left of a document when key order is forgotten. */
  datatype Value =
    | Null
    | Bool(b: bool)
    | Num(n: Numeral)
    | Str(s: string)
    | Arr(items: seq<Value>)
    | Obj(fields: map<string, Value>)

  /** Forgets key order; of two equal keys the later one counts. */
  function View(d: Doc): Value {
    match d
    case DNull => Null
    case DBool(b) => Bool(b)
    case DNum(n) => Num(n)
    case DStr(s) => Str(s)
    case DArr(items) => Arr(ViewItems(items))
    case DObj(fields) => Obj(ViewFields(fields))
  }

  function ViewItems(items: seq<Doc>): (r: seq<Value>)
    ensures |r| == |items|
    ensures forall i :: 0 <= i < |items| ==> r[i] == View(items[i])
  {
    if items == [] then [] else [View(items[0])] + ViewItems(items[1..])
  }

  function ViewFields(fields: seq<Field>): map<string, Value> {
    if fields == [] then map[]
    else map[fields[0].key := View(fields[0].value)] + ViewFields(fields[1..])
  }

  /** Object keys are pairwise different, at every depth. */
  ghost predicate DistinctKeys(d: Doc) {
    match d
    case DArr(items) => forall i :: 0 <= i < |items| ==> DistinctKeys(items[i])
    case DObj(fields) =>
      && (forall i :: 0 <= i < |fields| ==> DistinctKeys(fields[i].value))
      && UniqueKeys(fields)
    case _ => true
  }

  ghost predicate UniqueKeys(fields: seq<Field>) {
    forall i, j :: 0 <= i < j < |fields| ==> fields[i].key != fields[j].key
  }

  // Total orders on keys

  /** Code-point order, a total one. */
  predicate Less(a: string, b: string) {
    if b == "" then false
    else if a == "" then true
    else if a[0] != b[0] then a[0] < b[0]
    else Less(a[1..], b[1..])
  }

  lemma {:induction false} LessTotal(a: string, b: string)
    ensures a == b || Less(a, b) || Less(b, a)
    ensures !(Less(a, b) && Less(b, a))
    ensures !Less(a, a)
    decreases |a|
  {
    if a != "" {
      LessTotal(a[1..], a[1..]);
    }
    if a != "" && b != "" && a[0] == b[0] {
      LessTotal(a[1..], b[1..]);
      assert a == [a[0]] + a[1..] && b == [b[0]] + b[1..];
    }
  }

  lemma {:induction false} LessTransitive(a: string, b: string, c: string)
    requires Less(a, b) && Less(b, c)
    ensures Less(a, c)
    decreases |a|
  {
    if a != "" && a[0] == b[0] && b[0] == c[0] {
      LessTransitive(a[1..], b[1..], c[1..]);
    }
  }

  /** Any way to compare keys; the source leaves it to the collation of the runtime. */
  type KeyOrder = (string, string) -> bool

  /** A strict total order. */
  ghost predicate TotalOrder(less: KeyOrder) {
    && (forall a, b :: (a == b || less(a, b) || less(b, a)) && !(less(a, b) && less(b, a)))
    && (forall a, b, c :: less(a, b) && less(b, c) ==> less(a, c))
  }

  lemma OrderTotal(less: KeyOrder, a: string, b: string)
    requires TotalOrder(less)
    ensures a == b || less(a, b) || less(b, a)
    ensures !(less(a, b) && less(b, a)) && !less(a, a)
  {
  }

  lemma OrderTransitive(less: KeyOrder, a: string, b: string, c: string)
    requires TotalOrder(less) && less(a, b) && less(b, c)
    ensures less(a, c)
  {
  }

  const CODE_POINTS: KeyOrder := (a, b) => Less(a, b)

  lemma CodePointsAreTotal()
    ensures TotalOrder(CODE_POINTS)
  {
    forall a, b ensures (a == b || Less(a, b) || Less(b, a)) && !(Less(a, b) && Less(b, a)) { LessTotal(a, b); }
    forall a, b, c | Less(a, b) && Less(b, c) ensures Less(a, c) { LessTransitive(a, b, c); }
  }

  predicate IsLeast(less: KeyOrder, k: string, keys: set<string>) {
    k in keys && forall k' :: k' in keys ==> k' == k || less(k, k')
  }

  lemma {:induction false} LeastExists(less: KeyOrder, keys: set<string>)
    requires TotalOrder(less)
    requires keys != {}
    ensures exists k :: IsLeast(less, k, keys)
    decreases |keys|
  {
    hide TotalOrder;
    var x :| x in keys;
    var rest := keys - {x};
    assert keys == rest + {x};
    if rest == {} {
      assert IsLeast(less, x, keys);
    } else {
      LeastExists(less, rest);
      var m :| IsLeast(less, m, rest);
      OrderTotal(less, x, m);
      if less(x, m) {
        forall k | k in keys ensures k == x || less(x, k) {
          if k != x && k != m { OrderTransitive(less, x, m, k); }
        }
        assert IsLeast(less, x, keys);
      } else {
        assert IsLeast(less, m, keys);
      }
    }
  }

  lemma LeastUnique(less: KeyOrder, a: string, b: string, keys: set<string>)
    requires TotalOrder(less)
    requires IsLeast(less, a, keys) && IsLeast(less, b, keys)
    ensures a == b
  {
    hide TotalOrder;
    OrderTotal(less, a, b);
  }

  function Least(less: KeyOrder, keys: set<string>): (k: string)
    requires TotalOrder(less)
    requires keys != {}
    ensures IsLeast(less, k, keys)
  {
    LeastExists(less, keys);
    assert forall a, b :: IsLeast(less, a, keys) && IsLeast(less, b, keys) ==> a == b by {
      forall a, b | IsLeast(less, a, keys) && IsLeast(less, b, keys) ensures a == b { LeastUnique(less, a, b, keys); }
    }
    var k :| k in keys && IsLeast(less, k, keys);
    k
  }

  // The canonical document of a value, and of a document

  function Canon(less: KeyOrder, v: Value): Doc
    requires TotalOrder(less)
    decreases v, 1, 0
  {
    match v
    case Null => DNull
    case Bool(b) => DBool(b)
    case Num(n) => DNum(n)
    case Str(s) => DStr(s)
    case Arr(items) => DArr(CanonItems(less, items))
    case Obj(fields) => DObj(CanonFields(less, v, fields.Keys))
  }

  function CanonItems(less: KeyOrder, items: seq<Value>): (r: seq<Doc>)
    requires TotalOrder(less)
    ensures |r| == |items|
    ensures forall i :: 0 <= i < |items| ==> r[i] == Canon(less, items[i])
    decreases items, 0, 0
  {
    if items == [] then [] else [Canon(less, items[0])] + CanonItems(less, items[1..])
  }

  /** The fields of `v` named by `keys`, in key order. */
  function CanonFields(less: KeyOrder, v: Value, keys: set<string>): seq<Field>
    requires TotalOrder(less)
    requires v.Obj? && keys <= v.fields.Keys
    decreases v, 0, |keys|
  {
    if keys == {} then [] else
    var k := Least(less, keys);
    [Field(k, Canon(less, v.fields[k]))] + CanonFields(less, v, keys - {k})
  }

  function Insert(less: KeyOrder, f: Field, fields: seq<Field>): seq<Field>
    decreases fields
  {
    if fields == [] || less(f.key, fields[0].key) then [f] + fields
    else [fields[0]] + Insert(less, f, fields[1..])
  }

  /** `sortForStableStringify`: the document with every object's keys in order. */
  function SortKeys(less: KeyOrder, d: Doc): Doc
    decreases d
  {
    match d
    case DArr(items) => DArr(SortItems(less, items))
    case DObj(fields) => DObj(SortFields(less, fields))
    case _ => d
  }

  function SortItems(less: KeyOrder, items: seq<Doc>): (r: seq<Doc>)
    ensures |r| == |items|
    ensures forall i :: 0 <= i < |items| ==> r[i] == SortKeys(less, items[i])
    decreases items
  {
    if items == [] then [] else [SortKeys(less, items[0])] + SortItems(less, items[1..])
  }

  function SortFields(less: KeyOrder, fields: seq<Field>): seq<Field>
    decreases fields
  {
    if fields == [] then []
    else Insert(less, Field(fields[0].key, SortKeys(less, fields[0].value)), SortFields(less, fields[1..]))
  }

  function StableStringify(less: KeyOrder, d: Doc): string {
    Print(SortKeys(less, d))
  }

  // Sorting a document gives the canonical document of its value

  lemma {:induction false} InsertCanon(less: KeyOrder, v: Value, keys: set<string>, k: string)
    requires TotalOrder(less)
    requires v.Obj? && keys <= v.fields.Keys && k in v.fields && k !in keys
    ensures Insert(less, Field(k, Canon(less, v.fields[k])), CanonFields(less, v, keys)) == CanonFields(less, v, keys + {k})
    decreases |keys|
  {
    hide TotalOrder;
    var f := Field(k, Canon(less, v.fields[k]));
    var all := keys + {k};
    if keys == {} {
      assert IsLeast(less, k, all);
      LeastUnique(less, k, Least(less, all), all);
      assert all - {k} == {};
      return;
    }
    var m := Least(less, keys);
    OrderTotal(less, k, m);
    if less(k, m) {
      forall x | x in all ensures x == k || less(k, x) {
        if x in keys && x != m { OrderTransitive(less, k, m, x); }
      }
      assert IsLeast(less, k, all);
      LeastUnique(less, k, Least(less, all), all);
      assert all - {k} == keys;
    } else {
      assert IsLeast(less, m, all);
      LeastUnique(less, m, Least(less, all), all);
      assert all - {m} == (keys - {m}) + {k};
      InsertCanon(less, v, keys - {m}, k);
      assert CanonFields(less, v, keys)[1..] == CanonFields(less, v, keys - {m});
    }
  }

  ghost function KeySet(fields: seq<Field>): set<string> {
    set i | 0 <= i < |fields| :: fields[i].key
  }

  lemma {:induction false} SortCanon(less: KeyOrder, d: Doc)
    requires TotalOrder(less)
    requires DistinctKeys(d)
    ensures SortKeys(less, d) == Canon(less, View(d))
    decreases d
  {
    hide TotalOrder;
    match d {
      case DArr(items) =>
        forall i | 0 <= i < |items| ensures SortKeys(less, items[i]) == Canon(less, View(items[i])) {
          SortCanon(less, items[i]);
        }
        assert SortItems(less, items) == CanonItems(less, ViewItems(items));
      case DObj(fields) =>
        ViewFieldsAre(fields);
        SortFieldsCanon(less, fields, View(d));
      case _ =>
    }
  }

  lemma {:induction false} ViewFieldsAre(fields: seq<Field>)
    requires UniqueKeys(fields)
    ensures ViewFields(fields).Keys == KeySet(fields)
    ensures forall i :: 0 <= i < |fields| ==> ViewFields(fields)[fields[i].key] == View(fields[i].value)
    decreases |fields|
  {
    if fields != [] {
      var f, rest := fields[0], fields[1..];
      ViewFieldsAre(rest);
      KeySetCons(fields);
      HeadIsNew(fields);
      assert ViewFields(fields) == map[f.key := View(f.value)] + ViewFields(rest);
      hide View, ViewFields, KeySet;
      forall i | 0 <= i < |fields| ensures ViewFields(fields)[fields[i].key] == View(fields[i].value) {
        if 0 < i { assert rest[i - 1] == fields[i]; }
      }
    }
  }

  lemma HeadIsNew(fields: seq<Field>)
    requires fields != [] && UniqueKeys(fields)
    ensures fields[0].key !in KeySet(fields[1..]) && UniqueKeys(fields[1..])
  {
    var rest := fields[1..];
    assert forall j :: 0 <= j < |rest| ==> rest[j] == fields[j + 1];
  }

  lemma KeySetCons(fields: seq<Field>)
    requires fields != []
    ensures KeySet(fields) == {fields[0].key} + KeySet(fields[1..])
  {
    var rest := fields[1..];
    forall k | k in KeySet(fields) ensures k in {fields[0].key} + KeySet(rest) {
      var i :| 0 <= i < |fields| && fields[i].key == k;
      if 0 < i { assert rest[i - 1].key == k; }
    }
    forall k | k in KeySet(rest) ensures k in KeySet(fields) {
      var i :| 0 <= i < |rest| && rest[i].key == k;
      assert fields[i + 1].key == k;
    }
  }

  lemma {:induction false} SortFieldsCanon(less: KeyOrder, fields: seq<Field>, v: Value)
    requires TotalOrder(less)
    requires v.Obj? && UniqueKeys(fields)
    requires forall i :: 0 <= i < |fields| ==> DistinctKeys(fields[i].value)
    requires forall i :: 0 <= i < |fields| ==>
               fields[i].key in v.fields && v.fields[fields[i].key] == View(fields[i].value)
    ensures KeySet(fields) <= v.fields.Keys && SortFields(less, fields) == CanonFields(less, v, KeySet(fields))
    decreases fields
  {
    hide TotalOrder;
    if fields == [] {
      assert KeySet(fields) == {};
      return;
    }
    var f, rest := fields[0], fields[1..];
    KeySetCons(fields);
    assert f.key !in KeySet(rest) by {
      assert forall j :: 0 <= j < |rest| ==> rest[j] == fields[j + 1];
    }
    SortCanon(less, f.value);
    SortFieldsCanon(less, rest, v);
    InsertCanon(less, v, KeySet(rest), f.key);
    assert KeySet(fields) == KeySet(rest) + {f.key};
  }

  // A value can be read off its canonical document

  lemma {:induction false} ViewCanon(less: KeyOrder, v: Value)
    requires TotalOrder(less)
    ensures View(Canon(less, v)) == v
    decreases v, 1, 0
  {
    hide TotalOrder;
    match v {
      case Arr(items) =>
        forall i | 0 <= i < |items| ensures View(Canon(less, items[i])) == items[i] { ViewCanon(less, items[i]); }
        assert ViewItems(CanonItems(less, items)) == items;
      case Obj(fields) =>
        ViewCanonFields(less, v, fields.Keys);
      case _ =>
    }
  }

  lemma {:induction false} ViewCanonFields(less: KeyOrder, v: Value, keys: set<string>)
    requires TotalOrder(less)
    requires v.Obj? && keys <= v.fields.Keys
    ensures ViewFields(CanonFields(less, v, keys)) == map k | k in keys :: v.fields[k]
    decreases v, 0, |keys|
  {
    hide TotalOrder;
    if keys != {} {
      var k := Least(less, keys);
      ViewCanon(less, v.fields[k]);
      ViewCanonFields(less, v, keys - {k});
      assert CanonFields(less, v, keys)[1..] == CanonFields(less, v, keys - {k});
    }
  }

  /** In any one order, values have the same canonical text if and only if they are equal. */
  lemma CanonInjective(less: KeyOrder, a: Value, b: Value)
    requires TotalOrder(less)
    ensures Print(Canon(less, a)) == Print(Canon(less, b)) <==> a == b
  {
    hide TotalOrder;
    if Print(Canon(less, a)) == Print(Canon(less, b)) {
      PrintInjective(Canon(less, a), Canon(less, b));
      ViewCanon(less, a);
      ViewCanon(less, b);
    }
  }

  /**
   * `stableStringify` is a canonical form, whatever the total order it sorts keys by:
   * same text if and only if equal up to key order.
   */
  lemma StableStringifyCanonical(less: KeyOrder, a: Doc, b: Doc)
    requires TotalOrder(less) && DistinctKeys(a) && DistinctKeys(b)
    ensures StableStringify(less, a) == StableStringify(less, b) <==> View(a) == View(b)
  {
    hide TotalOrder;
    SortCanon(less, a);
    SortCanon(less, b);
    CanonInjective(less, View(a), View(b));
  }

  /** The text a value is compared by and stored as: its canonical document, printed. */
  function CanonText(v: Value): string {
    CodePointsAreTotal();
    Print(Canon(CODE_POINTS, v))
  }

  lemma CanonTextInjective(a: Value, b: Value)
    ensures CanonText(a) == CanonText(b) <==> a == b
  {
    CodePointsAreTotal();
    CanonInjective(CODE_POINTS, a, b);
  }

  /** A stored text reads back as the value it was written from. */
  lemma ReadCanonText(v: Value)
    ensures var d := Parse(CanonText(v)); d.Some? && View(d.value) == v
  {
    CodePointsAreTotal();
    ParsePrint(Canon(CODE_POINTS, v));
    ViewCanon(CODE_POINTS, v);
  }
}
