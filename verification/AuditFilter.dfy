/**
 * The audit log's filters: the LIKE patterns mean "contains" and "starts with",
 * and the generated WHERE clause selects exactly the rows the options describe.
 */
module AuditFilter {
  import opened Text
  import opened Json
  import opened Canonical

  // Escaping

  /** `s.replaceAll(c, r)` for a one-character pattern. */
  function ReplaceAll(s: string, c: char, r: string): string {
    if s == "" then "" else (if s[0] == c then r else [s[0]]) + ReplaceAll(s[1..], c, r)
  }

  /** The three passes of the filters. */
  function EscapeLike(value: string): string {
    ReplaceAll(ReplaceAll(ReplaceAll(value, '\\', "\\\\"), '%', "\\%"), '_', "\\_")
  }

  predicate IsSpecial(c: char) {
    c == '\\' || c == '%' || c == '_'
  }

  /** One pass that escapes each character by itself. */
  function EscapeEach(value: string): string {
    if value == "" then ""
    else (if IsSpecial(value[0]) then ['\\', value[0]] else [value[0]]) + EscapeEach(value[1..])
  }

  lemma {:induction false} ReplaceAllAppend(a: string, b: string, c: char, r: string)
    ensures ReplaceAll(a + b, c, r) == ReplaceAll(a, c, r) + ReplaceAll(b, c, r)
    decreases |a|
  {
    if a == "" {
      assert a + b == b;
    } else {
      assert (a + b)[1..] == a[1..] + b;
      ReplaceAllAppend(a[1..], b, c, r);
    }
  }

  /** The later passes never touch the backslashes that the earlier ones put in. */
  lemma {:induction false} EscapePassesAreOne(value: string)
    ensures EscapeLike(value) == EscapeEach(value)
    decreases |value|
  {
    if value != "" {
      var head, tail := [value[0]], value[1..];
      assert value == head + tail;
      EscapePassesAreOne(tail);
      var p1, p2 := ReplaceAll(head, '\\', "\\\\"), ReplaceAll(tail, '\\', "\\\\");
      ReplaceAllAppend(head, tail, '\\', "\\\\");
      ReplaceAllAppend(p1, p2, '%', "\\%");
      ReplaceAllAppend(ReplaceAll(p1, '%', "\\%"), ReplaceAll(p2, '%', "\\%"), '_', "\\_");
      EscapeOneChar(value[0]);
    }
  }

  lemma EscapeOneChar(c: char)
    ensures EscapeLike([c]) == if IsSpecial(c) then ['\\', c] else [c]
  {
    assert [c][1..] == "";
    if c == '\\' {
      assert "\\\\"[1..] == "\\" && "\\"[1..] == "";
      assert ReplaceAll("\\", '%', "\\%") == "\\" && ReplaceAll("\\\\", '%', "\\%") == "\\\\";
      assert ReplaceAll("\\", '_', "\\_") == "\\" && ReplaceAll("\\\\", '_', "\\_") == "\\\\";
    } else if c == '%' {
      assert "\\%"[1..] == "%" && "%"[1..] == "";
      assert ReplaceAll("%", '_', "\\_") == "%" && ReplaceAll("\\%", '_', "\\_") == "\\%";
    }
  }

  // LIKE

  /** `text LIKE pattern ESCAPE '\'`, with SQLite's folding of ASCII case. */
  predicate Like(pattern: string, text: string)
    decreases |pattern| + |text|
  {
    if pattern == "" then text == ""
    else if pattern[0] == '%' then Like(pattern[1..], text) || (text != "" && Like(pattern, text[1..]))
    else if text == "" then false
    else if pattern[0] == '_' then Like(pattern[1..], text[1..])
    else if pattern[0] == '\\' then
      2 <= |pattern| && LowerChar(pattern[1]) == LowerChar(text[0]) && Like(pattern[2..], text[1..])
    else LowerChar(pattern[0]) == LowerChar(text[0]) && Like(pattern[1..], text[1..])
  }

  predicate StartsWithFolded(text: string, value: string) {
    Lower(value) <= Lower(text)
  }

  ghost predicate ContainsFolded(text: string, value: string) {
    exists i :: 0 <= i <= |text| && StartsWithFolded(text[i..], value)
  }

  lemma {:induction false} LikeEverything(text: string)
    ensures Like("%", text)
    decreases |text|
  {
    assert "%"[1..] == "";
    if text != "" { LikeEverything(text[1..]); }
  }

  lemma FoldedCons(text: string, value: string)
    requires value != ""
    ensures StartsWithFolded(text, value) <==>
            text != "" && LowerChar(value[0]) == LowerChar(text[0]) && StartsWithFolded(text[1..], value[1..])
  {
    assert Lower(value) == [LowerChar(value[0])] + Lower(value[1..]);
    if text != "" {
      assert Lower(text) == [LowerChar(text[0])] + Lower(text[1..]);
    }
  }

  /** `e(v)%` matches exactly the texts that start with v. */
  lemma {:induction false} LikePrefix(value: string, text: string)
    ensures Like(EscapeLike(value) + "%", text) <==> StartsWithFolded(text, value)
    decreases |value|
  {
    EscapePassesAreOne(value);
    var e := EscapeEach(value) + "%";
    if value == "" {
      assert e == "%";
      LikeEverything(text);
    } else {
      EscapePassesAreOne(value[1..]);
      LikePrefix(value[1..], if text == "" then "" else text[1..]);
      FoldedCons(text, value);
      hide EscapeLike;
      var rest := EscapeEach(value[1..]) + "%";
      if IsSpecial(value[0]) {
        assert e == ['\\', value[0]] + rest && e[2..] == rest;
      } else {
        assert e == [value[0]] + rest && e[1..] == rest;
      }
    }
  }

  /** `%e(v)%` matches exactly the texts that contain v. */
  lemma {:induction false} LikeContains(value: string, text: string)
    ensures Like("%" + EscapeLike(value) + "%", text) <==> ContainsFolded(text, value)
    decreases |text|
  {
    var p := EscapeLike(value) + "%";
    assert "%" + EscapeLike(value) + "%" == "%" + p && ("%" + p)[1..] == p;
    LikePrefix(value, text);
    hide EscapeLike, StartsWithFolded;
    assert text[0..] == text;
    if text != "" {
      LikeContains(value, text[1..]);
      assert forall i :: 1 <= i <= |text| ==> text[i..] == text[1..][i - 1..];
    }
  }

  // The WHERE clause

  datatype Column = TableName | Key | PathColumn | Timestamp

  datatype Row = Row(tableName: string, key: string, path: Option<string>, timestamp: string)

  datatype Options = Options(
    tableName: Option<string>, key: Option<string>, pathPrefix: Option<string>,
    from: Option<string>, to: Option<string>)

  datatype Condition = Equals(c: Column) | LikeColumn(c: Column) | EitherLike(a: Column, b: Column)
                     | AtLeast(c: Column) | AtMost(c: Column)

  function ColumnText(c: Column): string {
    match c
    case TableName => "table_name"
    case Key => "key"
    case PathColumn => "path"
    case Timestamp => "timestamp"
  }

  const MARK: string := "?"
  const ESCAPED: string := " ESCAPE '\\'"

  function Render(cond: Condition): string {
    match cond
    case Equals(c) => ColumnText(c) + " = " + MARK
    case LikeColumn(c) => LikeText(c)
    case EitherLike(a, b) => "(" + LikeText(a) + " OR " + LikeText(b) + ")"
    case AtLeast(c) => ColumnText(c) + " >= " + MARK
    case AtMost(c) => ColumnText(c) + " <= " + MARK
  }

  function LikeText(c: Column): string {
    ColumnText(c) + " LIKE " + MARK + ESCAPED
  }

  function Slots(cond: Condition): nat {
    if cond.EitherLike? then 2 else 1
  }

  /** A column's value; `None` is NULL, and a comparison with NULL selects nothing. */
  function Cell(row: Row, c: Column): Option<string> {
    match c
    case TableName => Some(row.tableName)
    case Key => Some(row.key)
    case PathColumn => row.path
    case Timestamp => Some(row.timestamp)
  }

  predicate LikeCell(row: Row, c: Column, pattern: string) {
    Cell(row, c).Some? && Like(pattern, Cell(row, c).value)
  }

  predicate Holds(cond: Condition, params: seq<string>, row: Row)
    requires |params| == Slots(cond)
  {
    match cond
    case Equals(c) => Cell(row, c) == Some(params[0])
    case LikeColumn(c) => LikeCell(row, c, params[0])
    case EitherLike(a, b) => LikeCell(row, a, params[0]) || LikeCell(row, b, params[1])
    case AtLeast(c) => Cell(row, c).Some? && !Less(Cell(row, c).value, params[0])
    case AtMost(c) => Cell(row, c).Some? && !Less(params[0], Cell(row, c).value)
  }

  datatype Filter = ByTable | ByKey | ByPathPrefix | ByFrom | ByTo

  const FILTER_MAP: seq<Filter> := [ByTable, ByKey, ByPathPrefix, ByFrom, ByTo]

  function OptionOf(o: Options, f: Filter): Option<string> {
    match f
    case ByTable => o.tableName
    case ByKey => o.key
    case ByPathPrefix => o.pathPrefix
    case ByFrom => o.from
    case ByTo => o.to
  }

  function ConditionOf(f: Filter): Condition {
    match f
    case ByTable => Equals(TableName)
    case ByKey => LikeColumn(Key)
    case ByPathPrefix => EitherLike(PathColumn, Key)
    case ByFrom => AtLeast(Timestamp)
    case ByTo => AtMost(Timestamp)
  }

  function Transform(f: Filter, value: string): (params: seq<string>)
    ensures |params| == Slots(ConditionOf(f))
  {
    match f
    case ByKey => ["%" + EscapeLike(value) + "%"]
    case ByPathPrefix => [EscapeLike(value) + "%", EscapeLike(value) + "%"]
    case _ => [value]
  }

  function TotalSlots(conds: seq<Condition>): nat {
    if conds == [] then 0 else TotalSlots(conds[..|conds| - 1]) + Slots(conds[|conds| - 1])
  }

  /** Every condition holds, the parameters being bound to the placeholders from left to right. */
  predicate AllHold(conds: seq<Condition>, params: seq<string>, row: Row)
    requires |params| == TotalSlots(conds)
  {
    conds == [] ||
    var last := conds[|conds| - 1];
    var n := |params| - Slots(last);
    AllHold(conds[..|conds| - 1], params[..n], row) && Holds(last, params[n..], row)
  }

  /** What the options ask of a row, said without patterns or placeholders. */
  ghost predicate Wanted(f: Filter, value: string, row: Row) {
    match f
    case ByTable => row.tableName == value
    case ByKey => ContainsFolded(row.key, value)
    case ByPathPrefix =>
      (row.path.Some? && StartsWithFolded(row.path.value, value)) || StartsWithFolded(row.key, value)
    case ByFrom => row.timestamp == value || Less(value, row.timestamp)
    case ByTo => row.timestamp == value || Less(row.timestamp, value)
  }

  lemma HoldsMeansWanted(f: Filter, value: string, row: Row)
    ensures Holds(ConditionOf(f), Transform(f, value), row) <==> Wanted(f, value, row)
  {
    hide Like, EscapeLike, StartsWithFolded, ContainsFolded;
    match f {
      case ByTable =>
      case ByKey => LikeContains(value, row.key);
      case ByPathPrefix =>
        LikePrefix(value, row.key);
        if row.path.Some? { LikePrefix(value, row.path.value); }
      case ByFrom => LessTotal(row.timestamp, value);
      case ByTo => LessTotal(row.timestamp, value);
    }
  }

  /** The given options among the first `n` filters all want the row. */
  ghost predicate WantedBy(o: Options, n: nat, row: Row)
    requires n <= |FILTER_MAP|
  {
    forall i :: 0 <= i < n && OptionOf(o, FILTER_MAP[i]).Some? ==>
      Wanted(FILTER_MAP[i], OptionOf(o, FILTER_MAP[i]).value, row)
  }

  lemma NothingHolds(o: Options)
    ensures TotalSlots([]) == 0
    ensures forall row :: AllHold([], [], row) && WantedBy(o, 0, row)
  {
    hide Wanted;
  }

  lemma WantedByNext(o: Options, i: nat, row: Row)
    requires i < |FILTER_MAP|
    ensures WantedBy(o, i + 1, row) <==>
            WantedBy(o, i, row) &&
            (OptionOf(o, FILTER_MAP[i]).Some? ==> Wanted(FILTER_MAP[i], OptionOf(o, FILTER_MAP[i]).value, row))
  {
    hide Wanted, OptionOf;
  }

  lemma SlotsExtended(conds: seq<Condition>, params: seq<string>, f: Filter, value: string)
    requires |params| == TotalSlots(conds)
    ensures TotalSlots(conds + [ConditionOf(f)]) == |params + Transform(f, value)|
  {
    var more := conds + [ConditionOf(f)];
    assert more[..|more| - 1] == conds;
  }

  lemma AllHoldExtended(conds: seq<Condition>, params: seq<string>, f: Filter, value: string, row: Row)
    requires |params| == TotalSlots(conds)
    ensures TotalSlots(conds + [ConditionOf(f)]) == |params + Transform(f, value)|
    ensures AllHold(conds + [ConditionOf(f)], params + Transform(f, value), row)
       <==> AllHold(conds, params, row) && Wanted(f, value, row)
  {
    HoldsMeansWanted(f, value, row);
    hide Holds, Wanted, Transform;
    var more, ps := conds + [ConditionOf(f)], params + Transform(f, value);
    assert more[..|more| - 1] == conds && more[|more| - 1] == ConditionOf(f);
    assert ps[..|params|] == params && ps[|params|..] == Transform(f, value);
  }

  /** What a query asks of a row, option by option. */
  ghost predicate Selected(o: Options, row: Row) {
    && (o.tableName.Some? ==> row.tableName == o.tableName.value)
    && (o.key.Some? ==> ContainsFolded(row.key, o.key.value))
    && (o.pathPrefix.Some? ==>
          || (row.path.Some? && StartsWithFolded(row.path.value, o.pathPrefix.value))
          || StartsWithFolded(row.key, o.pathPrefix.value))
    && (o.from.Some? ==> row.timestamp == o.from.value || Less(o.from.value, row.timestamp))
    && (o.to.Some? ==> row.timestamp == o.to.value || Less(row.timestamp, o.to.value))
  }

  lemma OptionByOption(o: Options, row: Row)
    ensures WantedBy(o, |FILTER_MAP|, row) <==> Selected(o, row)
  {
    hide ContainsFolded, StartsWithFolded, Less;
    assert FILTER_MAP[0] == ByTable && FILTER_MAP[1] == ByKey && FILTER_MAP[2] == ByPathPrefix
        && FILTER_MAP[3] == ByFrom && FILTER_MAP[4] == ByTo;
    if WantedBy(o, |FILTER_MAP|, row) {
      assert OptionOf(o, FILTER_MAP[0]).Some? ==> Wanted(FILTER_MAP[0], OptionOf(o, FILTER_MAP[0]).value, row);
      assert OptionOf(o, FILTER_MAP[1]).Some? ==> Wanted(FILTER_MAP[1], OptionOf(o, FILTER_MAP[1]).value, row);
      assert OptionOf(o, FILTER_MAP[2]).Some? ==> Wanted(FILTER_MAP[2], OptionOf(o, FILTER_MAP[2]).value, row);
      assert OptionOf(o, FILTER_MAP[3]).Some? ==> Wanted(FILTER_MAP[3], OptionOf(o, FILTER_MAP[3]).value, row);
      assert OptionOf(o, FILTER_MAP[4]).Some? ==> Wanted(FILTER_MAP[4], OptionOf(o, FILTER_MAP[4]).value, row);
    }
  }

  /** The loop of `buildWhereClause`. */
  method BuildWhereClause(o: Options) returns (conditions: seq<Condition>, params: seq<string>)
    ensures |params| == TotalSlots(conditions)
    ensures forall row :: AllHold(conditions, params, row) <==> Selected(o, row)
  {
    hide Holds, Wanted, AllHold, TotalSlots, WantedBy, Selected, Transform, ConditionOf;
    conditions, params := [], [];
    NothingHolds(o);
    var i := 0;
    while i < |FILTER_MAP|
      invariant 0 <= i <= |FILTER_MAP|
      invariant |params| == TotalSlots(conditions)
      invariant forall row :: AllHold(conditions, params, row) <==> WantedBy(o, i, row)
    {
      var filter := FILTER_MAP[i];
      var value := OptionOf(o, filter);
      if value.Some? {
        ghost var cs, ps := conditions, params;
        conditions := conditions + [ConditionOf(filter)];
        params := params + Transform(filter, value.value);
        SlotsExtended(cs, ps, filter, value.value);
        forall row
          ensures AllHold(conditions, params, row) <==> AllHold(cs, ps, row) && Wanted(filter, value.value, row)
        {
          AllHoldExtended(cs, ps, filter, value.value, row);
        }
      }
      forall row
        ensures WantedBy(o, i + 1, row) <==>
                WantedBy(o, i, row) && (value.Some? ==> Wanted(filter, value.value, row))
      {
        WantedByNext(o, i, row);
      }
      i := i + 1;
    }
    forall row
      ensures WantedBy(o, |FILTER_MAP|, row) <==> Selected(o, row)
    {
      OptionByOption(o, row);
    }
  }

  function JoinAnd(conds: seq<Condition>): string {
    if conds == [] then ""
    else if |conds| == 1 then Render(conds[0])
    else JoinAnd(conds[..|conds| - 1]) + " AND " + Render(conds[|conds| - 1])
  }

  function WhereText(conds: seq<Condition>): string {
    if conds == [] then "" else "WHERE " + JoinAnd(conds)
  }

  lemma LikeTexts()
    ensures LikeText(Key) == @"key LIKE ? ESCAPE '\'" && LikeText(PathColumn) == @"path LIKE ? ESCAPE '\'"
  {
  }

  /** The texts of the conditions, as SQL. */
  lemma ConditionTexts()
    ensures Render(ConditionOf(ByTable)) == "table_name = ?"
    ensures Render(ConditionOf(ByKey)) == @"key LIKE ? ESCAPE '\'"
    ensures Render(ConditionOf(ByPathPrefix)) ==
            "(" + @"path LIKE ? ESCAPE '\'" + " OR " + @"key LIKE ? ESCAPE '\'" + ")"
    ensures Render(ConditionOf(ByFrom)) == "timestamp >= ?"
    ensures Render(ConditionOf(ByTo)) == "timestamp <= ?"
  {
    LikeTexts();
    hide LikeText;
  }

  /** The clause text one condition longer. */
  lemma WhereTexts(conds: seq<Condition>, last: Condition)
    ensures WhereText([]) == ""
    ensures WhereText(conds + [last]) ==
            (if conds == [] then "WHERE " else WhereText(conds) + " AND ") + Render(last)
  {
    hide Render;
    var more := conds + [last];
    assert more[..|more| - 1] == conds && more[|more| - 1] == last;
  }

  function Placeholders(s: string): nat {
    if s == "" then 0 else (if s[0] == '?' then 1 else 0) + Placeholders(s[1..])
  }

  lemma {:induction false} PlaceholdersAppend(a: string, b: string)
    ensures Placeholders(a + b) == Placeholders(a) + Placeholders(b)
    decreases |a|
  {
    if a == "" {
      assert a + b == b;
    } else {
      assert (a + b)[1..] == a[1..] + b;
      PlaceholdersAppend(a[1..], b);
    }
  }

  lemma {:induction false} NoPlaceholder(s: string)
    requires '?' !in s
    ensures Placeholders(s) == 0
    decreases |s|
  {
    if s != "" { NoPlaceholder(s[1..]); }
  }

  lemma Plain(a: string, plain: string, b: string)
    requires '?' !in plain
    ensures Placeholders(a + plain) == Placeholders(a)
    ensures Placeholders(plain + b) == Placeholders(b)
  {
    hide Placeholders;
    NoPlaceholder(plain);
    PlaceholdersAppend(a, plain);
    PlaceholdersAppend(plain, b);
  }

  lemma Marked(a: string)
    ensures Placeholders(a + MARK) == Placeholders(a) + 1
  {
    PlaceholdersAppend(a, MARK);
    assert MARK[1..] == "";
  }

  lemma ColumnPlain(c: Column, op: string)
    requires '?' !in op
    ensures Placeholders(ColumnText(c) + op + MARK) == 1
  {
    NoPlaceholder(ColumnText(c));
    hide ColumnText, Placeholders;
    Plain(ColumnText(c), op, "");
    Marked(ColumnText(c) + op);
  }

  lemma LikePlaceholders(c: Column)
    ensures Placeholders(LikeText(c)) == 1
  {
    hide ColumnText, Placeholders;
    ColumnPlain(c, " LIKE ");
    Plain(ColumnText(c) + " LIKE " + MARK, ESCAPED, "");
  }

  lemma RenderPlaceholders(cond: Condition)
    ensures Placeholders(Render(cond)) == Slots(cond)
  {
    hide ColumnText, Placeholders, LikeText;
    match cond {
      case Equals(c) => ColumnPlain(c, " = ");
      case LikeColumn(c) => LikePlaceholders(c);
      case EitherLike(a, b) =>
        LikePlaceholders(a);
        LikePlaceholders(b);
        var t := "(" + LikeText(a);
        Plain("", "(", LikeText(a));
        Plain(t, " OR ", "");
        PlaceholdersAppend(t + " OR ", LikeText(b));
        Plain(t + " OR " + LikeText(b), ")", "");
      case AtLeast(c) => ColumnPlain(c, " >= ");
      case AtMost(c) => ColumnPlain(c, " <= ");
    }
  }

  lemma {:induction false} JoinPlaceholders(conds: seq<Condition>)
    ensures Placeholders(JoinAnd(conds)) == TotalSlots(conds)
    decreases |conds|
  {
    hide Render, Slots;
    if conds != [] {
      var init, last := conds[..|conds| - 1], conds[|conds| - 1];
      RenderPlaceholders(last);
      if |conds| == 1 {
        assert TotalSlots(init) == 0;
      } else {
        JoinPlaceholders(init);
        Plain(JoinAnd(init), " AND ", "");
        PlaceholdersAppend(JoinAnd(init) + " AND ", Render(last));
      }
    }
  }

  function SelectRows(): string { "SELECT * FROM config_history " }

  function SelectCount(): string { "SELECT COUNT(*) as count FROM config_history " }

  function OrderText(): string { " ORDER BY timestamp DESC LIMIT " }

  function OffsetText(): string { " OFFSET " }

  function QuerySql(conds: seq<Condition>): string {
    SelectRows() + WhereText(conds) + OrderText() + MARK + OffsetText() + MARK
  }

  function CountSql(conds: seq<Condition>): string {
    SelectCount() + WhereText(conds)
  }

  /** The texts of the two statements around the clause. */
  lemma SqlTexts(conds: seq<Condition>)
    ensures CountSql(conds) == "SELECT COUNT(*) as count FROM config_history " + WhereText(conds)
    ensures QuerySql(conds) ==
            "SELECT * FROM config_history " + WhereText(conds) + " ORDER BY timestamp DESC LIMIT ? OFFSET ?"
  {
    hide WhereText;
    assert " ORDER BY timestamp DESC LIMIT " + "?" + " OFFSET " + "?" == " ORDER BY timestamp DESC LIMIT ? OFFSET ?";
  }

  lemma SqlTextPlain()
    ensures '?' !in SelectRows() && '?' !in OrderText() && '?' !in OffsetText()
  {
  }

  lemma SelectCountPlain()
    ensures '?' !in SelectCount()
  {
    var s, a, b := SelectCount(), "SELECT COUNT(*) as count", " FROM config_history ";
    assert s == a + b;
    assert '?' !in a && '?' !in b;
  }

  lemma WherePlaceholders(conds: seq<Condition>)
    ensures Placeholders(WhereText(conds)) == TotalSlots(conds)
  {
    hide Render;
    JoinPlaceholders(conds);
    Plain("", "WHERE ", JoinAnd(conds));
  }

  /** Every statement has as many placeholders as parameters; `query` appends limit and offset. */
  lemma SqlPlaceholders(conds: seq<Condition>)
    ensures Placeholders(CountSql(conds)) == TotalSlots(conds)
    ensures Placeholders(QuerySql(conds)) == TotalSlots(conds) + 2
  {
    hide Placeholders, WhereText, SelectRows, SelectCount, OrderText, OffsetText;
    SqlTextPlain();
    SelectCountPlain();
    WherePlaceholders(conds);
    Plain("", SelectCount(), WhereText(conds));
    Plain("", SelectRows(), WhereText(conds));
    var t := SelectRows() + WhereText(conds);
    Plain(t, OrderText(), "");
    Marked(t + OrderText());
    Plain(t + OrderText() + MARK, OffsetText(), "");
    Marked(t + OrderText() + MARK + OffsetText());
  }
}
