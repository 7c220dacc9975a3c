/**
 * JSON documents as JavaScript holds them - objects keep the order of their keys -
 * with the compact text `JSON.stringify` gives them and a reader for that text.
 * A number is its canonical numeral.
 */
module Json {
  import opened Text

  datatype Option<+T> = None | Some(value: T)

  predicate IsNumeralChar(c: char) {
    '0' <= c <= '9' || c == '-' || c == '+' || c == '.' || c == 'e' || c == 'E'
  }

  predicate IsDigit(c: char) {
    '0' <= c <= '9'
  }

  /** The number of section 6 of RFC 8259: integer part, fraction, exponent. */
  predicate IsNumeral(s: string) {
    var a := if s != "" && s[0] == '-' then s[1..] else s;
    var n := Run(IsDigit, a);
    0 < n && (n == 1 || a[0] != '0') && IsFraction(a[n..])
  }

  predicate IsFraction(s: string) {
    if s != "" && s[0] == '.' then
      var n := Run(IsDigit, s[1..]);
      0 < n && IsExponent(s[1..][n..])
    else IsExponent(s)
  }

  predicate IsExponent(s: string) {
    s == "" ||
    ((s[0] == 'e' || s[0] == 'E') &&
     var t := if 2 <= |s| && (s[1] == '+' || s[1] == '-') then s[2..] else s[1..];
     t != "" && Digits(t))
  }

  predicate NumeralText(s: string) {
    forall i :: 0 <= i < |s| ==> IsNumeralChar(s[i])
  }

  lemma DigitsText(s: string, n: nat)
    requires n <= |s| && forall i :: 0 <= i < n ==> IsDigit(s[i])
    ensures NumeralText(s[..n])
  {
  }

  lemma NumeralTextAppend(a: string, b: string)
    requires NumeralText(a) && NumeralText(b)
    ensures NumeralText(a + b)
  {
  }

  lemma UnsignedChars(a: string, n: nat)
    requires n <= |a| && IsFraction(a[n..]) && forall i :: 0 <= i < n ==> IsDigit(a[i])
    ensures NumeralText(a)
  {
    hide IsFraction;
    DigitsText(a, n);
    FractionChars(a[n..]);
    hide NumeralText;
    NumeralTextAppend(a[..n], a[n..]);
    assert a == a[..n] + a[n..];
  }

  lemma NumeralChars(s: string)
    requires IsNumeral(s)
    ensures s != "" && NumeralText(s)
  {
    hide Run, IsFraction, IsNumeralChar, NumeralText;
    var a := if s != "" && s[0] == '-' then s[1..] else s;
    UnsignedChars(a, Run(IsDigit, a));
    if s != a {
      Signs();
      NumeralTextAppend("-", a);
      assert s == "-" + a;
    }
  }

  lemma Signs()
    ensures NumeralText("-") && NumeralText(".")
  {
  }

  lemma FractionChars(s: string)
    requires IsFraction(s)
    ensures NumeralText(s)
  {
    if s != "" && s[0] == '.' {
      var a := s[1..];
      var n := Run(IsDigit, a);
      hide Run, IsExponent, IsNumeralChar, NumeralText;
      AfterPointChars(a, n);
      Signs();
      NumeralTextAppend(".", a);
      assert s == "." + a;
    } else {
      ExponentChars(s);
    }
  }

  lemma AfterPointChars(a: string, n: nat)
    requires n <= |a| && IsExponent(a[n..]) && forall i :: 0 <= i < n ==> IsDigit(a[i])
    ensures NumeralText(a)
  {
    hide IsExponent;
    DigitsText(a, n);
    ExponentChars(a[n..]);
    hide NumeralText;
    NumeralTextAppend(a[..n], a[n..]);
    assert a == a[..n] + a[n..];
  }

  lemma ExponentChars(s: string)
    requires IsExponent(s)
    ensures NumeralText(s)
  {
    if s != "" {
      var n := if 2 <= |s| && (s[1] == '+' || s[1] == '-') then 2 else 1;
      assert Digits(s[n..]);
      DigitsText(s[n..], |s| - n);
      assert s[n..][..|s| - n] == s[n..];
      NumeralTextAppend(s[..n], s[n..]);
      assert s == s[..n] + s[n..];
    }
  }

  /** The decimal text of a natural number is a numeral. */
  lemma DecimalNumeral(n: nat)
    ensures IsNumeral(Decimal(n))
  {
    var s := Decimal(n);
    RunIs(IsDigit, s, |s|);
    assert s[|s|..] == "";
    NoLeadingZero(n);
  }

  function NumeralOf(n: nat): (s: Numeral)
    ensures s == Decimal(n)
  {
    DecimalNumeral(n);
    Decimal(n)
  }

  type Numeral = s: string | IsNumeral(s) witness "0"

  datatype Doc =
    | DNull
    | DBool(b: bool)
    | DNum(n: Numeral)
    | DStr(s: string)
    | DArr(items: seq<Doc>)
    | DObj(fields: seq<Field>)

  datatype Field = Field(key: string, value: Doc)

  // Writing

  function HexDigit(n: nat): (c: char)
    requires n < 16
    ensures HexValue(c) == Some(n)
  {
    if n < 10 then (n + '0' as int) as char else (n - 10 + 'a' as int) as char
  }

  function HexValue(c: char): (r: Option<nat>)
    ensures r.Some? ==> r.value < 16
  {
    if '0' <= c <= '9' then Some(c as int - '0' as int)
    else if 'a' <= c <= 'f' then Some(c as int - 'a' as int + 10)
    else if 'A' <= c <= 'F' then Some(c as int - 'A' as int + 10)
    else None
  }

  function EscapeChar(c: char): string {
    if c == '"' then "\\\""
    else if c == '\\' then "\\\\"
    else if c == '\U{08}' then "\\b"
    else if c == '\U{0C}' then "\\f"
    else if c == '\n' then "\\n"
    else if c == '\r' then "\\r"
    else if c == '\t' then "\\t"
    else if c < ' ' then "\\u00" + [HexDigit(c as int / 16), HexDigit(c as int % 16)]
    else [c]
  }

  function Escape(s: string): string {
    if s == "" then "" else EscapeChar(s[0]) + Escape(s[1..])
  }

  function Quote(s: string): string {
    "\"" + Escape(s) + "\""
  }

  function Print(d: Doc): string {
    match d
    case DNull => "null"
    case DBool(b) => if b then "true" else "false"
    case DNum(n) => n
    case DStr(s) => Quote(s)
    case DArr(items) => "[" + PrintItems(items) + "]"
    case DObj(fields) => "{" + PrintFields(fields) + "}"
  }

  function PrintItems(items: seq<Doc>): string {
    if items == [] then ""
    else if |items| == 1 then Print(items[0])
    else Print(items[0]) + "," + PrintItems(items[1..])
  }

  function PrintField(f: Field): string {
    Quote(f.key) + ":" + Print(f.value)
  }

  function PrintFields(fields: seq<Field>): string {
    if fields == [] then ""
    else if |fields| == 1 then PrintField(fields[0])
    else PrintField(fields[0]) + "," + PrintFields(fields[1..])
  }

  // Reading

  datatype Parsed<+T> = Bad | Good(value: T, rest: string)

  /** The number of the four hexadecimal digits after the `u` that `s` starts with. */
  function HexCode(s: string): (r: Option<nat>)
    ensures r.Some? ==> 5 <= |s| && r.value < 0x10000
  {
    if 5 <= |s| && s[0] == 'u' && HexValue(s[1]).Some? && HexValue(s[2]).Some?
       && HexValue(s[3]).Some? && HexValue(s[4]).Some? then
      Some(HexValue(s[1]).value * 4096 + HexValue(s[2]).value * 256
           + HexValue(s[3]).value * 16 + HexValue(s[4]).value)
    else None
  }

  /** A code unit, or a surrogate pair; a surrogate on its own is no character. */
  function ReadCode(s: string): (r: Parsed<char>)
    ensures r.Good? ==> |r.rest| < |s|
  {
    var code := HexCode(s);
    if code.None? then Bad
    else if code.value < 0xD800 || 0xE000 <= code.value then Good(code.value as char, s[5..])
    else if 6 <= |s| && s[5] == '\\' && HexCode(s[6..]).Some? then
      var low := HexCode(s[6..]).value;
      if code.value < 0xDC00 && 0xDC00 <= low < 0xE000
      then Good((0x10000 + (code.value - 0xD800) * 0x400 + (low - 0xDC00)) as char, s[11..])
      else Bad
    else Bad
  }

  /** The character named by the escape that `s` starts with, `s` being the text after the backslash. */
  function ReadEscape(s: string): (r: Parsed<char>)
    ensures r.Good? ==> |r.rest| < |s|
  {
    if s == "" then Bad
    else if s[0] == '"' || s[0] == '\\' || s[0] == '/' then Good(s[0], s[1..])
    else if s[0] == 'b' then Good('\U{08}', s[1..])
    else if s[0] == 'f' then Good('\U{0C}', s[1..])
    else if s[0] == 'n' then Good('\n', s[1..])
    else if s[0] == 'r' then Good('\r', s[1..])
    else if s[0] == 't' then Good('\t', s[1..])
    else if s[0] == 'u' then ReadCode(s)
    else Bad
  }

  /** Reads up to the closing quote. */
  function ReadString(s: string): (r: Parsed<string>)
    ensures r.Good? ==> |r.rest| < |s|
    decreases |s|
  {
    if s == "" || s[0] < ' ' then Bad
    else if s[0] == '"' then Good("", s[1..])
    else if s[0] == '\\' then
      var e := ReadEscape(s[1..]);
      if e.Bad? then Bad else
      var t := ReadString(e.rest);
      if t.Bad? then Bad else Good([e.value] + t.value, t.rest)
    else
      var t := ReadString(s[1..]);
      if t.Bad? then Bad else Good([s[0]] + t.value, t.rest)
  }

  function ReadValue(s: string): (r: Parsed<Doc>)
    ensures r.Good? ==> |r.rest| < |s|
    decreases |s|, 0
  {
    if s == "" then Bad
    else if s[0] == '"' then
      var t := ReadString(s[1..]);
      if t.Bad? then Bad else Good(DStr(t.value), t.rest)
    else if s[0] == '[' then
      if 2 <= |s| && s[1] == ']' then Good(DArr([]), s[2..]) else
      var t := ReadItems(s[1..]);
      if t.Bad? then Bad else Good(DArr(t.value), t.rest)
    else if s[0] == '{' then
      if 2 <= |s| && s[1] == '}' then Good(DObj([]), s[2..]) else
      var t := ReadFields(s[1..]);
      if t.Bad? then Bad else Good(DObj(t.value), t.rest)
    else if IsNumeralChar(s[0]) then
      var n := Run(IsNumeralChar, s);
      if IsNumeral(s[..n]) then Good(DNum(s[..n]), s[n..]) else Bad
    else if "null" <= s then Good(DNull, s[4..])
    else if "true" <= s then Good(DBool(true), s[4..])
    else if "false" <= s then Good(DBool(false), s[5..])
    else Bad
  }

  function ReadItems(s: string): (r: Parsed<seq<Doc>>)
    ensures r.Good? ==> |r.rest| < |s|
    decreases |s|, 1
  {
    var v := ReadValue(s);
    if v.Bad? || v.rest == "" then Bad
    else if v.rest[0] == ']' then Good([v.value], v.rest[1..])
    else if v.rest[0] == ',' then
      var t := ReadItems(v.rest[1..]);
      if t.Bad? then Bad else Good([v.value] + t.value, t.rest)
    else Bad
  }

  function ReadFields(s: string): (r: Parsed<seq<Field>>)
    ensures r.Good? ==> |r.rest| < |s|
    decreases |s|, 1
  {
    if s == "" || s[0] != '"' then Bad else
    var k := ReadString(s[1..]);
    if k.Bad? || k.rest == "" || k.rest[0] != ':' then Bad else
    var v := ReadValue(k.rest[1..]);
    if v.Bad? || v.rest == "" then Bad
    else if v.rest[0] == '}' then Good([Field(k.value, v.value)], v.rest[1..])
    else if v.rest[0] == ',' then
      var t := ReadFields(v.rest[1..]);
      if t.Bad? then Bad else Good([Field(k.value, v.value)] + t.value, t.rest)
    else Bad
  }

  function Parse(s: string): Option<Doc> {
    var r := ReadValue(s);
    if r.Good? && r.rest == "" then Some(r.value) else None
  }

  /** The field of an object: of several with one key, the last. */
  function Lookup(fields: seq<Field>, key: string): Option<Doc> {
    if fields == [] then None
    else
      var later := Lookup(fields[1..], key);
      if later.Some? then later
      else if fields[0].key == key then Some(fields[0].value) else None
  }

  lemma LookupOne(f: Field, key: string)
    ensures Lookup([f], key) == if f.key == key then Some(f.value) else None
  {
  }

  lemma LookupCons(f: Field, rest: seq<Field>, key: string)
    ensures Lookup([f] + rest, key) ==
            if Lookup(rest, key).Some? then Lookup(rest, key) else if f.key == key then Some(f.value) else None
  {
    assert ([f] + rest)[1..] == rest;
  }

  lemma LookupTwo(f: Field, g: Field, key: string)
    ensures Lookup([f, g], key) ==
            if g.key == key then Some(g.value) else if f.key == key then Some(f.value) else None
  {
    hide Lookup;
    assert [f, g] == [f] + [g];
    LookupCons(f, [g], key);
    LookupOne(g, key);
  }

  // The reader undoes the writer

  lemma {:induction false} ReadEscapeChar(c: char, rest: string)
    requires c < ' ' || c == '"' || c == '\\'
    ensures EscapeChar(c)[0] == '\\' && ReadEscape((EscapeChar(c) + rest)[1..]) == Good(c, rest)
  {
    var e := EscapeChar(c);
    var t := (e + rest)[1..];
    if |e| == 2 {
      assert t == [e[1]] + rest;
      assert t[1..] == rest;
    } else {
      assert |e| == 6;
      assert t == e[1..] + rest;
      assert t[5..] == rest;
      var n := c as int;
      assert HexValue(t[1]) == Some(0) && HexValue(t[2]) == Some(0);
      assert HexValue(t[3]) == Some(n / 16) && HexValue(t[4]) == Some(n % 16);
      assert n / 16 * 16 + n % 16 == n;
    }
  }

  lemma {:induction false} ReadEscaped(s: string, rest: string)
    ensures ReadString(Escape(s) + "\"" + rest) == Good(s, rest)
    decreases |s|
  {
    var text := Escape(s) + "\"" + rest;
    if s == "" {
      assert text == "\"" + rest;
      assert text[1..] == rest;
    } else {
      var tail := Escape(s[1..]) + "\"" + rest;
      assert text == EscapeChar(s[0]) + tail;
      ReadEscaped(s[1..], rest);
      if s[0] < ' ' || s[0] == '"' || s[0] == '\\' {
        ReadEscapeChar(s[0], tail);
      } else {
        assert text == [s[0]] + tail;
        assert text[1..] == tail;
      }
      assert s == [s[0]] + s[1..];
    }
  }

  lemma ReadQuoted(s: string, rest: string)
    ensures var t := Quote(s) + rest; t != "" && t[0] == '"' && ReadString(t[1..]) == Good(s, rest)
  {
    hide ReadString, Escape;
    ReadEscaped(s, rest);
    assert (Quote(s) + rest)[1..] == Escape(s) + "\"" + rest;
  }

  predicate EndsNumeral(rest: string) {
    rest == "" || !IsNumeralChar(rest[0])
  }

  lemma PrintStart(d: Doc)
    ensures Print(d) != "" && Print(d)[0] != ']'
  {
    if d.DNum? { NumeralChars(d.n); }
  }

  // One step of the reader each

  lemma ReadsString(t: string, s: string, rest: string)
    requires t != "" && t[0] == '"' && ReadString(t[1..]) == Good(s, rest)
    ensures ReadValue(t) == Good(DStr(s), rest)
  {
  }

  lemma ReadsArray(t: string, items: seq<Doc>, rest: string)
    requires 2 <= |t| && t[0] == '[' && t[1] != ']' && ReadItems(t[1..]) == Good(items, rest)
    ensures ReadValue(t) == Good(DArr(items), rest)
  {
  }

  lemma ReadsObject(t: string, fields: seq<Field>, rest: string)
    requires 2 <= |t| && t[0] == '{' && t[1] != '}' && ReadFields(t[1..]) == Good(fields, rest)
    ensures ReadValue(t) == Good(DObj(fields), rest)
  {
  }

  lemma ReadsNumeral(n: Numeral, rest: string)
    requires EndsNumeral(rest)
    ensures ReadValue(n + rest) == Good(DNum(n), rest)
  {
    hide IsNumeral;
    var t := n + rest;
    NumeralChars(n);
    RunIs(IsNumeralChar, t, |n|);
    assert t[..|n|] == n && t[|n|..] == rest;
    assert t[0] == n[0];
  }

  lemma ReadsAtom(d: Doc, rest: string)
    requires d.DNull? || d.DBool? || d == DArr([]) || d == DObj([])
    ensures ReadValue(Print(d) + rest) == Good(d, rest)
  {
    var t := Print(d) + rest;
    assert t[|Print(d)|..] == rest && t[0] == Print(d)[0] && t[1] == Print(d)[1];
  }

  lemma ReadsItem(t: string, v: Doc, after: string, more: Parsed<seq<Doc>>)
    requires ReadValue(t) == Good(v, after) && after != ""
    requires after[0] == ',' ==> ReadItems(after[1..]) == more && more.Good?
    ensures after[0] == ']' ==> ReadItems(t) == Good([v], after[1..])
    ensures after[0] == ',' ==> ReadItems(t) == Good([v] + more.value, more.rest)
  {
    hide ReadValue;
  }

  lemma ReadsField(t: string, f: Field, after: string, more: Parsed<seq<Field>>)
    requires FieldRead(t, f, after) && after != ""
    requires after[0] == ',' ==> ReadFields(after[1..]) == more && more.Good?
    ensures after[0] == '}' ==> ReadFields(t) == Good([f], after[1..])
    ensures after[0] == ',' ==> ReadFields(t) == Good([f] + more.value, more.rest)
  {
    hide ReadValue, ReadString;
  }

  /** `t` starts with field `f`, and `after` is what follows. */
  predicate FieldRead(t: string, f: Field, after: string) {
    && t != "" && t[0] == '"'
    && var k := ReadString(t[1..]);
       && k.Good? && k.value == f.key && k.rest != "" && k.rest[0] == ':'
       && ReadValue(k.rest[1..]) == Good(f.value, after)
  }

  lemma {:induction false} ReadPrinted(d: Doc, rest: string)
    requires EndsNumeral(rest)
    ensures ReadValue(Print(d) + rest) == Good(d, rest)
    decreases d
  {
    hide ReadValue, ReadItems, ReadFields, ReadString, Quote, IsNumeral, IsNumeralChar;
    var t := Print(d) + rest;
    match d {
      case DNull => ReadsAtom(d, rest);
      case DBool(_) => ReadsAtom(d, rest);
      case DNum(n) => ReadsNumeral(n, rest);
      case DStr(s) =>
        ReadQuoted(s, rest);
        ReadsString(t, s, rest);
      case DArr(items) =>
        if items == [] {
          ReadsAtom(d, rest);
        } else {
          ReadPrintedItems(items, rest);
          assert t[1..] == PrintItems(items) + "]" + rest;
          PrintItemsStart(items);
          ReadsArray(t, items, rest);
        }
      case DObj(fields) =>
        if fields == [] {
          ReadsAtom(d, rest);
        } else {
          ReadPrintedFields(fields, rest);
          assert t[1..] == PrintFields(fields) + "}" + rest;
          PrintFieldsStart(fields);
          ReadsObject(t, fields, rest);
        }
    }
  }

  lemma PrintItemsStart(items: seq<Doc>)
    requires items != []
    ensures PrintItems(items) != "" && PrintItems(items)[0] != ']'
  {
    PrintStart(items[0]);
  }

  lemma PrintFieldsStart(fields: seq<Field>)
    requires fields != []
    ensures PrintFields(fields) != "" && PrintFields(fields)[0] == '"'
  {
  }

  lemma Regroup(first: string, more: string, close: string, rest: string)
    ensures first + "," + more + close + rest == first + ("," + (more + close + rest))
  {
  }

  lemma {:induction false} ReadPrintedItems(items: seq<Doc>, rest: string)
    requires items != []
    ensures ReadItems(PrintItems(items) + "]" + rest) == Good(items, rest)
    decreases items
  {
    hide ReadValue, ReadItems, Print;
    var t := PrintItems(items) + "]" + rest;
    if |items| == 1 {
      var after := "]" + rest;
      ReadPrinted(items[0], after);
      assert t == Print(items[0]) + after && after[1..] == rest;
      ReadsItem(t, items[0], after, Bad);
      assert items == [items[0]];
    } else {
      var more := PrintItems(items[1..]) + "]" + rest;
      var after := "," + more;
      ReadPrinted(items[0], after);
      Regroup(Print(items[0]), PrintItems(items[1..]), "]", rest);
      assert t == Print(items[0]) + after && after[1..] == more;
      ReadPrintedItems(items[1..], rest);
      ReadsItem(t, items[0], after, Good(items[1..], rest));
      assert items == [items[0]] + items[1..];
    }
  }

  lemma {:induction false} ReadPrintedFields(fields: seq<Field>, rest: string)
    requires fields != []
    ensures ReadFields(PrintFields(fields) + "}" + rest) == Good(fields, rest)
    decreases fields
  {
    hide FieldRead, ReadFields, PrintField;
    var t := PrintFields(fields) + "}" + rest;
    if |fields| == 1 {
      var after := "}" + rest;
      ReadPrintedField(fields[0], after);
      assert t == PrintField(fields[0]) + after && after[1..] == rest;
      ReadsField(t, fields[0], after, Bad);
      assert fields == [fields[0]];
    } else {
      var more := PrintFields(fields[1..]) + "}" + rest;
      var after := "," + more;
      ReadPrintedField(fields[0], after);
      Regroup(PrintField(fields[0]), PrintFields(fields[1..]), "}", rest);
      assert t == PrintField(fields[0]) + after && after[1..] == more;
      ReadPrintedFields(fields[1..], rest);
      ReadsField(t, fields[0], after, Good(fields[1..], rest));
      assert fields == [fields[0]] + fields[1..];
    }
  }

  lemma {:induction false} ReadPrintedField(f: Field, rest: string)
    requires EndsNumeral(rest)
    ensures FieldRead(PrintField(f) + rest, f, rest)
    decreases f
  {
    hide ReadValue, ReadString, Quote, Print;
    var value := Print(f.value) + rest;
    var after := ":" + value;
    assert PrintField(f) + rest == Quote(f.key) + after && after[1..] == value;
    ReadQuoted(f.key, after);
    ReadPrinted(f.value, rest);
  }

  /** Reading back what was written gives the same document. */
  lemma ParsePrint(d: Doc)
    ensures Parse(Print(d)) == Some(d)
  {
    ReadPrinted(d, "");
    assert Print(d) + "" == Print(d);
  }

  /** So different documents never share a text. */
  lemma PrintInjective(a: Doc, b: Doc)
    requires Print(a) == Print(b)
    ensures a == b
  {
    ParsePrint(a);
    ParsePrint(b);
  }

  /** A text without quotes, backslashes and control characters is quoted as it stands. */
  lemma {:induction false} PlainText(s: string)
    requires forall i :: 0 <= i < |s| ==> ' ' <= s[i] && s[i] != '"' && s[i] != '\\'
    ensures Escape(s) == s
  {
    if s != "" { PlainText(s[1..]); }
  }

  // The text has no raw control character, so no newline

  ghost predicate NoControl(s: string) {
    forall i :: 0 <= i < |s| ==> ' ' <= s[i]
  }

  lemma {:induction false} EscapeNoControl(s: string)
    ensures NoControl(Escape(s))
  {
    if s != "" { EscapeNoControl(s[1..]); }
  }

  lemma {:induction false} PrintNoControl(d: Doc)
    ensures NoControl(Print(d))
    decreases d
  {
    hide IsNumeral, Escape;
    match d {
      case DNum(n) => NumeralChars(n);
      case DStr(s) => EscapeNoControl(s);
      case DArr(items) => PrintItemsNoControl(items);
      case DObj(fields) => PrintFieldsNoControl(fields);
      case _ =>
    }
  }

  lemma {:induction false} PrintItemsNoControl(items: seq<Doc>)
    ensures NoControl(PrintItems(items))
    decreases items
  {
    if items != [] {
      PrintNoControl(items[0]);
      PrintItemsNoControl(items[1..]);
    }
  }

  lemma {:induction false} PrintFieldsNoControl(fields: seq<Field>)
    ensures NoControl(PrintFields(fields))
    decreases fields
  {
    hide Escape, Print;
    if fields != [] {
      EscapeNoControl(fields[0].key);
      PrintNoControl(fields[0].value);
      assert NoControl(PrintField(fields[0]));
      hide PrintField;
      PrintFieldsNoControl(fields[1..]);
    }
  }
}
