/**
 * Which texts the reader of `Json.dfy` reads, and as what: exactly the texts of the grammar of
 * RFC 8259, in its compact form.
 */
module JsonGrammar {
  import opened Text
  import opened Json

  // Strings

  const LOWER: string := "0123456789abcdef"
  const UPPER: string := "0123456789ABCDEF"

  ghost predicate HexOf(c: char, v: int) {
    0 <= v < 16 && (c == LOWER[v] || c == UPPER[v])
  }

  /** Four hexadecimal digits of either case. */
  ghost predicate CodeText(x: string, n: int) {
    |x| == 4 && exists a, b, c, d ::
                  HexOf(x[0], a) && HexOf(x[1], b) && HexOf(x[2], c) && HexOf(x[3], d)
                  && n == a * 4096 + b * 256 + c * 16 + d
  }

  /** A backslash, a `u` and four digits. */
  ghost predicate UnitText(x: string, n: int) {
    |x| == 6 && x[0] == '\\' && x[1] == 'u' && CodeText(x[2..], n)
  }

  ghost predicate PairText(x: string, c: char) {
    |x| == 12 && exists high, low ::
                   UnitText(x[..6], high) && UnitText(x[6..], low) && 0xD800 <= high < 0xDC00 <= low < 0xE000
                   && c as int == 0x10000 + (high - 0xD800) * 0x400 + (low - 0xDC00)
  }

  /** The ways to write a character: itself, a short escape, one code unit, a pair of surrogates. */
  ghost predicate SpellsChar(c: char, x: string) {
    || (x == [c] && ' ' <= c && c != '"' && c != '\\')
    || (x == ['\\', c] && (c == '"' || c == '\\' || c == '/'))
    || (x == "\\b" && c == '\U{08}') || (x == "\\f" && c == '\U{0C}') || (x == "\\n" && c == '\n')
    || (x == "\\r" && c == '\r') || (x == "\\t" && c == '\t')
    || UnitText(x, c as int)
    || PairText(x, c)
  }

  ghost predicate SpellsChars(s: string, b: string)
    decreases |s|
  {
    if s == "" then b == ""
    else exists x, y :: b == x + y && SpellsChar(s[0], x) && SpellsChars(s[1..], y)
  }

  ghost predicate SpellsString(s: string, t: string) {
    exists b :: t == "\"" + b + "\"" && SpellsChars(s, b)
  }

  // Values

  ghost predicate Spells(d: Doc, t: string)
    decreases d
  {
    match d
    case DNull => t == "null"
    case DBool(b) => t == if b then "true" else "false"
    case DNum(n) => t == n
    case DStr(s) => SpellsString(s, t)
    case DArr(items) => exists b :: t == "[" + b + "]" && SpellsItems(items, b)
    case DObj(fields) => exists b :: t == "{" + b + "}" && SpellsFields(fields, b)
  }

  ghost predicate SpellsItems(items: seq<Doc>, b: string)
    decreases items
  {
    if items == [] then b == ""
    else if |items| == 1 then Spells(items[0], b)
    else exists x, y :: b == x + "," + y && Spells(items[0], x) && SpellsItems(items[1..], y)
  }

  ghost predicate SpellsField(f: Field, x: string)
    decreases f
  {
    exists k, v :: x == k + ":" + v && SpellsString(f.key, k) && Spells(f.value, v)
  }

  ghost predicate SpellsFields(fields: seq<Field>, b: string)
    decreases fields
  {
    if fields == [] then b == ""
    else if |fields| == 1 then SpellsField(fields[0], b)
    else exists x, y :: b == x + "," + y && SpellsField(fields[0], x) && SpellsFields(fields[1..], y)
  }

  // Numbers

  ghost predicate SpellsExponent(s: string) {
    s == "" || exists e, sign, digits ::
                 s == e + sign + digits && (e == "e" || e == "E") && (sign == "" || sign == "+" || sign == "-")
                 && digits != "" && Digits(digits)
  }

  ghost predicate SpellsFraction(s: string) {
    s == "" || exists digits :: s == "." + digits && digits != "" && Digits(digits)
  }

  /** Sign, integer part without a leading zero, fraction, exponent. */
  ghost predicate SpellsNumber(s: string) {
    exists sign, whole, fraction, exponent ::
      && s == sign + whole + fraction + exponent
      && (sign == "" || sign == "-")
      && whole != "" && Digits(whole) && (whole == "0" || whole[0] != '0')
      && SpellsFraction(fraction) && SpellsExponent(exponent)
  }

  // Concatenations

  lemma Shift(a: string, b: string, c: string, d: string)
    ensures a + b + c + d == a + (b + c + d) == a + (b + (c + d))
  {
  }

  lemma Empty(a: string)
    ensures "" + a == a
  {
  }

  lemma Behind(a: string, b: string)
    ensures (a + b)[|a|..] == b && (a + b)[..|a|] == a
  {
  }

  // The reader of strings

  lemma HexIs(c: char, v: int)
    ensures HexOf(c, v) <==> HexValue(c) == Some(v)
  {
    assert LOWER == "0123456789" + "abcdef" && UPPER == "0123456789" + "ABCDEF";
  }

  lemma CodeIs(s: string, n: int)
    ensures HexCode(s) == Some(n) <==> 5 <= |s| && s[0] == 'u' && CodeText(s[1..5], n)
  {
    hide HexOf, HexValue;
    if 5 <= |s| {
      var x := s[1..5];
      assert x[0] == s[1] && x[1] == s[2] && x[2] == s[3] && x[3] == s[4];
      forall c, v ensures HexOf(c, v) <==> HexValue(c) == Some(v) { HexIs(c, v); }
      if HexCode(s) == Some(n) {
        assert HexOf(x[0], HexValue(x[0]).value) && HexOf(x[1], HexValue(x[1]).value);
        assert HexOf(x[2], HexValue(x[2]).value) && HexOf(x[3], HexValue(x[3]).value);
      }
    }
  }

  lemma UnitAt(s: string)
    requires HexCode(s).Some?
    ensures UnitText((['\\'] + s)[..6], HexCode(s).value)
  {
    CodeIs(s, HexCode(s).value);
    hide HexCode, CodeText;
    var x := (['\\'] + s)[..6];
    assert x[0] == '\\' && x[1] == s[0];
    assert x[2..] == s[1..5];
  }

  /** The text of an escape that was read. */
  lemma EscapeSound(s: string) returns (x: string)
    requires ReadEscape(s).Good?
    ensures ['\\'] + s == x + ReadEscape(s).rest && SpellsChar(ReadEscape(s).value, x)
  {
    hide HexCode, CodeText, UnitText;
    var r := ReadEscape(s);
    var t := ['\\'] + s;
    x := t[..|t| - |r.rest|];
    if s[0] == 'u' {
      UnitAt(s);
      if |x| != 6 {
        UnitAt(s[6..]);
        assert x[..6] == t[..6] && x[6..] == (['\\'] + s[6..])[..6];
        assert PairText(x, r.value);
      }
    } else {
      assert x == ['\\', s[0]];
    }
  }

  lemma EscapeComplete(c: char, x: string, rest: string)
    requires SpellsChar(c, x) && x[0] == '\\'
    ensures ReadEscape((x + rest)[1..]) == Good(c, rest)
  {
    hide HexCode, CodeText;
    var s := (x + rest)[1..];
    assert s == x[1..] + rest;
    if UnitText(x, c as int) {
      assert s[1..5] == x[2..] && s[5..] == rest;
      CodeIs(s, c as int);
    } else if PairText(x, c) {
      var high, low :| UnitText(x[..6], high) && UnitText(x[6..], low) && 0xD800 <= high < 0xDC00 <= low < 0xE000
                       && c as int == 0x10000 + (high - 0xD800) * 0x400 + (low - 0xDC00);
      assert s[1..5] == x[..6][2..] && s[6..][1..5] == x[6..][2..] && s[11..] == rest;
      CodeIs(s, high);
      CodeIs(s[6..], low);
    } else {
      assert s[1..] == rest;
    }
  }

  lemma {:induction false} StringSound(s: string) returns (b: string)
    requires ReadString(s).Good?
    ensures s == b + "\"" + ReadString(s).rest && SpellsChars(ReadString(s).value, b)
    decreases |s|
  {
    hide ReadEscape, SpellsChar;
    var r := ReadString(s);
    if s[0] == '"' {
      b := "";
      return;
    }
    var x, y: string;
    var c: char;
    if s[0] == '\\' {
      var e := ReadEscape(s[1..]);
      x := EscapeSound(s[1..]);
      y := StringSound(e.rest);
      assert s == ['\\'] + s[1..];
    } else {
      x := [s[0]];
      y := StringSound(s[1..]);
      PlainChar(s[0]);
      assert s == x + s[1..];
    }
    assert r.value[1..] == ReadString(s[|x|..]).value by { assert s[|x|..] == y + "\"" + r.rest; }
    b := x + y;
  }

  lemma PlainChar(c: char)
    requires ' ' <= c && c != '"' && c != '\\'
    ensures SpellsChar(c, [c])
  {
  }

  /** Only an escape starts with a backslash. */
  lemma CharStart(c: char, x: string)
    requires SpellsChar(c, x)
    ensures x != "" && ' ' <= x[0] && x[0] != '"'
    ensures x[0] != '\\' ==> x == [c]
  {
    hide CodeText;
  }

  lemma ReadsPlain(text: string, s: string, rest: string)
    requires text != "" && ' ' <= text[0] && text[0] != '"' && text[0] != '\\' && ReadString(text[1..]) == Good(s, rest)
    ensures ReadString(text) == Good([text[0]] + s, rest)
  {
  }

  lemma ReadsEscape(text: string, c: char, tail: string, s: string, rest: string)
    requires text != "" && text[0] == '\\'
    requires ReadEscape(text[1..]) == Good(c, tail) && ReadString(tail) == Good(s, rest)
    ensures ReadString(text) == Good([c] + s, rest)
  {
    hide ReadEscape;
  }

  lemma CharComplete(c: char, x: string, tail: string, s: string, rest: string)
    requires SpellsChar(c, x) && ReadString(tail) == Good(s, rest)
    ensures ReadString(x + tail) == Good([c] + s, rest)
  {
    CharStart(c, x);
    Behind(x, tail);
    hide ReadEscape, SpellsChar, ReadString;
    var text := x + tail;
    assert text[0] == x[0];
    if x[0] == '\\' {
      EscapeComplete(c, x, tail);
      ReadsEscape(text, c, tail, s, rest);
    } else {
      ReadsPlain(text, s, rest);
    }
  }

  lemma CharsSplit(s: string, b: string) returns (x: string, y: string)
    requires s != "" && SpellsChars(s, b)
    ensures b == x + y && SpellsChar(s[0], x) && SpellsChars(s[1..], y)
  {
    hide SpellsChar;
    x, y :| b == x + y && SpellsChar(s[0], x) && SpellsChars(s[1..], y);
  }

  lemma QuoteRead(rest: string)
    ensures ReadString("\"" + rest) == Good("", rest)
  {
    Behind("\"", rest);
  }

  lemma {:induction false} StringComplete(s: string, b: string, rest: string)
    requires SpellsChars(s, b)
    ensures ReadString(b + "\"" + rest) == Good(s, rest)
    decreases |s|
  {
    hide SpellsChar, ReadString;
    if s == "" {
      QuoteRead(rest);
      assert b + "\"" + rest == "\"" + rest;
    } else {
      var x, y := CharsSplit(s, b);
      hide SpellsChars;
      StringComplete(s[1..], y, rest);
      CharComplete(s[0], x, y + "\"" + rest, s[1..], rest);
      Shift(x, y, "\"", rest);
      assert s == [s[0]] + s[1..];
    }
  }

  // The reader of values

  lemma QuotedSound(s: string) returns (t: string)
    requires s != "" && s[0] == '"' && ReadString(s[1..]).Good?
    ensures s == t + ReadString(s[1..]).rest && SpellsString(ReadString(s[1..]).value, t)
  {
    hide ReadString, SpellsChars;
    var b := StringSound(s[1..]);
    t := "\"" + b + "\"";
    assert s == ['"'] + s[1..];
    assert s == "\"" + (b + "\"" + ReadString(s[1..]).rest);
  }

  lemma QuotedComplete(s: string, t: string, rest: string)
    requires SpellsString(s, t)
    ensures t != "" && t[0] == '"' && ReadString((t + rest)[1..]) == Good(s, rest)
  {
    hide ReadString, SpellsChars;
    var b :| t == "\"" + b + "\"" && SpellsChars(s, b);
    StringComplete(s, b, rest);
    assert (t + rest)[1..] == b + "\"" + rest;
  }

  /** A value that is no string, and no array or object with anything in it. */
  lemma AtomSound(s: string) returns (t: string)
    requires ReadValue(s).Good? && s[0] != '"'
    requires s[0] == '[' ==> 2 <= |s| && s[1] == ']'
    requires s[0] == '{' ==> 2 <= |s| && s[1] == '}'
    ensures s == t + ReadValue(s).rest && Spells(ReadValue(s).value, t)
  {
    hide ReadString, ReadItems, ReadFields, SpellsString, SpellsItems, SpellsFields, IsNumeral, IsNumeralChar;
    t := s[..|s| - |ReadValue(s).rest|];
    NothingSpelled();
    if s[0] == '[' {
      assert t == "[" + "" + "]";
    } else if s[0] == '{' {
      assert t == "{" + "" + "}";
    }
  }

  lemma NothingSpelled()
    ensures SpellsItems([], "") && SpellsFields([], "")
  {
  }

  lemma ArraySpelled(s: string, b: string)
    requires 2 <= |s| && s[0] == '[' && s[1] != ']' && ReadItems(s[1..]).Good?
    requires s[1..] == b + "]" + ReadItems(s[1..]).rest && SpellsItems(ReadItems(s[1..]).value, b)
    ensures s == "[" + b + "]" + ReadValue(s).rest && Spells(ReadValue(s).value, "[" + b + "]")
  {
    hide ReadItems, SpellsItems;
    assert s == ['['] + s[1..];
    assert s == "[" + (b + "]" + ReadItems(s[1..]).rest);
  }

  lemma ObjectSpelled(s: string, b: string)
    requires 2 <= |s| && s[0] == '{' && s[1] != '}' && ReadFields(s[1..]).Good?
    requires s[1..] == b + "}" + ReadFields(s[1..]).rest && SpellsFields(ReadFields(s[1..]).value, b)
    ensures s == "{" + b + "}" + ReadValue(s).rest && Spells(ReadValue(s).value, "{" + b + "}")
  {
    hide ReadFields, SpellsFields;
    assert s == ['{'] + s[1..];
    assert s == "{" + (b + "}" + ReadFields(s[1..]).rest);
  }

  lemma ContentsRead(s: string)
    requires ReadValue(s).Good?
    ensures s != "" && (s[0] == '"' ==> ReadString(s[1..]).Good? && ReadValue(s).rest == ReadString(s[1..]).rest
                                        && ReadValue(s).value == DStr(ReadString(s[1..]).value))
    ensures s[0] == '[' ==> 2 <= |s| && (s[1] != ']' ==> ReadItems(s[1..]).Good?)
    ensures s[0] == '{' ==> 2 <= |s| && (s[1] != '}' ==> ReadFields(s[1..]).Good?)
  {
  }

  lemma {:induction false} ValueSound(s: string) returns (t: string)
    requires ReadValue(s).Good?
    ensures s == t + ReadValue(s).rest && Spells(ReadValue(s).value, t)
    decreases |s|, 0
  {
    ContentsRead(s);
    hide ReadValue, ReadString, ReadItems, ReadFields, SpellsString, SpellsItems, SpellsFields;
    if s[0] == '"' {
      t := QuotedSound(s);
    } else if s[0] == '[' && s[1] != ']' {
      var b := ItemsSound(s[1..]);
      ArraySpelled(s, b);
      t := "[" + b + "]";
    } else if s[0] == '{' && s[1] != '}' {
      var b := FieldsSound(s[1..]);
      ObjectSpelled(s, b);
      t := "{" + b + "}";
    } else {
      t := AtomSound(s);
    }
  }

  lemma {:induction false} ItemsSound(s: string) returns (b: string)
    requires ReadItems(s).Good?
    ensures s == b + "]" + ReadItems(s).rest && SpellsItems(ReadItems(s).value, b)
    decreases |s|, 1
  {
    hide ReadValue, Spells;
    var v := ReadValue(s);
    var x := ValueSound(s);
    var after := v.rest[1..];
    assert v.rest == [v.rest[0]] + after;
    if v.rest[0] == ']' {
      b := x;
    } else {
      var y := ItemsSound(after);
      b := x + "," + y;
      assert s == x + ("," + (y + "]" + ReadItems(s).rest));
      assert ReadItems(s).value[1..] == ReadItems(after).value;
    }
  }

  lemma FieldsHead(s: string) returns (f: Field, after: string)
    requires ReadFields(s).Good?
    ensures FieldRead(s, f, after) && after != "" && (after[0] == '}' || after[0] == ',') && |after| < |s|
    ensures after[0] == '}' ==> ReadFields(s) == Good([f], after[1..])
    ensures after[0] == ',' ==> ReadFields(after[1..]).Good?
                                && var more := ReadFields(after[1..]);
                                   ReadFields(s) == Good([f] + more.value, more.rest)
  {
    hide ReadValue, ReadString;
    var k := ReadString(s[1..]);
    var v := ReadValue(k.rest[1..]);
    f, after := Field(k.value, v.value), v.rest;
  }

  lemma {:induction false} FieldSound(s: string, f: Field, after: string) returns (x: string)
    requires FieldRead(s, f, after)
    ensures s == x + after && SpellsField(f, x)
    decreases |s|, 0
  {
    hide ReadValue, ReadString, Spells, SpellsString;
    var k := ReadString(s[1..]);
    var key := QuotedSound(s);
    var value := ValueSound(k.rest[1..]);
    x := key + ":" + value;
    assert k.rest == ":" + k.rest[1..];
    assert s == key + (":" + (value + after)) == x + after;
  }

  lemma {:induction false} FieldsSound(s: string) returns (b: string)
    requires ReadFields(s).Good?
    ensures s == b + "}" + ReadFields(s).rest && SpellsFields(ReadFields(s).value, b)
    decreases |s|, 1
  {
    var f, after := FieldsHead(s);
    hide ReadFields, FieldRead, SpellsField, SpellsFields;
    var x := FieldSound(s, f, after);
    if after[0] == '}' {
      b := x;
      OneField(f, x);
      Closed(s, x, after);
    } else {
      var y := FieldsSound(after[1..]);
      b := x + "," + y;
      Continued(s, x, after, y, "}", ReadFields(s).rest);
      SeveralFields(after[1..]);
      MoreFields(f, x, ReadFields(after[1..]).value, y);
    }
  }

  lemma Closed(s: string, x: string, after: string)
    requires s == x + after && after != "" && after[0] == '}'
    ensures s == x + "}" + after[1..]
  {
  }

  lemma Continued(s: string, x: string, after: string, y: string, close: string, rest: string)
    requires s == x + after && after != "" && after[0] == ',' && after[1..] == y + close + rest
    ensures s == x + "," + y + close + rest
  {
    assert after == "," + after[1..];
    Regroup(x, y, close, rest);
  }

  lemma OneField(f: Field, x: string)
    requires SpellsField(f, x)
    ensures SpellsFields([f], x)
  {
    hide SpellsField;
  }

  lemma MoreFields(f: Field, x: string, fields: seq<Field>, y: string)
    requires SpellsField(f, x) && fields != [] && SpellsFields(fields, y)
    ensures SpellsFields([f] + fields, x + "," + y)
  {
    hide SpellsField;
    assert ([f] + fields)[1..] == fields;
  }

  lemma SeveralFields(s: string)
    requires ReadFields(s).Good?
    ensures ReadFields(s).value != []
  {
    hide ReadValue, ReadString;
  }

  lemma ValueStart(d: Doc, t: string)
    requires Spells(d, t)
    ensures t != "" && t[0] != ']'
  {
    hide SpellsChars, SpellsItems, SpellsFields, IsNumeral;
    if d.DNum? { NumeralChars(d.n); }
  }

  lemma ItemsStart(items: seq<Doc>, b: string)
    requires items != [] && SpellsItems(items, b)
    ensures b != "" && b[0] != ']'
  {
    hide Spells;
    if |items| == 1 {
      ValueStart(items[0], b);
    } else {
      var x, y :| b == x + "," + y && Spells(items[0], x) && SpellsItems(items[1..], y);
      ValueStart(items[0], x);
    }
  }

  lemma FieldStart(f: Field, x: string)
    requires SpellsField(f, x)
    ensures x != "" && x[0] == '"'
  {
    hide Spells, SpellsString;
    var k, v :| x == k + ":" + v && SpellsString(f.key, k) && Spells(f.value, v);
    QuotedComplete(f.key, k, "");
    assert k + "" == k;
  }

  lemma FieldsStart(fields: seq<Field>, b: string)
    requires fields != [] && SpellsFields(fields, b)
    ensures b != "" && b[0] == '"'
  {
    hide SpellsField;
    if |fields| == 1 {
      FieldStart(fields[0], b);
    } else {
      var x, y :| b == x + "," + y && SpellsField(fields[0], x) && SpellsFields(fields[1..], y);
      FieldStart(fields[0], x);
    }
  }

  lemma {:induction false} ValueComplete(d: Doc, t: string, rest: string)
    requires Spells(d, t) && EndsNumeral(rest)
    ensures ReadValue(t + rest) == Good(d, rest)
    decreases d
  {
    hide ReadValue, ReadString, ReadItems, ReadFields, SpellsString, SpellsItems, SpellsFields;
    hide IsNumeral, IsNumeralChar;
    match d {
      case DNull => ReadsAtom(d, rest);
      case DBool(_) => ReadsAtom(d, rest);
      case DNum(n) => ReadsNumeral(n, rest);
      case DStr(s) =>
        QuotedComplete(s, t, rest);
        ReadsString(t + rest, s, rest);
      case DArr(items) =>
        var b :| t == "[" + b + "]" && SpellsItems(items, b);
        if items == [] {
          EmptySpelled(b);
          ReadsAtom(d, rest);
        } else {
          ItemsComplete(items, b, rest);
          ItemsStart(items, b);
          assert (t + rest)[1..] == b + "]" + rest;
          ReadsArray(t + rest, items, rest);
        }
      case DObj(fields) =>
        var b :| t == "{" + b + "}" && SpellsFields(fields, b);
        if fields == [] {
          EmptySpelled(b);
          ReadsAtom(d, rest);
        } else {
          FieldsComplete(fields, b, rest);
          FieldsStart(fields, b);
          assert (t + rest)[1..] == b + "}" + rest;
          ReadsObject(t + rest, fields, rest);
        }
    }
  }

  lemma EmptySpelled(b: string)
    ensures SpellsItems([], b) || SpellsFields([], b) ==> b == ""
    ensures Print(DArr([])) == "[" + "" + "]" && Print(DObj([])) == "{" + "" + "}"
  {
  }

  lemma {:induction false} ItemsComplete(items: seq<Doc>, b: string, rest: string)
    requires items != [] && SpellsItems(items, b)
    ensures ReadItems(b + "]" + rest) == Good(items, rest)
    decreases items
  {
    hide ReadValue, ReadItems, Spells;
    var t := b + "]" + rest;
    if |items| == 1 {
      var after := "]" + rest;
      ValueComplete(items[0], b, after);
      assert t == b + after && after[1..] == rest;
      ReadsItem(t, items[0], after, Bad);
      assert items == [items[0]];
    } else {
      var x, y :| b == x + "," + y && Spells(items[0], x) && SpellsItems(items[1..], y);
      var more := y + "]" + rest;
      var after := "," + more;
      ValueComplete(items[0], x, after);
      Regroup(x, y, "]", rest);
      assert t == x + after && after[1..] == more;
      ItemsComplete(items[1..], y, rest);
      ReadsItem(t, items[0], after, Good(items[1..], rest));
      assert items == [items[0]] + items[1..];
    }
  }

  lemma {:induction false} FieldComplete(f: Field, x: string, rest: string)
    requires SpellsField(f, x) && EndsNumeral(rest)
    ensures FieldRead(x + rest, f, rest)
    decreases f
  {
    hide ReadValue, ReadString, Spells, SpellsString;
    var k, v :| x == k + ":" + v && SpellsString(f.key, k) && Spells(f.value, v);
    var after := ":" + (v + rest);
    QuotedComplete(f.key, k, after);
    ValueComplete(f.value, v, rest);
    assert x + rest == k + after && after[1..] == v + rest;
  }

  lemma {:induction false} FieldsComplete(fields: seq<Field>, b: string, rest: string)
    requires fields != [] && SpellsFields(fields, b)
    ensures ReadFields(b + "}" + rest) == Good(fields, rest)
    decreases fields
  {
    hide FieldRead, ReadFields, SpellsField;
    var t := b + "}" + rest;
    if |fields| == 1 {
      var after := "}" + rest;
      FieldComplete(fields[0], b, after);
      assert t == b + after && after[1..] == rest;
      ReadsField(t, fields[0], after, Bad);
      assert fields == [fields[0]];
    } else {
      var x, y :| b == x + "," + y && SpellsField(fields[0], x) && SpellsFields(fields[1..], y);
      var more := y + "}" + rest;
      var after := "," + more;
      FieldComplete(fields[0], x, after);
      Regroup(x, y, "}", rest);
      assert t == x + after && after[1..] == more;
      FieldsComplete(fields[1..], y, rest);
      ReadsField(t, fields[0], after, Good(fields[1..], rest));
      assert fields == [fields[0]] + fields[1..];
    }
  }

  /** A text is read as a document exactly if the grammar spells the document so. */
  lemma ParsesExactly(s: string, d: Doc)
    ensures Parse(s) == Some(d) <==> Spells(d, s)
  {
    hide ReadValue, Spells;
    if Parse(s) == Some(d) {
      var t := ValueSound(s);
      assert s == t;
    }
    if Spells(d, s) {
      ValueComplete(d, s, "");
      assert s + "" == s;
    }
  }

  /** A text spells one document at most. */
  lemma Unambiguous(a: Doc, b: Doc, s: string)
    requires Spells(a, s) && Spells(b, s)
    ensures a == b
  {
    hide Spells;
    ParsesExactly(s, a);
    ParsesExactly(s, b);
  }

  /** The writer's texts are of the grammar. */
  lemma PrintSpells(d: Doc)
    ensures Spells(d, Print(d))
  {
    hide Spells, Parse, Print;
    ParsePrint(d);
    ParsesExactly(Print(d), d);
  }

  /** Of the ways to write a character the writer takes the shortest. */
  lemma EscapeTexts(c: char)
    ensures ' ' <= c && c != '"' && c != '\\' ==> EscapeChar(c) == [c]
    ensures c == '"' || c == '\\' ==> EscapeChar(c) == ['\\', c]
    ensures EscapeChar('\n') == "\\n" && EscapeChar('\r') == "\\r" && EscapeChar('\t') == "\\t"
    ensures EscapeChar('\U{08}') == "\\b" && EscapeChar('\U{0C}') == "\\f"
  {
  }

  // Numerals

  lemma ExponentIs(s: string)
    ensures IsExponent(s) <==> SpellsExponent(s)
  {
    if s != "" && IsExponent(s) {
      var signed := 2 <= |s| && (s[1] == '+' || s[1] == '-');
      var sign := if signed then [s[1]] else "";
      var digits := if signed then s[2..] else s[1..];
      assert s == [s[0]] + sign + digits;
    }
    if s != "" && SpellsExponent(s) {
      var e, sign, digits :| s == e + sign + digits && (e == "e" || e == "E")
                             && (sign == "" || sign == "+" || sign == "-") && digits != "" && Digits(digits);
      assert s[1 + |sign|..] == digits;
    }
  }

  lemma FractionSound(s: string) returns (f: string, e: string)
    requires IsFraction(s)
    ensures s == f + e && SpellsFraction(f) && SpellsExponent(e)
  {
    hide IsExponent, SpellsExponent;
    if s != "" && s[0] == '.' {
      var n := Run(IsDigit, s[1..]);
      var digits := s[1..][..n];
      f, e := "." + digits, s[1..][n..];
      assert s == "." + s[1..] && s[1..] == digits + e;
      assert digits != "" && Digits(digits);
    } else {
      f, e := "", s;
    }
    ExponentIs(e);
  }

  lemma DottedFraction(digits: string, e: string)
    requires digits != "" && Digits(digits) && IsExponent(e) && (e != "" ==> !IsDigit(e[0]))
    ensures IsFraction("." + (digits + e))
  {
    DigitsThen(digits, e);
    Behind(".", digits + e);
    hide Run, IsExponent;
    assert ("." + (digits + e))[0] == '.';
  }

  lemma NoFraction(e: string)
    requires IsExponent(e) && (e != "" ==> e[0] != '.')
    ensures IsFraction(e)
  {
    hide IsExponent, Run;
  }

  lemma FractionText(f: string) returns (digits: string)
    requires SpellsFraction(f) && f != ""
    ensures f == "." + digits && digits != "" && Digits(digits)
  {
    digits :| f == "." + digits && digits != "" && Digits(digits);
  }

  lemma FractionComplete(f: string, e: string)
    requires SpellsFraction(f) && SpellsExponent(e)
    ensures IsFraction(f + e)
  {
    ExponentIs(e);
    ExponentStart(e);
    hide *;
    if f == "" {
      NoFraction(e);
      Empty(e);
    } else {
      var digits := FractionText(f);
      DottedFraction(digits, e);
      Shift("", ".", digits, e);
      Empty("." + (digits + e));
      Empty(".");
    }
  }

  /** The run of digits in front ends with them. */
  lemma DigitsThen(digits: string, rest: string)
    requires Digits(digits) && (rest != "" ==> !IsDigit(rest[0]))
    ensures Run(IsDigit, digits + rest) == |digits| && (digits + rest)[|digits|..] == rest
  {
    RunIs(IsDigit, digits + rest, |digits|);
  }

  lemma ExponentStart(s: string)
    requires SpellsExponent(s)
    ensures s != "" ==> s[0] == 'e' || s[0] == 'E'
  {
  }

  lemma FractionStart(f: string, e: string)
    requires SpellsFraction(f) && SpellsExponent(e)
    ensures f + e != "" ==> !IsDigit((f + e)[0])
  {
    hide SpellsExponent;
    ExponentStart(e);
  }

  lemma NumeralParts(s: string) returns (sign: string, whole: string, r: string)
    requires IsNumeral(s)
    ensures s == sign + (whole + r) && (sign == "" || sign == "-")
    ensures whole != "" && Digits(whole) && (|whole| == 1 || whole[0] != '0') && IsFraction(r)
  {
    hide IsFraction;
    sign := if s != "" && s[0] == '-' then "-" else "";
    var a := s[|sign|..];
    var n := Run(IsDigit, a);
    whole, r := a[..n], a[n..];
    assert a == whole + r;
    assert s == sign + a;
  }

  lemma OneDigit(whole: string)
    requires whole != "" && (|whole| == 1 || whole[0] != '0')
    ensures whole == "0" || whole[0] != '0'
  {
  }

  lemma NumeralSound(s: string)
    requires IsNumeral(s)
    ensures SpellsNumber(s)
  {
    var sign, whole, r := NumeralParts(s);
    var f, e := FractionSound(r);
    OneDigit(whole);
    hide IsNumeral, IsFraction, SpellsFraction, SpellsExponent, SpellsNumber;
    Shift(sign, whole, f, e);
    NumberIs(sign, whole, f, e);
  }

  lemma NumberIs(sign: string, whole: string, f: string, e: string)
    requires (sign == "" || sign == "-") && whole != "" && Digits(whole) && (whole == "0" || whole[0] != '0')
    requires SpellsFraction(f) && SpellsExponent(e)
    ensures SpellsNumber(sign + whole + f + e)
  {
    hide SpellsFraction, SpellsExponent;
  }

  lemma NumeralComplete(sign: string, whole: string, f: string, e: string)
    requires (sign == "" || sign == "-") && whole != "" && Digits(whole) && (whole == "0" || whole[0] != '0')
    requires SpellsFraction(f) && SpellsExponent(e)
    ensures IsNumeral(sign + whole + f + e)
  {
    FractionStart(f, e);
    FractionComplete(f, e);
    hide IsFraction, SpellsFraction, SpellsExponent, Run;
    var s, a := sign + whole + f + e, whole + (f + e);
    Shift(sign, whole, f, e);
    DigitsThen(whole, f + e);
    Behind(sign, a);
    assert s == sign + a && a[0] == whole[0] && IsDigit(whole[0]);
    Unsigned(sign, a);
  }

  lemma Unsigned(sign: string, a: string)
    requires (sign == "" || sign == "-") && a != "" && IsDigit(a[0])
    requires var n := Run(IsDigit, a); 0 < n && (n == 1 || a[0] != '0') && IsFraction(a[n..])
    ensures IsNumeral(sign + a)
  {
    hide IsFraction, Run;
    Behind(sign, a);
    if sign == "" { assert sign + a == a; }
  }

  /** A numeral is a number of the grammar. */
  lemma NumeralIs(s: string)
    ensures IsNumeral(s) <==> SpellsNumber(s)
  {
    hide IsNumeral, SpellsFraction, SpellsExponent;
    if IsNumeral(s) {
      NumeralSound(s);
    }
    if SpellsNumber(s) {
      var sign, whole, f, e :|
        && s == sign + whole + f + e && (sign == "" || sign == "-")
        && whole != "" && Digits(whole) && (whole == "0" || whole[0] != '0')
        && SpellsFraction(f) && SpellsExponent(e);
      NumeralComplete(sign, whole, f, e);
    }
  }
}
