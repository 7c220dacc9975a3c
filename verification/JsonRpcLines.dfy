/**
 * What the lines of the JSON-RPC link mean: `JSON.parse`, the message classifiers, and
 * the conversion of an error's message to a string, which can throw.
 */
module JsonRpcLines {
  import opened Text
  import opened Json
  import J = JsonRpc

  function IdOf(d: Doc): J.Id {
    if d.DNum? && Digits(d.n) && Decimal(NatOf(d.n)) == d.n then J.Number(NatOf(d.n)) else J.OtherId
  }

  /**
   * Converting the value to a string throws: an object with a `toString` of its own, which can
   * be no function, or an array that holds such an object at any depth.
   */
  predicate Unprintable(d: Doc) {
    match d
    case DObj(fields) => Lookup(fields, "toString").Some?
    case DArr(items) => exists i :: 0 <= i < |items| && Unprintable(items[i])
    case _ => false
  }

  /** Going down these indices, through arrays only, ends at an object with a `toString` of its own. */
  predicate LeadsToOwn(d: Doc, path: seq<nat>)
    decreases |path|
  {
    if path == [] then d.DObj? && exists i :: 0 <= i < |d.fields| && d.fields[i].key == "toString"
    else d.DArr? && path[0] < |d.items| && LeadsToOwn(d.items[path[0]], path[1..])
  }

  lemma {:induction false} UnprintableExactly(d: Doc)
    ensures Unprintable(d) <==> exists path :: LeadsToOwn(d, path)
    decreases d
  {
    match d {
      case DObj(fields) =>
        LookupFinds(fields, "toString");
        assert LeadsToOwn(d, []) <==> Unprintable(d);
      case DArr(items) =>
        forall i | 0 <= i < |items| ensures Unprintable(items[i]) <==> exists path :: LeadsToOwn(items[i], path) {
          UnprintableExactly(items[i]);
        }
        if i :| 0 <= i < |items| && Unprintable(items[i]) {
          var path :| LeadsToOwn(items[i], path);
          assert ([i] + path)[1..] == path;
          assert LeadsToOwn(d, [i] + path);
        }
      case _ =>
    }
  }

  lemma {:induction false} LookupFinds(fields: seq<Field>, key: string)
    ensures Lookup(fields, key).Some? <==> exists i :: 0 <= i < |fields| && fields[i].key == key
  {
    if fields != [] {
      LookupFinds(fields[1..], key);
      assert forall i :: 1 <= i < |fields| ==> fields[i] == fields[1..][i - 1];
      assert forall i :: 0 <= i < |fields[1..]| ==> fields[i + 1] == fields[1..][i];
    }
  }

  /** What `new Error(value)` takes for its message when it does not throw. */
  function MessageText(d: Doc): string {
    match d
    case DNull => "null"
    case DBool(b) => if b then "true" else "false"
    case DNum(n) => n
    case DStr(s) => s
    case DArr(items) => ItemsText(items)
    case DObj(_) => "[object Object]"
  }

  function ItemsText(items: seq<Doc>): string {
    if items == [] then "" else
    var first := if items[0].DNull? then "" else MessageText(items[0]);
    if |items| == 1 then first else first + "," + ItemsText(items[1..])
  }

  /** `new Error(error.message)` throws: `error` is null, or the message cannot be printed. */
  predicate UnreadableError(d: Doc) {
    d.DNull? || (d.DObj? && Lookup(d.fields, "message").Some? && Unprintable(Lookup(d.fields, "message").value))
  }

  function ErrorOf(d: Doc): J.ErrorField {
    if UnreadableError(d) then J.Unreadable
    else if d.DObj? && Lookup(d.fields, "message").Some?
    then J.ErrorMessage(MessageText(Lookup(d.fields, "message").value))
    else J.ErrorMessage("")
  }

  /** `JSON.parse` and the fields that the classifiers look at. */
  function ReadLine(line: string): J.Incoming {
    match Parse(line)
    case None => J.NotJson
    case Some(DObj(fields)) =>
      var id, result := Lookup(fields, "id"), Lookup(fields, "result");
      var error, name := Lookup(fields, "error"), Lookup(fields, "method");
      J.Message(if id.Some? then Some(IdOf(id.value)) else None, result,
                if error.Some? then Some(ErrorOf(error.value)) else None,
                if name.Some? && name.value.DStr? then Some(name.value.s) else None)
    case _ => J.NotAnObject
  }

  // The lines that lose a request

  /** No sentinel, and an object with an `error` that cannot be read, no `result`, and a pending number for `id`. */
  predicate LosesBy(c: J.Conn, line: string) {
    && !("risoluto:" <= line)
    && var d := Parse(line);
       && d.Some? && d.value.DObj?
       && var id, error := Lookup(d.value.fields, "id"), Lookup(d.value.fields, "error");
          && Lookup(d.value.fields, "result").None?
          && error.Some? && UnreadableError(error.value)
          && id.Some? && IdOf(id.value).Number? && IdOf(id.value).n in c.pending
  }

  /** A line loses a request, the throw escaping the data handler, if and only if it is of that form. */
  lemma LostByLine(c: J.Conn, line: string)
    requires J.Inv(c)
    ensures var d := J.HandleLine(ReadLine, c, line);
            && (d.dropped != c.dropped <==> LosesBy(c, line))
            && (d.crashed <==> c.crashed || LosesBy(c, line))
  {
    hide Parse, Lookup, IdOf, UnreadableError;
    var c' := c.(lines := c.lines + [line]);
    J.SameBooksInv(c, c');
    hide J.Inv;
    J.LostExactly(c', ReadLine(line));
  }

  function ErrorDoc(error: Doc): Doc {
    DObj([Field("id", DNum("1")), Field("error", error)])
  }

  /** Every error that cannot be read does it: the one request is neither pending nor ever settled. */
  lemma LostRequest(error: Doc)
    requires UnreadableError(error)
    ensures var c := J.HandleLine(ReadLine, J.Step(ReadLine, J.INITIAL, J.Request), Print(ErrorDoc(error)));
            J.Issued(c, 1) && c.pending == map[] && c.settled == [] && c.dropped == {1} && c.crashed
  {
    hide ReadLine, UnreadableError, Print, ErrorDoc, J.Step;
    NotSentinel(error);
    ReadErrorDoc(error);
    FirstRequest();
  }

  lemma NotSentinel(error: Doc)
    ensures !("risoluto:" <= Print(ErrorDoc(error)))
  {
    assert Print(ErrorDoc(error))[0] == '{' && "risoluto:"[0] == 'r';
  }

  lemma FirstRequest()
    ensures var c := J.Step(ReadLine, J.INITIAL, J.Request);
            c == J.INITIAL.(nextId := 2, nextTimer := 1, pending := map[1 := 0], live := map[0 := 1])
  {
    hide ReadLine;
  }

  lemma ReadErrorDoc(error: Doc)
    ensures ReadLine(Print(ErrorDoc(error)))
         == J.Message(Some(J.Number(1)), None, Some(ErrorOf(error)), None)
  {
    hide Print, Parse, UnreadableError, MessageText;
    ParsePrint(ErrorDoc(error));
    OneIsOne();
    hide Decimal, NatOf, Digits;
    hide Lookup, IdOf, ErrorOf;
    var id, e := Field("id", DNum("1")), Field("error", error);
    NamesDiffer();
    LookupTwo(id, e, "id");
    LookupTwo(id, e, "error");
    LookupTwo(id, e, "result");
    LookupTwo(id, e, "method");
  }

  lemma NamesDiffer()
    ensures "id" != "error" && "id" != "result" && "id" != "method" && "id" != "jsonrpc"
    ensures "error" != "result" && "error" != "method" && "result" != "jsonrpc"
  {
    assert "id"[0] == 'i' && "error"[0] == 'e' && "result"[0] == 'r' && "method"[0] == 'm' && "jsonrpc"[0] == 'j';
  }

  lemma OneIsOne()
    ensures IdOf(DNum("1")) == J.Number(1)
  {
    assert Decimal(1) == "1" && NatOf("1") == 1 by { NatOfDecimal(1); }
  }

  // Two such lines, as text

  const NULL_ERROR_LINE: string := "{\"id\":1,\"error\":null}"

  const TO_STRING_LINE: string := "{\"id\":1,\"error\":{\"message\":{\"toString\":0}}}"

  /** An error whose message has a member called `toString`. */
  const TO_STRING_ERROR: Doc := DObj([Field("message", DObj([Field("toString", DNum("0"))]))])

  lemma FieldText(key: string, value: Doc)
    requires forall i :: 0 <= i < |key| ==> ' ' <= key[i] && key[i] != '"' && key[i] != '\\'
    ensures PrintField(Field(key, value)) == "\"" + key + "\":" + Print(value)
  {
    PlainText(key);
    hide Escape, Print;
    assert "\"" + ":" == "\":";
  }

  lemma OneField(key: string, value: Doc)
    requires forall i :: 0 <= i < |key| ==> ' ' <= key[i] && key[i] != '"' && key[i] != '\\'
    ensures Print(DObj([Field(key, value)])) == "{" + ("\"" + key + "\":" + Print(value)) + "}"
  {
    FieldText(key, value);
    hide PrintField;
  }

  lemma TwoFields(f: Field, g: Field)
    ensures Print(DObj([f, g])) == "{" + (PrintField(f) + "," + PrintField(g)) + "}"
  {
    hide PrintField;
    assert [f, g][1..] == [g];
    assert PrintFields([g]) == PrintField(g);
  }

  lemma IdText()
    ensures PrintField(Field("id", DNum("1"))) == "\"id\":1"
  {
    assert Print(DNum("1")) == "1";
    hide Print, PrintField;
    FieldText("id", DNum("1"));
  }

  lemma ErrorText(error: Doc)
    ensures PrintField(Field("error", error)) == "\"error\":" + Print(error)
  {
    hide Print, PrintField;
    FieldText("error", error);
    assert "\"" + "error" + "\":" == "\"error\":";
  }

  lemma ErrorDocText(error: Doc)
    ensures Print(ErrorDoc(error)) == "{\"id\":1,\"error\":" + Print(error) + "}"
  {
    hide Print, PrintField;
    TwoFields(Field("id", DNum("1")), Field("error", error));
    IdText();
    ErrorText(error);
    hide ErrorDoc;
    Pieces(Print(error));
  }

  lemma Pieces(e: string)
    ensures "{" + ("\"id\":1" + "," + ("\"error\":" + e)) + "}" == "{\"id\":1,\"error\":" + e + "}"
  {
  }

  lemma InnerText()
    ensures "{" + ("\"" + "toString" + "\":" + "0") + "}" == "{\"toString\":0}"
  {
  }

  lemma OuterText(inner: string)
    ensures "{" + ("\"" + "message" + "\":" + inner) + "}" == "{\"message\":" + inner + "}"
  {
  }

  lemma NullErrorText()
    ensures Print(ErrorDoc(DNull)) == NULL_ERROR_LINE
  {
    ErrorDocText(DNull);
    assert Print(DNull) == "null";
    hide Print, ErrorDoc;
    NullErrorPieces();
  }

  lemma NullErrorPieces()
    ensures "{\"id\":1,\"error\":" + "null" + "}" == NULL_ERROR_LINE
  {
  }

  lemma InnerDocText()
    ensures Print(DObj([Field("toString", DNum("0"))])) == "{\"toString\":0}"
  {
    OneField("toString", DNum("0"));
    assert Print(DNum("0")) == "0";
    hide Print;
    InnerText();
  }

  lemma OuterDocText(inner: Doc)
    ensures Print(DObj([Field("message", inner)])) == "{\"message\":" + Print(inner) + "}"
  {
    OneField("message", inner);
    hide Print;
    OuterText(Print(inner));
  }

  lemma ToStringErrorText()
    ensures Print(ErrorDoc(TO_STRING_ERROR)) == TO_STRING_LINE
  {
    hide Print, ErrorDoc;
    ErrorDocText(TO_STRING_ERROR);
    OuterDocText(DObj([Field("toString", DNum("0"))]));
    InnerDocText();
    ToStringPieces();
  }

  lemma ToStringPieces()
    ensures "{\"id\":1,\"error\":" + ("{\"message\":" + "{\"toString\":0}" + "}") + "}" == TO_STRING_LINE
  {
  }

  /** The two lines are such: a null error, and a message with a member called `toString`. */
  lemma LostExamples()
    ensures NULL_ERROR_LINE == Print(ErrorDoc(DNull)) && UnreadableError(DNull)
    ensures TO_STRING_LINE == Print(ErrorDoc(TO_STRING_ERROR)) && UnreadableError(TO_STRING_ERROR)
  {
    LookupOne(Field("message", DObj([Field("toString", DNum("0"))])), "message");
    LookupOne(Field("toString", DNum("0")), "toString");
    hide Print, ErrorDoc, Lookup;
    NullErrorText();
    ToStringErrorText();
  }

  // A well-formed response settles its request

  function ResponseLine(id: nat, result: Doc): string {
    Print(DObj([Field("jsonrpc", DStr("2.0")), Field("id", DNum(NumeralOf(id))), Field("result", result)]))
  }

  lemma ReadResponse(id: nat, result: Doc)
    ensures var m := ReadLine(ResponseLine(id, result));
            m.Message? && m.id == Some(J.Number(id)) && m.result == Some(result)
  {
    hide Print, Parse, ErrorOf, NumeralOf;
    var version, i, r := Field("jsonrpc", DStr("2.0")), Field("id", DNum(NumeralOf(id))), Field("result", result);
    ParsePrint(DObj([version, i, r]));
    NatOfDecimal(id);
    hide Decimal, NatOf, Digits, Lookup;
    NamesDiffer();
    assert [version, i, r] == [version] + [i, r];
    LookupCons(version, [i, r], "id");
    LookupCons(version, [i, r], "result");
    LookupTwo(i, r, "id");
    LookupTwo(i, r, "result");
  }

  /** A success response to a pending request resolves that request with its result, and does nothing else. */
  lemma ResponseSettles(c: J.Conn, id: nat, result: Doc)
    requires id in c.pending
    ensures var line := ResponseLine(id, result);
            J.HandleLine(ReadLine, c, line) == J.Settle(c.(lines := c.lines + [line]), id, J.Resolved(result))
  {
    ReadResponse(id, result);
    assert ResponseLine(id, result)[0] == '{' && "risoluto:"[0] == 'r';
    hide ReadLine, ResponseLine;
  }

  // A well-formed error response rejects its request

  function ErrorResponseLine(id: nat, code: Numeral, message: string): string {
    var error := DObj([Field("code", DNum(code)), Field("message", DStr(message))]);
    Print(DObj([Field("jsonrpc", DStr("2.0")), Field("id", DNum(NumeralOf(id))), Field("error", error)]))
  }

  lemma ReadErrorResponse(id: nat, code: Numeral, message: string)
    ensures ReadLine(ErrorResponseLine(id, code, message))
         == J.Message(Some(J.Number(id)), None, Some(J.ErrorMessage(message)), None)
  {
    hide Print, Parse, NumeralOf, IsNumeral;
    var error := DObj([Field("code", DNum(code)), Field("message", DStr(message))]);
    var version, i, e := Field("jsonrpc", DStr("2.0")), Field("id", DNum(NumeralOf(id))), Field("error", error);
    ParsePrint(DObj([version, i, e]));
    NatOfDecimal(id);
    hide Decimal, NatOf, Digits, Lookup;
    ErrorFields(code, message);
    NamesDiffer();
    hide ErrorOf;
    assert [version, i, e] == [version] + [i, e];
    LookupThree(version, i, e, "id");
    LookupThree(version, i, e, "result");
    LookupThree(version, i, e, "error");
    LookupThree(version, i, e, "method");
  }

  lemma LookupThree(a: Field, b: Field, c: Field, key: string)
    ensures Lookup([a, b, c], key) ==
            if c.key == key then Some(c.value) else if b.key == key then Some(b.value)
            else if a.key == key then Some(a.value) else None
  {
    hide Lookup;
    assert [a, b, c] == [a] + [b, c];
    LookupCons(a, [b, c], key);
    LookupTwo(b, c, key);
  }

  lemma ErrorFields(code: Numeral, message: string)
    ensures ErrorOf(DObj([Field("code", DNum(code)), Field("message", DStr(message))])) == J.ErrorMessage(message)
  {
    hide Lookup, IsNumeral;
    LookupTwo(Field("code", DNum(code)), Field("message", DStr(message)), "message");
  }

  /** An error response to a pending request rejects it with its message, and takes its entry and timer down. */
  lemma ErrorRejects(c: J.Conn, id: nat, code: Numeral, message: string)
    requires J.Inv(c) && id in c.pending
    ensures var d := J.HandleLine(ReadLine, c, ErrorResponseLine(id, code, message));
            d.settled == c.settled + [(id, J.Rejected(message))] && J.Removed(c, d, id) && d.crashed == c.crashed
  {
    ReadErrorResponse(id, code, message);
    assert ErrorResponseLine(id, code, message)[0] == '{' && "risoluto:"[0] == 'r';
    hide ReadLine, ErrorResponseLine, J.Inv, J.HandleLine, J.Removed;
    J.ResponseSettlesRequest(ReadLine, c, ErrorResponseLine(id, code, message), id);
  }

  /** The message of an error, by what the response holds for it. */
  lemma MessageTexts(message: string, n: Numeral, items: seq<Doc>, fields: seq<Field>)
    ensures MessageText(DStr(message)) == message && MessageText(DNum(n)) == n
    ensures MessageText(DNull) == "null" && MessageText(DBool(true)) == "true" && MessageText(DBool(false)) == "false"
    ensures MessageText(DObj(fields)) == "[object Object]"
    ensures MessageText(DArr([])) == ""
    ensures items != [] ==>
              MessageText(DArr([DStr(message)] + items)) == message + "," + MessageText(DArr(items))
              && MessageText(DArr([DNull] + items)) == "," + MessageText(DArr(items))
    ensures MessageText(DArr([DStr(message)])) == message && MessageText(DArr([DNull])) == ""
  {
    assert ([DStr(message)] + items)[1..] == items && ([DNull] + items)[1..] == items;
  }

  /** An error that is no object, or has no message, gives an empty one. */
  lemma NoMessage(error: Doc)
    requires !error.DNull? && (error.DObj? ==> Lookup(error.fields, "message").None?)
    ensures ErrorOf(error) == J.ErrorMessage("")
  {
  }

  function RequestLine(id: Doc, rpc: string, params: Doc): string {
    Print(DObj([Field("id", id), Field("method", DStr(rpc)), Field("params", params)]))
  }

  /** The agent's own requests are read with their method, whatever their id. */
  lemma ReadRequest(id: Doc, rpc: string, params: Doc)
    ensures ReadLine(RequestLine(id, rpc, params)) == J.Message(Some(IdOf(id)), None, None, Some(rpc))
  {
    hide Print, Parse, IdOf, ErrorOf;
    var i, m, p := Field("id", id), Field("method", DStr(rpc)), Field("params", params);
    ParsePrint(DObj([i, m, p]));
    hide Lookup;
    NamesDiffer();
    assert "params"[0] == 'p' && "id"[0] == 'i' && "result"[0] == 'r' && "error"[0] == 'e' && "method"[0] == 'm';
    LookupThree(i, m, p, "id");
    LookupThree(i, m, p, "result");
    LookupThree(i, m, p, "error");
    LookupThree(i, m, p, "method");
  }
}
