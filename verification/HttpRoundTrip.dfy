/** A printer for the requests the parser accepts, and the parser as its inverse. */
module HttpRoundTrip {
  import opened Optional
  import opened Buffers
  import opened Decimal
  import opened HttpMessages

  const CRLF: string := "\r\n"

  // The methods the parser knows, and two it does not.
  datatype Kind = GET | HEAD | POST | PUT | DELETE | OPTIONS | TRACE

  datatype Field = Field(name: string, value: string)

  // minor is 0 for a request without a version (HTTP/0.9), 1 for HTTP/1.0, 2 for HTTP/1.1.
  datatype Order = Order(kind: Kind, target: string, minor: int, fields: seq<Field>)

  function KindText(k: Kind): string {
    match k
    case GET => "GET"
    case HEAD => "HEAD"
    case POST => "POST"
    case PUT => "PUT"
    case DELETE => "DELETE"
    case OPTIONS => "OPTIONS"
    case TRACE => "TRACE"
  }

  function Meant(k: Kind): Method {
    match k
    case GET => Get
    case HEAD => Head
    case POST => Post
    case PUT => Put
    case DELETE => Delete
    case OPTIONS => Invalid
    case TRACE => Invalid
  }

  function VersionText(minor: int): string {
    if minor == 1 then " HTTP/1.0" else if minor == 2 then " HTTP/1.1" else ""
  }

  function PrintField(f: Field): string {
    f.name + ": " + f.value + CRLF
  }

  function PrintFields(fields: seq<Field>): string {
    if fields == [] then [] else PrintField(fields[0]) + PrintFields(fields[1..])
  }

  lemma PrintFieldsNone()
    ensures PrintFields([]) == []
  {
  }

  lemma {:induction false} PrintFieldsSnoc(fields: seq<Field>, f: Field)
    ensures PrintFields(fields + [f]) == PrintFields(fields) + PrintField(f)
  {
    hide PrintField;
    if fields == [] {
      assert [] + [f] == [f];
    } else {
      assert (fields + [f])[1..] == fields[1..] + [f];
      PrintFieldsSnoc(fields[1..], f);
    }
  }

  function Print(o: Order): string {
    KindText(o.kind) + " " + o.target + VersionText(o.minor) + CRLF
    + if o.minor > 0 then PrintFields(o.fields) + CRLF else ""
  }

  // ----- what can be printed

  predicate NoBreak(s: string) {
    forall i :: 0 <= i < |s| - 1 ==> !(s[i] == '\r' && s[i + 1] == '\n')
  }

  predicate ValidField(f: Field) {
    ':' !in f.name && '\r' !in f.name && NoBreak(f.value)
  }

  predicate ValidOrder(o: Order) {
    ' ' !in o.target && NoBreak(o.target) && forall i :: 0 <= i < |o.fields| ==> ValidField(o.fields[i])
  }

  // ----- and what is understood of it

  predicate Accepted(o: Order) {
    o.kind != OPTIONS && o.kind != TRACE && (o.minor == 1 || o.minor == 2)
  }

  function AddAll(headers: map<string, string>, fields: seq<Field>): map<string, string>
    decreases |fields|
  {
    if fields == [] then headers else AddAll(headers[fields[0].name := Trim(fields[0].value)], fields[1..])
  }

  lemma AddNone(headers: map<string, string>)
    ensures AddAll(headers, []) == headers
  {
  }

  lemma AddOne(headers: map<string, string>, f: Field, rest: seq<Field>)
    ensures AddAll(headers, [f] + rest) == AddAll(headers[f.name := Trim(f.value)], rest)
  {
    assert ([f] + rest)[1..] == rest;
  }

  function Understood(o: Order, time: int): Request {
    var q := Find(o.target, '?');
    Request(Meant(o.kind), if o.minor == 1 then Http10 else Http11,
            o.target[..q], o.target[q..], time, AddAll(map[], o.fields))
  }

  // ----- lines

  lemma {:induction false} SearchLine(line: string, rest: string)
    requires NoBreak(line)
    ensures Search(line + CRLF + rest) == Some(|line|)
  {
    var t := line + CRLF + rest;
    if line != [] {
      assert t[0] == line[0] && t[1] == (line + CRLF)[1];
      assert t[1..] == line[1..] + CRLF + rest;
      SearchLine(line[1..], rest);
    }
  }

  lemma {:induction false} FindNowhere(a: string, c: char)
    requires c !in a
    ensures Find(a, c) == |a|
  {
    if a != [] {
      FindNowhere(a[1..], c);
    }
  }

  lemma FieldLine(f: Field)
    requires ValidField(f)
    ensures var line := f.name + ": " + f.value;
      && NoBreak(line) && Find(line, ':') == |f.name|
      && line[..|f.name|] == f.name && Trim(line[|f.name| + 1..]) == Trim(f.value)
  {
    FieldLineWhole(f);
    hide NoBreak, Find, SkipSpaceBack;
    var line := f.name + ": " + f.value;
    assert line == f.name + [':'] + (" " + f.value);
    FindBehind(f.name, ':', " " + f.value);
    assert line[|f.name| + 1..] == " " + f.value;
    assert (" " + f.value)[1..] == f.value;
  }

  lemma FieldLineWhole(f: Field)
    requires ValidField(f)
    ensures NoBreak(f.name + ": " + f.value)
  {
    assert NoBreak(f.name) && NoBreak(": ");
    hide NoBreak;
    NoBreakJoin(f.name, ": ");
    NoBreakJoin(f.name + ": ", f.value);
  }

  lemma {:induction false} FieldsParse(r: Request, fields: seq<Field>, rest: string, time: int)
    requires forall i :: 0 <= i < |fields| ==> ValidField(fields[i])
    ensures Parse(Context(ExpectHeaders, r), PrintFields(fields) + CRLF + rest, time) ==
      Parsed(true, Context(GotAll, r.(headers := AddAll(r.headers, fields))), rest)
    decreases |fields|
  {
    hide Search, Find, Trim, ValidField;
    var t := PrintFields(fields) + CRLF + rest;
    if fields == [] {
      assert t == [] + CRLF + rest;
      SearchLine([], rest);
      FindNowhere([], ':');
      assert t[..0] == [] && t[2..] == rest;
    } else {
      var line := fields[0].name + ": " + fields[0].value;
      var tail := PrintFields(fields[1..]) + CRLF + rest;
      assert t == line + CRLF + tail;
      FieldLine(fields[0]);
      SearchLine(line, tail);
      assert t[..|line|] == line && t[|line| + 2..] == tail;
      FieldsParse(Header(r, line, |fields[0].name|), fields[1..], rest, time);
    }
  }

  function FirstLine(o: Order): string {
    KindText(o.kind) + " " + o.target + VersionText(o.minor)
  }

  lemma FirstLineWhole(o: Order)
    requires ValidOrder(o)
    ensures NoBreak(FirstLine(o))
  {
    SpelledWhole(o);
    hide NoBreak, KindText, VersionText;
    NoBreakJoin(KindText(o.kind) + " ", o.target);
    NoBreakJoin(KindText(o.kind) + " " + o.target, VersionText(o.minor));
  }

  lemma SpelledWhole(o: Order)
    ensures var k := KindText(o.kind) + " "; NoBreak(k) && k[|k| - 1] != '\r'
    ensures var v := VersionText(o.minor); NoBreak(v) && (v != [] ==> v[0] != '\n')
  {
  }

  // No end of line where neither part has one and none can straddle them.
  lemma NoBreakJoin(a: string, b: string)
    requires NoBreak(a) && NoBreak(b) && (a == [] || b == [] || a[|a| - 1] != '\r' || b[0] != '\n')
    ensures NoBreak(a + b)
  {
    forall i | 0 <= i < |a + b| - 1
      ensures !((a + b)[i] == '\r' && (a + b)[i + 1] == '\n')
    {
      if i < |a| - 1 {
        assert (a + b)[i] == a[i] && (a + b)[i + 1] == a[i + 1];
      } else if i >= |a| {
        assert (a + b)[i] == b[i - |a|] && (a + b)[i + 1] == b[i + 1 - |a|];
      }
    }
  }

  lemma KindsAndVersions(o: Order)
    ensures ' ' !in KindText(o.kind)
    ensures MethodOf(KindText(o.kind)) == Meant(o.kind)
    ensures Meant(o.kind) != Invalid ==> KindText(o.kind) == MethodName(Meant(o.kind))
    ensures Meant(o.kind) == Invalid <==> o.kind == OPTIONS || o.kind == TRACE
    ensures if o.minor == 1 then VersionText(o.minor) == [' '] + "HTTP/1.0"
      else if o.minor == 2 then VersionText(o.minor) == [' '] + "HTTP/1.1"
      else VersionText(o.minor) == []
    ensures VersionOf("HTTP/1.0") == Http10 && VersionOf("HTTP/1.1") == Http11
  {
    assert "HTTP/1.0"[7] == '0' && "HTTP/1.1"[7] == '1';
  }

  lemma SplitAfter(a: string, c: char, b: string)
    requires c !in a
    ensures var t := a + [c] + b;
      Find(t, c) == |a| < |t| && t[..|a|] == a && t[|a| + 1..] == b
  {
    FindBehind(a, c, b);
  }

  lemma ThreeParts(r: Request, k: string, target: string, version: string)
    requires ' ' !in k && ' ' !in target
    ensures RequestLine(r, k + [' '] + (target + [' '] + version)) ==
      var r1 := r.(method_ := MethodOf(k));
      var r2 := Target(r1, target);
      if MethodOf(k) == Invalid then (false, r1)
      else if VersionOf(version) == Unknown then (false, r2)
      else (true, r2.(version := VersionOf(version)))
  {
    hide Find, MethodOf, VersionOf, Target;
    var tail := target + [' '] + version;
    SplitAfter(k, ' ', tail);
    SplitAfter(target, ' ', version);
  }

  lemma TwoParts(r: Request, k: string, target: string)
    requires ' ' !in k && ' ' !in target
    ensures RequestLine(r, k + [' '] + target) == (false, r.(method_ := MethodOf(k)))
  {
    hide Find, MethodOf, VersionOf, Target;
    SplitAfter(k, ' ', target);
    FindNowhere(target, ' ');
  }

  lemma OnePart(r: Request, k: string)
    requires ' ' !in k
    ensures RequestLine(r, k) == (false, r)
  {
    hide Find;
    FindNowhere(k, ' ');
  }

  lemma LineOfParts(o: Order)
    ensures var k := KindText(o.kind);
      FirstLine(o) ==
        if o.minor == 1 then k + [' '] + (o.target + [' '] + "HTTP/1.0")
        else if o.minor == 2 then k + [' '] + (o.target + [' '] + "HTTP/1.1")
        else k + [' '] + o.target
  {
    KindsAndVersions(o);
    hide KindText, VersionText;
  }

  lemma TargetOfEmpty(r: Request, target: string)
    requires r.query == []
    ensures var q := Find(target, '?'); Target(r, target) == r.(path := target[..q], query := target[q..])
  {
    var q := Find(target, '?');
    assert q == |target| ==> target[..q] == target && target[q..] == [];
  }

  // The request line is taken apart as it was put together, or refused.
  lemma FirstLineParse(o: Order, time: int)
    requires ValidOrder(o)
    ensures var (ok, r) := RequestLine(EMPTY, FirstLine(o));
      ok == Accepted(o) && (ok ==> r.(receiveTime := time) == Understood(o, time).(headers := map[]))
  {
    KindsAndVersions(o);
    LineOfParts(o);
    hide Find, MethodOf, VersionOf, KindText, VersionText, RequestLine, FirstLine, Target;
    var k := KindText(o.kind);
    if o.minor == 1 || o.minor == 2 {
      ThreeParts(EMPTY, k, o.target, if o.minor == 1 then "HTTP/1.0" else "HTTP/1.1");
      TargetOfEmpty(EMPTY.(method_ := MethodOf(k)), o.target);
    } else {
      TwoParts(EMPTY, k, o.target);
    }
  }

  // What was printed is understood, the rest left alone; or refused, and nothing consumed.
  lemma PrintedOrder(o: Order, rest: string, time: int)
    requires ValidOrder(o)
    ensures var p := Parse(FRESH, Print(o) + rest, time);
      if Accepted(o) then p == Parsed(true, Context(GotAll, Understood(o, time)), rest)
      else !p.ok && p.rest == Print(o) + rest && p.context.state == ExpectRequestLine
  {
    hide RequestLine, Search, PrintFields, FirstLine, ValidField;
    var line := FirstLine(o);
    var tail := (if o.minor > 0 then PrintFields(o.fields) + CRLF else "") + rest;
    var t := Print(o) + rest;
    assert t == line + CRLF + tail by {
      PrintParts(o, rest);
    }
    FirstLineWhole(o);
    SearchLine(line, tail);
    assert t[..|line|] == line && t[|line| + 2..] == tail;
    FirstLineParse(o, time);
    if Accepted(o) {
      FieldsParse(RequestLine(EMPTY, line).1.(receiveTime := time), o.fields, rest, time);
      assert tail == PrintFields(o.fields) + CRLF + rest;
    }
  }

  lemma PrintParts(o: Order, rest: string)
    ensures Print(o) + rest == FirstLine(o) + CRLF + ((if o.minor > 0 then PrintFields(o.fields) + CRLF else "") + rest)
  {
  }

  // Path and query together are the target, and the query is what starts at its first '?'.
  lemma TargetKept(o: Order, time: int)
    ensures var r := Understood(o, time);
      r.path + r.query == o.target && '?' !in r.path && (r.query != [] ==> r.query[0] == '?')
  {
    assert o.target[..Find(o.target, '?')] + o.target[Find(o.target, '?')..] == o.target;
  }

  // A line without a colon ends the fields, whatever is on it.
  lemma LineEndsFields(r: Request, line: string, rest: string, time: int)
    requires NoBreak(line) && ':' !in line
    ensures Parse(Context(ExpectHeaders, r), line + CRLF + rest, time) == Parsed(true, Context(GotAll, r), rest)
  {
    hide Search, Find, NoBreak;
    SearchLine(line, rest);
    FindNowhere(line, ':');
    var t := line + CRLF + rest;
    assert t[..|line|] == line && t[|line| + 2..] == rest;
  }

  // The printed form, letter by letter.
  lemma AsWritten(target: string, name: string, value: string)
    ensures Print(Order(GET, target, 2, [Field(name, value)])) ==
      "GET " + target + " HTTP/1.1\r\n" + (name + ": " + value + "\r\n") + "\r\n"
  {
    hide PrintFields;
    PrintFieldsNone();
    PrintFieldsSnoc([], Field(name, value));
    var field := PrintField(Field(name, value));
    assert [] + [Field(name, value)] == [Field(name, value)] && [] + field == field;
    assert "GET" + " " == "GET " && " HTTP/1.1" + CRLF == " HTTP/1.1\r\n";
    Regroup("GET " + target, " HTTP/1.1", CRLF, field + CRLF);
    assert ("GET " + target + " HTTP/1.1\r\n") + (field + CRLF) == ("GET " + target + " HTTP/1.1\r\n") + field + CRLF;
  }

  lemma Regroup(a: string, b: string, c: string, d: string)
    ensures a + b + c + d == a + (b + c) + d
  {
  }

  // How the others begin, and HTTP/1.0 ends.
  lemma LinesAsWritten(target: string)
    ensures FirstLine(Order(HEAD, target, 1, [])) == "HEAD " + target + " HTTP/1.0"
    ensures FirstLine(Order(POST, target, 1, [])) == "POST " + target + " HTTP/1.0"
    ensures FirstLine(Order(PUT, target, 1, [])) == "PUT " + target + " HTTP/1.0"
    ensures FirstLine(Order(DELETE, target, 1, [])) == "DELETE " + target + " HTTP/1.0"
    ensures FirstLine(Order(OPTIONS, target, 2, [])) == "OPTIONS " + target + " HTTP/1.1"
    ensures FirstLine(Order(TRACE, target, 0, [])) == "TRACE " + target
  {
    assert "HEAD" + " " == "HEAD " && "POST" + " " == "POST " && "PUT" + " " == "PUT " && "DELETE" + " " == "DELETE ";
    assert "OPTIONS" + " " == "OPTIONS " && "TRACE" + " " == "TRACE " && "TRACE " + target + [] == "TRACE " + target;
  }

  // ----- requests one after the other, the context reset after each

  function ParseAll(bytes: string, time: int): (seq<Request>, Parsed)
    decreases |bytes|
  {
    var p := Parse(FRESH, bytes, time);
    if p.context.state == GotAll then
      var (requests, end) := ParseAll(p.rest, time);
      ([p.context.request] + requests, end)
    else ([], p)
  }

  function PrintAll(orders: seq<Order>): string {
    if orders == [] then [] else Print(orders[0]) + PrintAll(orders[1..])
  }

  function UnderstoodAll(orders: seq<Order>, time: int): seq<Request> {
    if orders == [] then [] else [Understood(orders[0], time)] + UnderstoodAll(orders[1..], time)
  }

  lemma {:induction false} Pipelined(orders: seq<Order>, time: int)
    requires forall i :: 0 <= i < |orders| ==> ValidOrder(orders[i]) && Accepted(orders[i])
    ensures ParseAll(PrintAll(orders), time) ==
      (UnderstoodAll(orders, time), Parsed(true, FRESH, []))
  {
    hide Print, Understood, ValidOrder, Parse;
    if orders == [] {
      NothingYet(time);
    } else {
      PrintedOrder(orders[0], PrintAll(orders[1..]), time);
      Pipelined(orders[1..], time);
    }
  }

  lemma NothingYet(time: int)
    ensures Parse(FRESH, [], time) == Parsed(true, FRESH, [])
  {
  }
}
