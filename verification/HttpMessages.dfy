/** What the HTTP parser makes of bytes: the request line and header fields of RFC 7230,
    sections 3.1.1 and 3.2.4, as far as the server reads them. */
module HttpMessages {
  import opened Optional
  import opened Buffers
  import opened Decimal

  datatype Method = Invalid | Get | Post | Head | Put | Delete
  datatype Version = Unknown | Http10 | Http11
  datatype State = ExpectRequestLine | ExpectHeaders | ExpectBody | GotAll

  datatype Request = Request(method_: Method, version: Version, path: string, query: string,
                             receiveTime: int, headers: map<string, string>)

  const EMPTY := Request(Invalid, Unknown, "", "", 0, map[])

  datatype Context = Context(state: State, request: Request)

  const FRESH := Context(ExpectRequestLine, EMPTY)

  // Where the first c is, or the end.
  function Find(s: string, c: char): (i: nat)
    ensures i <= |s| && c !in s[..i] && (i < |s| ==> s[i] == c)
  {
    if s == [] || s[0] == c then 0 else 1 + Find(s[1..], c)
  }

  function MethodOf(m: string): Method {
    if m == "GET" then Get
    else if m == "POST" then Post
    else if m == "HEAD" then Head
    else if m == "PUT" then Put
    else if m == "DELETE" then Delete
    else Invalid
  }

  // methodString()
  function MethodName(m: Method): string {
    match m
    case Get => "GET"
    case Post => "POST"
    case Head => "HEAD"
    case Put => "PUT"
    case Delete => "DELETE"
    case Invalid => "UNKNOWN"
  }

  function VersionOf(v: string): Version {
    if v == "HTTP/1.1" then Http11 else if v == "HTTP/1.0" then Http10 else Unknown
  }

  // A method is the one it is named after, and no other string names one.
  lemma MethodsByName(s: string, m: Method)
    ensures m != Invalid ==> (MethodOf(s) == m <==> s == MethodName(m))
    ensures MethodOf("GET") == Get && MethodOf("POST") == Post && MethodOf("HEAD") == Head
    ensures MethodOf("PUT") == Put && MethodOf("DELETE") == Delete
    ensures MethodOf(s) == Invalid <==> s !in {"GET", "POST", "HEAD", "PUT", "DELETE"}
  {
  }

  lemma VersionsByName(v: string)
    ensures VersionOf(v) == Http11 <==> v == "HTTP/1.1"
    ensures VersionOf(v) == Http10 <==> v == "HTTP/1.0"
  {
  }

  // What a request line does to the request, and whether it is accepted. A rejected line
  // leaves behind what was set before the fault was seen.
  function RequestLine(r: Request, line: string): (bool, Request) {
    var space := Find(line, ' ');
    if space == |line| then (false, r)
    else
      var r1 := r.(method_ := MethodOf(line[..space]));
      if r1.method_ == Invalid then (false, r1)
      else
        var tail := line[space + 1..];
        var end := Find(tail, ' ');
        if end == |tail| then (false, r1)
        else
          var r2 := Target(r1, tail[..end]);
          var version := VersionOf(tail[end + 1..]);
          if version == Unknown then (false, r2) else (true, r2.(version := version))
  }

  // The query keeps its question mark.
  function Target(r: Request, target: string): (r': Request)
    ensures r'.path + (if '?' in target then r'.query else "") == target && '?' !in r'.path
    ensures if '?' in target then r'.query != "" && r'.query[0] == '?' else r'.query == r.query
    ensures r' == r.(path := r'.path, query := r'.query)
  {
    var question := Find(target, '?');
    if question < |target| then r.(path := target[..question], query := target[question..])
    else r.(path := target)
  }

  function SkipSpaceBack(s: string): (t: string)
    ensures t <= s
  {
    if s != [] && IsSpace(s[|s| - 1]) then SkipSpaceBack(s[..|s| - 1]) else s
  }

  function Trim(s: string): string {
    SkipSpaceBack(SkipSpace(s))
  }

  predicate Blank(s: string) {
    forall i :: 0 <= i < |s| ==> IsSpace(s[i])
  }

  predicate Bare(s: string) {
    s == [] || (!IsSpace(s[0]) && !IsSpace(s[|s| - 1]))
  }

  lemma {:induction false} SkipBlank(a: string, s: string)
    requires Blank(a) && (s == [] || !IsSpace(s[0]))
    ensures SkipSpace(a + s) == s
  {
    if a == [] {
      assert a + s == s;
    } else {
      assert (a + s)[1..] == a[1..] + s;
      SkipBlank(a[1..], s);
    }
  }

  lemma {:induction false} SkipBlankBack(s: string, b: string)
    requires Blank(b) && (s == [] || !IsSpace(s[|s| - 1]))
    ensures SkipSpaceBack(s + b) == s
  {
    if b == [] {
      assert s + b == s;
    } else {
      assert (s + b)[..|s + b| - 1] == s + b[..|b| - 1];
      SkipBlankBack(s, b[..|b| - 1]);
    }
  }

  // What Trim leaves is what lies between the white space at both ends,
  lemma TrimBetween(a: string, s: string, b: string)
    requires Blank(a) && Blank(b) && Bare(s)
    ensures Trim(a + s + b) == s
  {
    if s == [] {
      SkipBlank(a + b, []);
      assert a + s + b == a + b + [];
    } else {
      SkipBlank(a, s + b);
      assert a + s + b == a + (s + b);
      SkipBlankBack(s, b);
    }
  }

  // and every string is of that form.
  lemma {:induction false} TrimCuts(s: string) returns (a: string, b: string)
    ensures Blank(a) && Blank(b) && Bare(Trim(s)) && s == a + Trim(s) + b
  {
    var middle;
    a, middle, b := Cut(s);
    TrimBetween(a, middle, b);
  }

  lemma {:induction false} Cut(s: string) returns (a: string, middle: string, b: string)
    ensures Blank(a) && Blank(b) && Bare(middle) && s == a + middle + b
  {
    if s != [] && IsSpace(s[0]) {
      a, middle, b := Cut(s[1..]);
      a := [s[0]] + a;
    } else if s != [] && IsSpace(s[|s| - 1]) {
      a, middle, b := Cut(s[..|s| - 1]);
      b := b + [s[|s| - 1]];
      if middle == [] {
        a, b := a + b, [];
      }
    } else {
      a, middle, b := [], s, [];
    }
  }

  // A field line, given where its colon is. A later field of the same name wins.
  function Header(r: Request, line: string, colon: nat): Request
    requires colon < |line|
  {
    r.(headers := r.headers[line[..colon] := Trim(line[colon + 1..])])
  }

  // A field is kept under what stands before its first colon, with what lies between the
  // white space behind that; the other fields stay.
  lemma HeaderKept(r: Request, name: string, a: string, value: string, b: string)
    requires ':' !in name && Blank(a) && Blank(b) && Bare(value)
    ensures var line := name + ":" + (a + value + b);
      && Find(line, ':') == |name| < |line|
      && Header(r, line, |name|) == r.(headers := r.headers[name := value])
  {
    hide Trim, Blank, Bare;
    var line := name + ":" + (a + value + b);
    FindBehind(name, ':', a + value + b);
    TrimBetween(a, value, b);
    assert line[..|name|] == name && line[|name| + 1..] == a + value + b;
  }

  lemma {:induction false} FindBehind(a: string, c: char, b: string)
    requires c !in a
    ensures Find(a + [c] + b, c) == |a|
  {
    if a != [] {
      assert (a + [c] + b)[1..] == a[1..] + [c] + b;
      FindBehind(a[1..], c, b);
    }
  }

  datatype Parsed = Parsed(ok: bool, context: Context, rest: string)

  predicate Expecting(c: Context) {
    c.state == ExpectRequestLine || c.state == ExpectHeaders
  }

  // parseRequest on a buffer. In any other state its loop would not end.
  function Parse(c: Context, bytes: string, time: int): (p: Parsed)
    requires Expecting(c)
    ensures |p.rest| <= |bytes| && p.context.state != ExpectBody
    ensures p.context.state == GotAll ==> p.ok && |p.rest| < |bytes|
    ensures c.state == ExpectHeaders ==> p.ok && p.context.state != ExpectRequestLine
    decreases |bytes|
  {
    var crlf := Search(bytes);
    if crlf.None? then Parsed(true, c, bytes)
    else
      var line, rest := bytes[..crlf.value], bytes[crlf.value + 2..];
      if c.state == ExpectRequestLine then
        var (ok, r) := RequestLine(c.request, line);
        if ok then Parse(Context(ExpectHeaders, r.(receiveTime := time)), rest, time)
        else Parsed(false, c.(request := r), bytes)
      else
        var colon := Find(line, ':');
        if colon < |line| then Parse(c.(request := Header(c.request, line, colon)), rest, time)
        // with or without characters, a line that has no colon ends the headers
        else Parsed(true, c.(state := GotAll), rest)
  }

  // One turn of its loop.
  lemma ParseLine(c: Context, bytes: string, time: int)
    requires c.state == ExpectRequestLine
    ensures var crlf := Search(bytes);
      if crlf.None? then Parse(c, bytes, time) == Parsed(true, c, bytes)
      else
        var (ok, r) := RequestLine(c.request, bytes[..crlf.value]);
        Parse(c, bytes, time) ==
          if ok then Parse(Context(ExpectHeaders, r.(receiveTime := time)), bytes[crlf.value + 2..], time)
          else Parsed(false, c.(request := r), bytes)
  {
    hide Search, RequestLine;
  }

  lemma ParseField(c: Context, bytes: string, time: int)
    requires c.state == ExpectHeaders
    ensures var crlf := Search(bytes);
      if crlf.None? then Parse(c, bytes, time) == Parsed(true, c, bytes)
      else
        var line, rest := bytes[..crlf.value], bytes[crlf.value + 2..];
        var colon := Find(line, ':');
        Parse(c, bytes, time) ==
          if colon < |line| then Parse(c.(request := Header(c.request, line, colon)), rest, time)
          else Parsed(true, c.(state := GotAll), rest)
  {
    hide Search, Find, Header;
  }

  // ----- the bytes may come in pieces

  lemma {:induction false} SearchMore(a: string, b: string)
    requires Search(a).Some?
    ensures Search(a + b) == Search(a)
  {
    assert (a + b)[0] == a[0] && (a + b)[1] == a[1];
    if !(a[0] == '\r' && a[1] == '\n') {
      assert (a + b)[1..] == a[1..] + b;
      SearchMore(a[1..], b);
    }
  }

  // More bytes after an answer change nothing but what is left over; after none, the parser
  // goes on as if it had had them from the start. The time kept is that of the call in which
  // the request line was complete.
  lemma {:induction false} InPieces(c: Context, a: string, t: int, b: string, u: int)
    requires Expecting(c)
    ensures var p := Parse(c, a, t);
      if p.ok && Expecting(p.context) then
        Parse(p.context, p.rest + b, u) ==
        Parse(c, a + b, if c.state == ExpectRequestLine && p.context.state == ExpectHeaders then t else u)
      else Parse(c, a + b, t) == p.(rest := p.rest + b)
    decreases |a|
  {
    hide Search, RequestLine, Header, Find;
    var crlf := Search(a);
    if crlf.Some? {
      SearchMore(a, b);
      var line, rest := a[..crlf.value], a[crlf.value + 2..];
      assert (a + b)[..crlf.value] == line && (a + b)[crlf.value + 2..] == rest + b;
      if c.state == ExpectRequestLine {
        var (ok, r) := RequestLine(c.request, line);
        if ok {
          var c' := Context(ExpectHeaders, r.(receiveTime := t));
          InPieces(c', rest, t, b, u);
          TimeIsSet(c', rest + b, t, u);
        }
      } else if Find(line, ':') < |line| {
        InPieces(c.(request := Header(c.request, line, Find(line, ':'))), rest, t, b, u);
      }
    }
  }

  // After the request line the clock is not looked at.
  lemma {:induction false} TimeIsSet(c: Context, bytes: string, t: int, u: int)
    requires c.state == ExpectHeaders
    ensures Parse(c, bytes, t) == Parse(c, bytes, u)
    decreases |bytes|
  {
    hide Search, Header, Find;
    var crlf := Search(bytes);
    if crlf.Some? {
      var line := bytes[..crlf.value];
      if Find(line, ':') < |line| {
        TimeIsSet(c.(request := Header(c.request, line, Find(line, ':'))), bytes[crlf.value + 2..], t, u);
      }
    }
  }

  // Pieces given to the parser one by one until it has an answer.
  function Feed(c: Context, buffered: string, pieces: seq<string>, time: int): Parsed
    requires Expecting(c)
    decreases |pieces|
  {
    if pieces == [] then Parsed(true, c, buffered)
    else
      var p := Parse(c, buffered + pieces[0], time);
      if p.ok && Expecting(p.context) then Feed(p.context, p.rest, pieces[1..], time)
      else p.(rest := p.rest + Join(pieces[1..]))
  }

  function Join(pieces: seq<string>): string {
    if pieces == [] then [] else pieces[0] + Join(pieces[1..])
  }

  lemma {:induction false} AnyPieces(c: Context, pieces: seq<string>, time: int)
    requires Expecting(c) && pieces != []
    ensures Feed(c, [], pieces, time) == Parse(c, Join(pieces), time)
  {
    assert [] + pieces[0] == pieces[0];
    FeedOn(c, pieces[0], pieces[1..], time);
  }

  lemma {:induction false} FeedOn(c: Context, bytes: string, pieces: seq<string>, time: int)
    requires Expecting(c)
    ensures var p := Parse(c, bytes, time);
      Parse(c, bytes + Join(pieces), time) ==
      if p.ok && Expecting(p.context) then Feed(p.context, p.rest, pieces, time) else p.(rest := p.rest + Join(pieces))
    decreases |pieces|
  {
    hide Parse;
    var p := Parse(c, bytes, time);
    if pieces == [] {
      assert bytes + [] == bytes && p.rest + [] == p.rest;
    } else {
      var more, others := pieces[0], pieces[1..];
      assert bytes + Join(pieces) == (bytes + more) + Join(others);
      InPieces(c, bytes, time, more, time);
      if p.ok && Expecting(p.context) {
        FeedOn(p.context, p.rest + more, others, time);
        InPieces(c, bytes, time, Join(pieces), time);
        assert p.rest + Join(pieces) == (p.rest + more) + Join(others);
      } else {
        InPieces(c, bytes, time, Join(pieces), time);
      }
    }
  }
}
