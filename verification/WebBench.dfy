/** webbench's build_request, and what the server's parser makes of the requests it builds. */
module WebBenches {
  import opened Optional
  import opened Buffers
  import opened Decimal
  import opened HttpMessages
  import R = HttpRoundTrip
  import A = HttpAnswers

  const MAX_URL: nat := 1500
  const MAXHOSTNAMELEN: nat := 64
  const TMP_SIZE: nat := 10
  const REQUEST_SIZE: nat := 2048

  // The last is not noticed by the program: host or port do not fit their arrays with a NUL
  // behind them, and it writes, or goes on to read, past the end of one.
  datatype Fault = NotAUrl | TooLong | NotHttp | NoSlash | Overrun

  // ----- the parts of a URL

  predicate DelimiterAt(s: string, i: nat) {
    i + 3 <= |s| && s[i] == ':' && s[i + 1] == '/' && s[i + 2] == '/'
  }

  // strstr(s, "://")
  function Delimiter(s: string): (p: Option<nat>)
    ensures p.Some? ==> DelimiterAt(s, p.value)
    ensures forall i: nat :: DelimiterAt(s, i) ==> p.Some? && p.value <= i
  {
    if |s| < 3 then None
    else if DelimiterAt(s, 0) then Some(0)
    else
      var p := Delimiter(s[1..]);
      assert forall i: nat :: DelimiterAt(s, i) ==> i > 0 && DelimiterAt(s[1..], i - 1);
      if p.None? then None else Some(p.value + 1)
  }

  function Lower(c: char): char {
    if 'A' <= c <= 'Z' then 'a' + (c - 'A') else c
  }

  // strncasecmp("http://", url, 7) == 0
  predicate StartsWithHttp(url: string) {
    |url| >= 7 && forall i :: 0 <= i < 7 ==> Lower(url[i]) == "http://"[i]
  }

  // What stands between the delimiter and the next slash, and what starts with that slash.
  function Authority(url: string): (a: string)
    requires Delimiter(url).Some?
    ensures '/' !in a
  {
    var tail := url[Delimiter(url).value + 3..];
    tail[..Find(tail, '/')]
  }

  function Path(url: string): (t: string)
    requires Delimiter(url).Some?
    ensures t != [] ==> t[0] == '/'
  {
    var tail := url[Delimiter(url).value + 3..];
    tail[Find(tail, '/')..]
  }

  function Host(url: string): (h: string)
    requires Delimiter(url).Some?
    ensures ':' !in h
  {
    var a := Authority(url);
    a[..Find(a, ':')]
  }

  // The text of the port, if there is one.
  function PortText(url: string): string
    requires Delimiter(url).Some?
  {
    var a := Authority(url);
    if ':' in a then a[Find(a, ':') + 1..] else []
  }

  predicate FitsArrays(url: string)
    requires Delimiter(url).Some?
  {
    |Host(url)| < MAXHOSTNAMELEN && |PortText(url)| < TMP_SIZE
  }

  // Why a URL is refused. The order is that of the checks.
  function Refusal(url: string, proxied: bool): Option<Fault> {
    var d := Delimiter(url);
    if d.None? then Some(NotAUrl)
    else if |url| > MAX_URL then Some(TooLong)
    else if !proxied && !StartsWithHttp(url) then Some(NotHttp)
    else if '/' !in url[d.value + 3..] then Some(NoSlash)
    else if !proxied && !FitsArrays(url) then Some(Overrun)
    else None
  }

  // http, in letters of either case
  lemma SchemeIs(url: string)
    ensures StartsWithHttp(url) <==>
      && |url| >= 7 && url[0] in {'h', 'H'} && url[1] in {'t', 'T'} && url[2] in {'t', 'T'} && url[3] in {'p', 'P'}
      && url[4..7] == "://"
  {
    if |url| >= 7 {
      assert forall c: char :: Lower(c) == 'h' <==> c in {'h', 'H'};
      assert forall c: char :: Lower(c) == 't' <==> c in {'t', 'T'};
      assert forall c: char :: Lower(c) == 'p' <==> c in {'p', 'P'};
      assert StartsWithHttp(url) <==>
        Lower(url[0]) == 'h' && Lower(url[1]) == 't' && Lower(url[2]) == 't' && Lower(url[3]) == 'p'
        && Lower(url[4]) == ':' && Lower(url[5]) == '/' && Lower(url[6]) == '/';
      assert url[4..7] == [url[4], url[5], url[6]];
    }
  }

  // The URLs that are refused, and those that are taken.
  lemma TakenAre(url: string, proxied: bool)
    ensures Refusal(url, proxied) == Some(NotAUrl) <==> forall i: nat :: !DelimiterAt(url, i)
    ensures Refusal(url, proxied) == Some(TooLong) <==> Delimiter(url).Some? && |url| > 1500
    ensures Refusal(url, proxied) == Some(NotHttp) <==>
      Delimiter(url).Some? && |url| <= 1500 && !proxied && !StartsWithHttp(url)
    ensures Refusal(url, proxied) == None <==>
      && Delimiter(url).Some? && |url| <= 1500 && '/' in url[Delimiter(url).value + 3..]
      && (proxied || (StartsWithHttp(url) && |Host(url)| <= 63 && |PortText(url)| <= 9))
  {
    hide Host, PortText, StartsWithHttp;
  }

  lemma PartsOfUrl(url: string)
    requires Delimiter(url).Some?
    ensures url == url[..Delimiter(url).value] + "://" + Authority(url) + Path(url)
  {
    hide Delimiter, DelimiterAt, Authority, Path;
    TailOfUrl(url);
    CutAt(url, Delimiter(url).value);
    Together(url[..Delimiter(url).value] + "://", Authority(url), Path(url));
  }

  lemma CutAt(s: string, d: nat)
    requires DelimiterAt(s, d)
    ensures d + 3 <= |s| && s == s[..d] + "://" + s[d + 3..]
  {
    assert s[d..d + 3] == "://" && s == s[..d] + s[d..d + 3] + s[d + 3..];
  }

  lemma Together(a: string, b: string, c: string)
    ensures a + (b + c) == a + b + c
  {
  }

  lemma TailOfUrl(url: string)
    requires Delimiter(url).Some?
    ensures Authority(url) + Path(url) == url[Delimiter(url).value + 3..]
  {
    hide Find, Delimiter;
  }

  lemma PartsOfAuthority(url: string)
    requires Delimiter(url).Some?
    ensures Authority(url) == Host(url) + if ':' in Authority(url) then [':'] + PortText(url) else []
  {
    hide Find, Delimiter, Authority;
    var a := Authority(url);
    var colon := Find(a, ':');
    if ':' in a {
      assert colon < |a| by {
        assert a[..|a|] == a;
      }
      assert a == a[..colon] + [a[colon]] + a[colon + 1..];
    } else {
      assert colon == |a|;
    }
  }

  // ----- what is asked for

  // The methods it has options for.
  type Kind = k: R.Kind | k == R.GET || k == R.HEAD || k == R.OPTIONS || k == R.TRACE
    witness R.GET

  datatype Options = Options(kind: Kind, minor: int, reload: bool, proxied: bool)

  // The least version each option needs.
  function Minor(o: Options): (m: int)
    ensures o.kind == R.HEAD ==> m >= 1
    ensures o.kind == R.OPTIONS || o.kind == R.TRACE ==> m >= 2
    ensures o.reload && o.proxied ==> m >= 1
    ensures m >= o.minor && (m > o.minor ==> m == 1 || m == 2)
  {
    var m1 := if o.reload && o.proxied && o.minor < 1 then 1 else o.minor;
    var m2 := if o.kind == R.HEAD && m1 < 1 then 1 else m1;
    if (o.kind == R.OPTIONS || o.kind == R.TRACE) && m2 < 2 then 2 else m2
  }

  // What the options ask of the version.
  predicate Allows(o: Options, m: int) {
    && (o.kind == R.HEAD ==> m >= 1)
    && (o.kind == R.OPTIONS || o.kind == R.TRACE ==> m >= 2)
    && (o.reload && o.proxied ==> m >= 1)
  }

  // The version used is the least they allow that is no less than the one asked for.
  lemma MinorIsLeast(o: Options)
    ensures Minor(o) >= o.minor && Allows(o, Minor(o))
    ensures forall m :: m >= o.minor && Allows(o, m) ==> Minor(o) <= m
  {
  }

  const AGENT_LINE := "User-Agent: WebBench 1.5\r\n"
  const PRAGMA_LINE := "Pragma: no-cache\r\n"
  const CONNECTION_LINE := "Connection: close\r\n"
  const AGENT := R.Field("User-Agent", "WebBench 1.5")
  const PRAGMA := R.Field("Pragma", "no-cache")
  const CONNECTION := R.Field("Connection", "close")

  function HostField(host: string): R.Field {
    R.Field("Host", host)
  }

  function Fields(o: Options, host: string): seq<R.Field> {
    [AGENT]
    + (if o.proxied then [] else [HostField(host)])
    + (if o.reload && o.proxied then [PRAGMA] else [])
    + (if Minor(o) > 1 then [CONNECTION] else [])
  }

  // Exactly these fields, by the options.
  lemma FieldsAre(o: Options, host: string)
    ensures R.Field("User-Agent", "WebBench 1.5") in Fields(o, host)
    ensures R.Field("Connection", "close") in Fields(o, host) <==> Minor(o) > 1
    ensures R.Field("Pragma", "no-cache") in Fields(o, host) <==> o.reload && o.proxied
    ensures R.Field("Host", host) in Fields(o, host) <==> !o.proxied
    ensures |Fields(o, host)| == 1 + (if Minor(o) > 1 then 1 else 0) + (if o.reload || !o.proxied then 1 else 0)
  {
    hide Minor;
    var fields := Fields(o, host);
    assert fields[0] == AGENT;
    if !o.proxied {
      assert fields[1] == HostField(host);
    } else if o.reload {
      assert fields[1] == PRAGMA;
    }
    if Minor(o) > 1 {
      assert fields[|fields| - 1] == CONNECTION;
    }
  }

  // The lines as the program spells them.
  lemma Spelled(host: string)
    ensures AGENT_LINE == R.PrintField(AGENT)
    ensures "Host: " + host + "\r\n" == R.PrintField(HostField(host))
    ensures PRAGMA_LINE == R.PrintField(PRAGMA)
    ensures CONNECTION_LINE == R.PrintField(CONNECTION)
  {
  }

  function Ordered(o: Options, url: string): R.Order
    requires Delimiter(url).Some?
  {
    R.Order(o.kind, if o.proxied then url else Path(url), Minor(o), Fields(o, Host(url)))
  }

  // ----- the program's globals, and the function that fills in the request

  // index(): the position of c, or none
  function Index(s: string, c: char): (p: Option<nat>)
    ensures p.Some? <==> c in s
    ensures p.Some? ==> p.value == Find(s, c) < |s|
  {
    var i := Find(s, c);
    if i == |s| then assert s[..i] == s; None else Some(i)
  }

  class WebBench {
    var kind: Kind
    var http10: int
    var forceReload: bool
    var proxyHost: Option<string>
    var proxyPort: int
    var host: string
    var request: string

    constructor (kind: Kind, http10: int, forceReload: bool, proxyHost: Option<string>)
      ensures Asked() == Options(kind, http10, forceReload, proxyHost.Some?)
    {
      this.kind, this.http10, this.forceReload, this.proxyHost := kind, http10, forceReload, proxyHost;
      proxyPort, host, request := 80, "", "";
    }

    function Asked(): Options
      reads this`kind, this`http10, this`forceReload, this`proxyHost
    {
      Options(kind, http10, forceReload, proxyHost.Some?)
    }

    // A refused URL ends the program.
    method BuildRequest(url: string) returns (fault: Option<Fault>)
      requires 0 <= http10 <= 2
      modifies this`http10, this`proxyPort, this`host, this`request
      ensures fault == Refusal(url, proxyHost.Some?)
      ensures http10 == Minor(old(Asked())) && Allows(old(Asked()), http10)
      ensures Allows(old(Asked()), old(http10)) ==> http10 == old(http10)
      ensures fault == None ==> request == R.Print(Ordered(old(Asked()), url))
      ensures fault == None && proxyHost == None ==> host == Host(url)
      ensures fault == None && proxyHost == None && ':' in Authority(url) ==>
        var port := Atoi(PortText(url));
        proxyPort == if port == 0 then 80 else port
      ensures fault == None && (proxyHost.Some? || ':' !in Authority(url)) ==> proxyPort == old(proxyPort)
    {
      hide Find, R.PrintFields, Authority, Host, PortText, Path, StartsWithHttp, Minor, Fields, R.KindText, R.VersionText;
      hide R.CRLF, Atoi, R.Print, Ordered, FitsArrays, Allows;
      ghost var asked := Asked();
      host, request := "", "";
      RaiseVersion();
      MinorIsLeast(asked);
      request := R.KindText(kind) + " ";
      var d := Delimiter(url);
      if d == None {
        return Some(NotAUrl);
      }
      if |url| > MAX_URL {
        return Some(TooLong);
      }
      if proxyHost == None {
        if !StartsWithHttp(url) {
          return Some(NotHttp);
        }
      }
      if Index(url[d.value + 3..], '/') == None {
        return Some(NoSlash);
      }
      var fits := AddTarget(url);
      if !fits {
        return Some(Overrun);
      }
      fault := None;
      AddVersion();
      AddFields(asked);
      FieldsWithProxy(asked, host, Host(url));
      OrderPrinted(asked, url);
    }

    // What is asked for, and from which host.
    method AddTarget(url: string) returns (fits: bool)
      requires Refusal(url, proxyHost.Some?) == None || Refusal(url, proxyHost.Some?) == Some(Overrun)
      requires host == ""
      modifies this`proxyPort, this`host, this`request
      ensures fits <==> Refusal(url, proxyHost.Some?) == None
      ensures fits ==> request == old(request) + if proxyHost.Some? then url else Path(url)
      ensures fits && proxyHost == None ==> host == Host(url)
      ensures fits && proxyHost == None && ':' in Authority(url) ==>
        var port := Atoi(PortText(url));
        proxyPort == if port == 0 then 80 else port
      ensures proxyHost.Some? || ':' !in Authority(url) ==> proxyPort == old(proxyPort)
    {
      hide Find, Authority, Host, PortText, Atoi, StartsWithHttp, FitsArrays;
      fits := true;
      if proxyHost == None {
        fits := FindHost(url);
        var tail := url[Delimiter(url).value + 3..];
        request := request + tail[Find(tail, '/')..];
      } else {
        request := request + url;
      }
    }

    // The version the options need.
    method RaiseVersion()
      requires 0 <= http10 <= 2
      modifies this`http10
      ensures http10 == Minor(old(Asked())) && 0 <= http10 <= 2
    {
      if forceReload && proxyHost != None && http10 < 1 {
        http10 := 1;
      }
      if kind == R.HEAD && http10 < 1 {
        http10 := 1;
      }
      if kind == R.OPTIONS && http10 < 2 {
        http10 := 2;
      }
      if kind == R.TRACE && http10 < 2 {
        http10 := 2;
      }
    }

    // The host and, if it is there, the port.
    method FindHost(url: string) returns (fits: bool)
      requires Delimiter(url).Some? && '/' in url[Delimiter(url).value + 3..] && host == ""
      modifies this`proxyPort, this`host
      ensures fits == FitsArrays(url)
      ensures fits ==> host == Host(url)
      ensures fits && ':' in Authority(url) ==>
        var port := Atoi(PortText(url));
        proxyPort == if port == 0 then 80 else port
      ensures ':' !in Authority(url) ==> proxyPort == old(proxyPort)
    {
      hide Find, Delimiter, Atoi;
      var tail := url[Delimiter(url).value + 3..];
      var slash, colon := Index(tail, '/'), Index(tail, ':');
      FindWithin(tail, '/', ':');
      if colon != None && colon.value < slash.value {
        host := tail[..colon.value];
        assert tail[..slash.value][..colon.value] == host;
        var tmp := tail[colon.value + 1..slash.value];
        assert tail[..slash.value][colon.value + 1..] == tmp;
        if |host| >= MAXHOSTNAMELEN || |tmp| >= TMP_SIZE {
          return false;
        }
        proxyPort := Atoi(tmp);
        if proxyPort == 0 {
          proxyPort := 80;
        }
      } else {
        host := tail[..slash.value];
        assert host[..|host|] == host;
        if |host| >= MAXHOSTNAMELEN {
          return false;
        }
      }
      fits := true;
    }

    method AddVersion()
      requires 0 <= http10 <= 2
      modifies this`request
      ensures request == old(request) + R.VersionText(http10) + R.CRLF
    {
      if http10 == 1 {
        request := request + " HTTP/1.0";
      } else if http10 == 2 {
        request := request + " HTTP/1.1";
      }
      request := request + "\r\n";
    }

    method AddFields(ghost o: Options)
      requires o.kind == kind && o.reload == forceReload && o.proxied == proxyHost.Some? && Minor(o) == http10
      modifies this`request
      ensures request == old(request) + if http10 > 0 then R.PrintFields(Fields(o, host)) + R.CRLF else ""
    {
      Spelled(host);
      hide R.PrintField, R.PrintFields, Minor, AGENT, PRAGMA, CONNECTION, HostField;
      hide AGENT_LINE, PRAGMA_LINE, CONNECTION_LINE;
      ghost var fields: seq<R.Field>, start := [], request;
      R.PrintFieldsNone();
      if http10 > 0 {
        fields := AddLine(AGENT_LINE, AGENT, fields, start);
      }
      if proxyHost == None && http10 > 0 {
        fields := AddLine("Host: " + host + "\r\n", HostField(host), fields, start);
      }
      if forceReload && proxyHost != None {
        fields := AddLine(PRAGMA_LINE, PRAGMA, fields, start);
      }
      if http10 > 1 {
        fields := AddLine(CONNECTION_LINE, CONNECTION, fields, start);
      }
      assert http10 > 0 ==> fields == Fields(o, host);
      if http10 > 0 {
        request := request + "\r\n";
      }
    }

    // strcat, of the line that field f is printed as
    method AddLine(line: string, ghost f: R.Field, ghost before: seq<R.Field>, ghost start: string)
      returns (ghost fields: seq<R.Field>)
      requires line == R.PrintField(f) && request == start + R.PrintFields(before)
      modifies this`request
      ensures fields == before + [f] && request == start + R.PrintFields(fields)
    {
      hide R.PrintField, R.PrintFields;
      fields := before + [f];
      R.PrintFieldsSnoc(before, f);
      request := request + line;
    }
  }

  lemma OrderPrinted(o: Options, url: string)
    requires Delimiter(url).Some?
    ensures R.Print(Ordered(o, url)) ==
      R.KindText(o.kind) + " " + (if o.proxied then url else Path(url)) + R.VersionText(Minor(o)) + R.CRLF
      + if Minor(o) > 0 then R.PrintFields(Fields(o, Host(url))) + R.CRLF else ""
  {
    hide Path, Host, Minor, Fields, Delimiter;
  }

  lemma FieldsWithProxy(o: Options, host: string, other: string)
    ensures o.proxied ==> Fields(o, host) == Fields(o, other)
  {
  }

  lemma FindWithin(s: string, c: char, d: char)
    requires c != d
    ensures var t := s[..Find(s, c)];
      if Find(s, d) < Find(s, c) then Find(t, d) == Find(s, d) && d in t else Find(t, d) == |t| && d !in t
  {
    if s != [] && s[0] != c && s[0] != d {
      FindWithin(s[1..], c, d);
      assert s[..Find(s, c)][1..] == s[1..][..Find(s[1..], c)];
    }
  }

  // Where host and port fit their arrays, the request fits its own, NUL included.
  lemma RequestFits(o: Options, url: string)
    requires 0 <= o.minor <= 2 && Refusal(url, o.proxied) == None
    ensures |R.Print(Ordered(o, url))| < REQUEST_SIZE
  {
    hide R.Print, R.PrintFields, R.KindText, R.VersionText, Ordered, Fields, Minor, Host, Path, Delimiter, Refusal, FitsArrays;
    SizesWhenTaken(o, url);
    OrderPrinted(o, url);
    TextsAreShort(o);
    FieldsFit(o, Host(url));
    PathFits(url);
  }

  lemma SizesWhenTaken(o: Options, url: string)
    requires Refusal(url, o.proxied) == None
    ensures Delimiter(url).Some? && |url| <= MAX_URL && (o.proxied || |Host(url)| < MAXHOSTNAMELEN)
  {
    hide Delimiter, Host, PortText, StartsWithHttp;
  }

  lemma TextsAreShort(o: Options)
    ensures |R.KindText(o.kind)| <= 7 && |R.VersionText(Minor(o))| <= 9
  {
    hide Minor;
  }

  lemma PathFits(url: string)
    requires Delimiter(url).Some?
    ensures |Path(url)| <= |url|
  {
    hide Find, Delimiter;
  }

  lemma FieldsFit(o: Options, host: string)
    requires o.proxied || |host| < MAXHOSTNAMELEN
    ensures |R.PrintFields(Fields(o, host))| <= 134
  {
    Spelled(host);
    var c := if Minor(o) > 1 then [CONNECTION] + [] else [];
    var p := if o.reload && o.proxied then [PRAGMA] + c else c;
    var h := if o.proxied then p else [HostField(host)] + p;
    assert Fields(o, host) == [AGENT] + h;
    hide R.PrintField, Minor, AGENT, PRAGMA, CONNECTION, HostField;
    FirstPrinted(AGENT, h);
    FirstPrinted(HostField(host), p);
    FirstPrinted(PRAGMA, c);
    FirstPrinted(CONNECTION, []);
    R.PrintFieldsNone();
    hide R.PrintFields;
    assert |R.PrintFields(c)| <= 19 && |R.PrintFields(p)| <= 37;
  }

  lemma FirstPrinted(f: R.Field, rest: seq<R.Field>)
    ensures R.PrintFields([f] + rest) == R.PrintField(f) + R.PrintFields(rest)
  {
    assert ([f] + rest)[1..] == rest;
  }

  // ----- and the server's parser

  // A URL that is taken, has no end of line in it, and no space in the part that is asked for.
  predicate Clean(o: Options, url: string) {
    Refusal(url, o.proxied) == None && R.NoBreak(url) && ' ' !in Ordered(o, url).target
  }

  lemma OrderedIsValid(o: Options, url: string)
    requires Clean(o, url)
    ensures R.ValidOrder(Ordered(o, url))
  {
    hide Find, Delimiter, R.NoBreak, Minor, R.ValidField, Fields, Host, Path;
    UrlPartsAreWhole(url);
    FieldsAreValid(o, Host(url));
  }

  lemma FieldsAreValid(o: Options, host: string)
    requires R.ValidField(HostField(host))
    ensures forall i :: 0 <= i < |Fields(o, host)| ==> R.ValidField(Fields(o, host)[i])
  {
    SpelledIsValid();
    hide R.ValidField, Minor, AGENT, PRAGMA, CONNECTION, HostField;
    forall f | f in Fields(o, host)
      ensures R.ValidField(f)
    {
      assert f == AGENT || f == HostField(host) || f == PRAGMA || f == CONNECTION;
    }
  }

  lemma SpelledIsValid()
    ensures R.ValidField(AGENT) && R.ValidField(PRAGMA) && R.ValidField(CONNECTION)
  {
  }

  lemma UrlPartsAreWhole(url: string)
    requires Delimiter(url).Some? && R.NoBreak(url)
    ensures R.NoBreak(Path(url)) && R.ValidField(HostField(Host(url)))
  {
    hide Find, Delimiter, Authority, Path, Host, PortText, R.NoBreak, R.ValidField, HostField;
    PartsOfUrl(url);
    PartsAreWhole(url[..Delimiter(url).value] + "://", Authority(url), Path(url));
    HostIsPrefix(url);
    PartsAreWhole([], Host(url), Authority(url)[|Host(url)|..]);
    HostFieldIsValid(Host(url));
  }

  lemma HostIsPrefix(url: string)
    requires Delimiter(url).Some?
    ensures |Host(url)| <= |Authority(url)|
    ensures Authority(url) == [] + Host(url) + Authority(url)[|Host(url)|..]
  {
    hide Find, Delimiter, Authority;
  }

  lemma PartsAreWhole(a: string, b: string, c: string)
    requires R.NoBreak(a + b + c)
    ensures R.NoBreak(b) && R.NoBreak(c)
  {
    hide R.NoBreak;
    NoBreakWithin(a, b, c);
    assert a + b + c == (a + b) + c + [];
    NoBreakWithin(a + b, c, []);
  }

  lemma HostFieldIsValid(host: string)
    ensures R.NoBreak(host) ==> R.ValidField(HostField(host))
  {
    hide R.NoBreak;
  }

  lemma NoBreakWithin(a: string, b: string, c: string)
    requires R.NoBreak(a + b + c)
    ensures R.NoBreak(b)
  {
    forall i | 0 <= i < |b| - 1
      ensures !(b[i] == '\r' && b[i + 1] == '\n')
    {
      assert (a + b + c)[|a| + i] == b[i] && (a + b + c)[|a| + i + 1] == b[i + 1];
    }
  }

  // What the server learns from a built request: exactly the fields that were put in it.
  function Headers(o: Options, host: string): map<string, string> {
    map["User-Agent" := "WebBench 1.5"]
    + (if o.proxied then map[] else map["Host" := Trim(host)])
    + (if o.reload && o.proxied then map["Pragma" := "no-cache"] else map[])
    + (if Minor(o) > 1 then map["Connection" := "close"] else map[])
  }

  lemma HeadersAre(o: Options, host: string)
    ensures R.AddAll(map[], Fields(o, host)) == Headers(o, host)
  {
    TrimSpelled();
    hide Trim, R.AddAll, Minor;
    var c := if Minor(o) > 1 then [CONNECTION] + [] else [];
    var p := if o.reload && o.proxied then [PRAGMA] + c else c;
    var h := if o.proxied then p else [HostField(host)] + p;
    assert Fields(o, host) == [AGENT] + h;
    var m1: map<string, string> := map["User-Agent" := "WebBench 1.5"];
    assert map[]["User-Agent" := "WebBench 1.5"] == m1;
    var m2 := if o.proxied then m1 else m1["Host" := Trim(host)];
    var m3 := if o.reload && o.proxied then m2["Pragma" := "no-cache"] else m2;
    var m4 := if Minor(o) > 1 then m3["Connection" := "close"] else m3;
    R.AddOne(map[], AGENT, h);
    R.AddOne(m1, HostField(host), p);
    R.AddOne(m2, PRAGMA, c);
    R.AddOne(m3, CONNECTION, []);
    R.AddNone(m4);
    assert R.AddAll(map[], Fields(o, host)) == m4;
  }

  lemma TrimSpelled()
    ensures Trim("WebBench 1.5") == "WebBench 1.5" && Trim("no-cache") == "no-cache" && Trim("close") == "close"
  {
  }

  // A built request is read back whole, up to what follows it, exactly when it is a GET or
  // HEAD with a version; then path and query are the target between them, and the headers
  // are the ones that were put in.
  lemma BuiltIsRead(o: Options, url: string, rest: string, time: int)
    requires 0 <= o.minor <= 2 && Clean(o, url)
    ensures var p := Parse(FRESH, R.Print(Ordered(o, url)) + rest, time);
      && p.ok == ((o.kind == R.GET || o.kind == R.HEAD) && Minor(o) > 0)
      && (p.ok ==>
        && p.context.state == GotAll && p.rest == rest
        && p.context.request.method_ == (if o.kind == R.HEAD then Head else Get)
        && p.context.request.version == (if Minor(o) == 1 then Http10 else Http11)
        && p.context.request.path + p.context.request.query == (if o.proxied then url else Path(url))
        && p.context.request.headers == Headers(o, Host(url)))
      && (!p.ok ==> p.rest == R.Print(Ordered(o, url)) + rest)
  {
    hide Parse, R.Print, Delimiter, Find, Headers, Fields, R.ValidOrder, Host, Path, R.AddAll, Minor, R.NoBreak, StartsWithHttp, FitsArrays;
    OrderedIsValid(o, url);
    R.PrintedOrder(Ordered(o, url), rest, time);
    R.TargetKept(Ordered(o, url), time);
    HeadersAre(o, Host(url));
  }

  datatype Build = Build(options: Options, url: string)

  predicate Readable(b: Build) {
    && 0 <= b.options.minor <= 2 && Clean(b.options, b.url)
    && (b.options.kind == R.GET || b.options.kind == R.HEAD) && Minor(b.options) > 0
  }

  function Orders(builds: seq<Build>): seq<R.Order>
    requires forall i :: 0 <= i < |builds| ==> Readable(builds[i])
  {
    if builds == [] then []
    else
      assert Readable(builds[0]);
      [Ordered(builds[0].options, builds[0].url)] + Orders(builds[1..])
  }

  // Any number of them one after the other are read back in order, with nothing left.
  lemma ManyAreRead(builds: seq<Build>, time: int)
    requires forall i :: 0 <= i < |builds| ==> Readable(builds[i])
    ensures R.ParseAll(R.PrintAll(Orders(builds)), time) ==
      (R.UnderstoodAll(Orders(builds), time), Parsed(true, FRESH, []))
    ensures |R.UnderstoodAll(Orders(builds), time)| == |builds|
  {
    hide R.ParseAll, R.PrintAll, R.UnderstoodAll, Ordered, Readable, R.ValidOrder;
    OrdersAreAccepted(builds);
    R.Pipelined(Orders(builds), time);
    OnePerOrder(Orders(builds), time);
  }

  lemma {:induction false} OnePerOrder(orders: seq<R.Order>, time: int)
    ensures |R.UnderstoodAll(orders, time)| == |orders|
  {
    if orders != [] {
      OnePerOrder(orders[1..], time);
    }
  }

  lemma {:induction false} OrdersAreAccepted(builds: seq<Build>)
    requires forall i :: 0 <= i < |builds| ==> Readable(builds[i])
    ensures |Orders(builds)| == |builds|
    ensures forall i :: 0 <= i < |builds| ==> R.ValidOrder(Orders(builds)[i]) && R.Accepted(Orders(builds)[i])
  {
    hide R.ValidOrder, R.Accepted, Ordered, Readable;
    if builds != [] {
      ReadableIsAccepted(builds[0]);
      OrdersAreAccepted(builds[1..]);
    }
  }

  lemma ReadableIsAccepted(b: Build)
    requires Readable(b)
    ensures R.ValidOrder(Ordered(b.options, b.url)) && R.Accepted(Ordered(b.options, b.url))
  {
    hide R.ValidOrder, Delimiter, Path, Host, Fields, Refusal;
    OrderedIsValid(b.options, b.url);
  }

  // Every one of them asks the server to close: with a Connection field, or by being an
  // HTTP/1.0 request without one.
  lemma BuiltCloses(b: Build, time: int)
    requires Readable(b)
    ensures A.AsksToClose(R.Understood(Ordered(b.options, b.url), time))
  {
    HeadersAre(b.options, Host(b.url));
    hide Delimiter, Find, Host, Path, Fields, Refusal, R.NoBreak, R.AddAll;
  }

  // So of any number of them on one connection, in any pieces, the first is answered and no
  // other, unless the server's callback takes the close back.
  lemma OnlyOneIsAnswered(builds: seq<Build>, pieces: seq<string>, time: int, callback: A.Callback)
    requires builds != [] && forall i :: 0 <= i < |builds| ==> Readable(builds[i])
    requires Join(pieces) == R.PrintAll(Orders(builds))
    requires forall r :: callback(r, true)
    ensures A.Replies(A.ACCEPTED, pieces, time, callback) ==
      [A.Answer(R.Understood(Ordered(builds[0].options, builds[0].url), time))]
  {
    hide Ordered, Readable, R.ValidOrder, R.Accepted, R.Understood, R.PrintAll, A.Replies, A.AsksToClose;
    OrdersAreAccepted(builds);
    BuiltCloses(builds[0], time);
    A.FirstCloses(Orders(builds), pieces, time, callback);
  }
}
