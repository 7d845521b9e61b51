/** HttpRequest and HttpContext: the parser as it works, on a Buffer. */
module HttpContexts {
  import opened Optional
  import opened Buffers
  import opened Decimal
  import H = HttpMessages

  class HttpRequest {
    var method_: H.Method
    var version: H.Version
    var path: string
    var query: string
    var receiveTime: int
    var headers: map<string, string>

    function View(): H.Request
      reads this
    {
      H.Request(method_, version, path, query, receiveTime, headers)
    }

    constructor ()
      ensures View() == H.EMPTY
    {
      method_, version, path, query, receiveTime, headers := H.Invalid, H.Unknown, "", "", 0, map[];
    }

    // Only on a request whose method has not been set.
    method SetMethod(m: string) returns (known: bool)
      requires method_ == H.Invalid
      modifies this`method_
      ensures method_ == H.MethodOf(m) && known == (method_ != H.Invalid)
      ensures (method_ == H.Get <==> m == "GET") && (method_ == H.Post <==> m == "POST")
      ensures (method_ == H.Head <==> m == "HEAD") && (method_ == H.Put <==> m == "PUT")
      ensures method_ == H.Delete <==> m == "DELETE"
    {
      if m == "GET" {
        method_ := H.Get;
      } else if m == "POST" {
        method_ := H.Post;
      } else if m == "HEAD" {
        method_ := H.Head;
      } else if m == "PUT" {
        method_ := H.Put;
      } else if m == "DELETE" {
        method_ := H.Delete;
      } else {
        method_ := H.Invalid;
      }
      known := method_ != H.Invalid;
    }

    method MethodString() returns (result: string)
      ensures result == H.MethodName(method_)
      ensures method_ != H.Invalid ==> H.MethodOf(result) == method_
    {
      H.MethodsByName(H.MethodName(method_), method_);
      result := "UNKNOWN";
      match method_
      case Get => result := "GET";
      case Post => result := "POST";
      case Head => result := "HEAD";
      case Put => result := "PUT";
      case Delete => result := "DELETE";
      case Invalid =>
    }

    method AddHeader(line: string, colon: nat)
      requires colon < |line|
      modifies this`headers
      ensures View() == H.Header(old(View()), line, colon)
    {
      var field := line[..colon];
      var start := colon + 1;
      while start < |line| && IsSpace(line[start])
        invariant colon < start <= |line|
        invariant SkipSpace(line[start..]) == SkipSpace(line[colon + 1..])
      {
        assert line[start..][1..] == line[start + 1..];
        start := start + 1;
      }
      var value := line[start..];
      while value != [] && IsSpace(value[|value| - 1])
        invariant H.SkipSpaceBack(value) == H.SkipSpaceBack(line[start..])
        decreases |value|
      {
        value := value[..|value| - 1];
      }
      headers := headers[field := value];
    }

    method Swap(that: HttpRequest)
      modifies this, that
      ensures View() == old(that.View()) && that.View() == old(View())
    {
      method_, that.method_ := that.method_, method_;
      version, that.version := that.version, version;
      path, that.path := that.path, path;
      query, that.query := that.query, query;
      receiveTime, that.receiveTime := that.receiveTime, receiveTime;
      headers, that.headers := that.headers, headers;
    }
  }

  // std::find on part of a line
  method Find(s: string, first: nat, last: nat, c: char) returns (i: nat)
    requires first <= last <= |s|
    ensures i == first + H.Find(s[first..last], c)
  {
    i := first;
    while i < last && s[i] != c
      invariant first <= i <= last
      invariant i + H.Find(s[i..last], c) == first + H.Find(s[first..last], c)
    {
      assert s[i..last][1..] == s[i + 1..last];
      i := i + 1;
    }
  }

  class HttpContext {
    var state: H.State
    const request: HttpRequest

    ghost function View(): H.Context
      reads this, request
    {
      H.Context(state, request.View())
    }

    constructor ()
      ensures View() == H.FRESH && fresh(request)
    {
      state := H.ExpectRequestLine;
      request := new HttpRequest();
    }

    predicate GotAll()
      reads this
    {
      state == H.GotAll
    }

    method Reset()
      modifies this, request
      ensures View() == H.FRESH
    {
      state := H.ExpectRequestLine;
      var dummy := new HttpRequest();
      request.Swap(dummy);
    }

    method ProcessRequestLine(line: string) returns (succeed: bool)
      requires request.method_ == H.Invalid
      modifies request
      ensures (succeed, request.View()) == H.RequestLine(old(request.View()), line)
    {
      hide H.Find, H.Target, H.VersionOf, H.MethodOf;
      succeed := false;
      var space := Find(line, 0, |line|, ' ');
      assert line[0..|line|] == line;
      if space != |line| {
        var known := request.SetMethod(line[..space]);
        if known {
          var start := space + 1;
          ghost var tail := line[start..];
          space := Find(line, start, |line|, ' ');
          assert line[start..|line|] == tail;
          if space != |line| {
            assert line[start..space] == tail[..space - start];
            assert line[space + 1..] == tail[space - start + 1..];
            SetTarget(line, start, space);
            succeed := SetVersion(line, space + 1);
          }
        }
      }
    }

    // The part of it that sets path and query,
    method SetTarget(line: string, start: nat, end: nat)
      requires start <= end <= |line|
      modifies request`path, request`query
      ensures request.View() == H.Target(old(request.View()), line[start..end])
    {
      hide H.Find;
      var question := Find(line, start, end, '?');
      if question != end {
        request.path := line[start..question];
        request.query := line[question..end];
        assert request.path == line[start..end][..question - start];
        assert request.query == line[start..end][question - start..];
      } else {
        request.path := line[start..end];
      }
    }

    // and the part that looks at the version.
    method SetVersion(line: string, start: nat) returns (succeed: bool)
      requires start <= |line|
      modifies request`version
      ensures succeed == (H.VersionOf(line[start..]) != H.Unknown)
      ensures request.View() == old(request.View()).(version :=
          if succeed then H.VersionOf(line[start..]) else old(request.version))
    {
      ghost var v := line[start..];
      succeed := |line| - start == 8 && line[start..|line| - 1] == "HTTP/1.";
      if succeed {
        assert v == "HTTP/1." + [line[|line| - 1]];
        assert v[7] == line[|line| - 1];
        if line[|line| - 1] == '1' {
          request.version := H.Http11;
        } else if line[|line| - 1] == '0' {
          request.version := H.Http10;
        } else {
          succeed := false;
        }
      } else if |v| == 8 {
        assert v[..7] == line[start..|line| - 1];
        assert "HTTP/1.1"[..7] == "HTTP/1." && "HTTP/1.0"[..7] == "HTTP/1.";
      }
    }

    predicate Ready()
      reads this`state, request`method_
    {
      state == H.ExpectHeaders || (state == H.ExpectRequestLine && request.method_ == H.Invalid)
    }

    // Only while a request line or a field is expected, and with no method before the line.
    method ParseRequest(buf: Buffer, receiveTime: int) returns (ok: bool)
      requires buf.Valid() && Ready()
      modifies this, request, buf`readerIndex, buf`writerIndex
      ensures buf.Valid()
      ensures H.Parsed(ok, View(), buf.Contents()) == H.Parse(old(View()), old(buf.Contents()), receiveTime)
    {
      hide H.Parse, buf.Contents;
      ghost var answer := H.Parse(View(), buf.Contents(), receiveTime);
      ok := true;
      var hasMore := true;
      while hasMore
        invariant buf.Valid()
        invariant hasMore ==> ok && Ready() && H.Parse(View(), buf.Contents(), receiveTime) == answer
        invariant !hasMore ==> H.Parsed(ok, View(), buf.Contents()) == answer
        decreases hasMore, buf.ReadableBytes()
      {
        if state == H.ExpectRequestLine {
          ok, hasMore := TakeRequestLine(buf, receiveTime);
        } else {
          hasMore := TakeField(buf, receiveTime);
        }
      }
    }

    // One turn of its loop: a request line, if there is one,
    method TakeRequestLine(buf: Buffer, receiveTime: int) returns (ok: bool, hasMore: bool)
      requires buf.Valid() && state == H.ExpectRequestLine && request.method_ == H.Invalid
      modifies this, request, buf`readerIndex, buf`writerIndex
      ensures buf.Valid()
      ensures var answer := H.Parse(old(View()), old(buf.Contents()), receiveTime);
        if hasMore then ok && state == H.ExpectHeaders && H.Parse(View(), buf.Contents(), receiveTime) == answer
        else H.Parsed(ok, View(), buf.Contents()) == answer
      ensures hasMore ==> buf.ReadableBytes() < old(buf.ReadableBytes())
    {
      hide H.RequestLine, H.Header, Search, H.Find, buf.Contents, H.Parse;
      H.ParseLine(View(), buf.Contents(), receiveTime);
      ok, hasMore := true, true;
      var crlf := buf.FindCRLF();
      if crlf.Some? {
        ok := ProcessRequestLine(buf.Contents()[..crlf.value]);
        if ok {
          request.receiveTime := receiveTime;
          buf.RetrieveUntil(crlf.value + 2);
          state := H.ExpectHeaders;
        } else {
          hasMore := false;
        }
      } else {
        hasMore := false;
      }
    }

    // or a field.
    method TakeField(buf: Buffer, ghost receiveTime: int) returns (hasMore: bool)
      requires buf.Valid() && state == H.ExpectHeaders
      modifies this, request, buf`readerIndex, buf`writerIndex
      ensures buf.Valid()
      ensures var answer := H.Parse(old(View()), old(buf.Contents()), receiveTime);
        if hasMore then state == H.ExpectHeaders && H.Parse(View(), buf.Contents(), receiveTime) == answer
        else H.Parsed(true, View(), buf.Contents()) == answer
      ensures hasMore ==> buf.ReadableBytes() < old(buf.ReadableBytes())
    {
      hide H.RequestLine, H.Header, Search, H.Find, buf.Contents, H.Parse;
      H.ParseField(View(), buf.Contents(), receiveTime);
      hasMore := true;
      var crlf := buf.FindCRLF();
      if crlf.Some? {
        var line := buf.Contents()[..crlf.value];
        var colon := Find(line, 0, |line|, ':');
        assert line[0..|line|] == line;
        if colon != |line| {
          request.AddHeader(line, colon);
        } else {
          state := H.GotAll;
          hasMore := false;
        }
        buf.RetrieveUntil(crlf.value + 2);
      } else {
        hasMore := false;
      }
    }
  }
}
