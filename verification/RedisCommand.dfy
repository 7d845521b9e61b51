/** RedisConnect::Command: the request it holds, and how it takes in the reply. */
module RedisCommand {
  import opened Optional
  import opened Decimal
  import opened Resp

  const SOCKET_TIMEOUT := 10

  // What getResult says when the reply had no text of its own.
  function ErrorText(code: int): string {
    if code == SYSERR then "system error"
    else if code == NETERR then "network error"
    else if code == DATAERR then "protocol error"
    else if code == TIMEOUT then "response timeout"
    else if code == NOTFOUND then "element not found"
    else "unknown error"
  }

  // The node at a position of the buffer, with its parts where they are in the buffer.
  lemma NodeAtPosition(buf: string, stale: string, at: nat)
    requires at <= |buf|
    ensures var ahead := if at == |buf| then stale else buf[at + 1..];
      var p := FindCRLF(ahead);
      Resp.ParseNode(buf[at..], stale) ==
        if p.None? then Partial
        else if Atoi(ahead) < 0 then Negative(Atoi(ahead))
        else
          var str, end := at + 1 + p.value + 2, at + 1 + p.value + 2 + Atoi(ahead) + 2;
          if |buf| < end then Partial else Bulk(buf[str..end - 2], buf[end..])
  {
    hide FindCRLF, Atoi;
    if at < |buf| {
      var t := buf[at..];
      assert t[1..] == buf[at + 1..];
      var p := FindCRLF(t[1..]);
      if p.Some? && Atoi(t[1..]) >= 0 && p.value + 3 + Atoi(t[1..]) + 2 <= |t| {
        var k, n := p.value + 3, p.value + 3 + Atoi(t[1..]);
        assert t[k..n] == buf[at + k..at + n] && t[n + 2..] == buf[at + n + 2..];
      }
    }
  }

  class Command {
    var status: int
    var msg: string
    var res: seq<string>
    var vec: seq<string>

    constructor ()
      ensures status == 0 && msg == [] && res == [] && vec == []
    {
      status, msg, res, vec := 0, [], [], [];
    }

    method ToString() returns (out: string)
      ensures out == PrintArray(vec)
    {
      hide PrintBulk;
      out := PrintHeader(|vec|);
      var i := 0;
      while i < |vec|
        invariant 0 <= i <= |vec|
        invariant out + PrintItems(vec[i..]) == PrintArray(vec)
      {
        ghost var rest := PrintItems(vec[i + 1..]);
        assert vec[i..][1..] == vec[i + 1..];
        assert out + (PrintBulk(vec[i]) + rest) == out + PrintBulk(vec[i]) + rest;
        out := out + PrintBulk(vec[i]);
        i := i + 1;
      }
      assert out + [] == out;
    }

    // The node at a position of the buffer: where it ends, which is where it starts when it
    // is not all there, and before that when its length is negative.
    method ParseNode(buf: string, stale: string, at: nat) returns (end: int)
      requires at <= |buf|
      modifies this`res
      ensures match Resp.ParseNode(buf[at..], stale)
        case Partial => end == at && res == old(res)
        case Negative(size) => end == at + size && res == old(res)
        case Bulk(item, rest) => at < end <= |buf| && buf[end..] == rest && res == old(res) + [item]
    {
      NodeAtPosition(buf, stale, at);
      hide *;
      // one past the terminator when nothing is there
      var ahead := if at == |buf| then stale else buf[at + 1..];
      var p := FindCRLF(ahead);
      if p.None? {
        return at;
      }
      var size := Atoi(ahead);
      if size < 0 {
        return at + size;
      }
      var str := at + 1 + p.value + 2;
      end := str + size + 2;
      if |buf| < end {
        return at;
      }
      res := res + [buf[str..str + size]];
    }

    // All bytes received so far, from a position on.
    method Parse(buf: string, stale: string, at: nat) returns (outcome: Outcome)
      requires at < |buf|
      modifies this
      ensures var p := Resp.Parse(buf, stale, at, |old(res)|);
        && outcome == p.outcome && res == old(res) + p.pushed
        && status == (if p.status.Some? then p.status.value else old(status))
        && msg == (if p.text.Some? then p.text.value else old(msg))
      ensures vec == if buf[at] == '*' && FindCRLF(buf[at + 1..]).Some? then [] else old(vec)
      decreases |buf| - at, 0
    {
      hide FindCRLF, Atoi, Resp.ParseNode, ParseNodes, Finished;
      assert buf[at..][1..] == buf[at + 1..];
      if buf[at] == '$' {
        var end := ParseNode(buf, stale, at);
        if end == at {
          return Code(TIMEOUT);
        } else if end - at == -1 {
          return Code(NOTFOUND);
        }
        return Code(OK);
      }
      var p := FindCRLF(buf[at + 1..]);
      if p.None? {
        return Code(TIMEOUT);
      }
      var end := at + 1 + p.value;
      assert buf[at..][1..p.value + 1] == buf[at + 1..end];
      if buf[at] == '+' || buf[at] == '-' || buf[at] == ':' {
        status := OK;
        msg := buf[at + 1..end];
        if buf[at] == '+' {
          return Code(OK);
        }
        if buf[at] == '-' {
          return Code(FAIL);
        }
        status := Atoi(buf[at + 1..]);
        return Code(OK);
      }
      if buf[at] == '*' {
        outcome := ParseArray(buf, stale, at, end + 2, Atoi(buf[at + 1..]));
        return;
      }
      return Code(DATAERR);
    }

    // The loop of parse() over the nodes of an array that starts at position at.
    method ParseArray(buf: string, stale: string, at: nat, first: nat, count: int) returns (outcome: Outcome)
      requires at < first <= |buf|
      modifies this
      ensures vec == []
      ensures var p := Finished(buf, stale, at, ParseNodes(buf, stale, at, first, count), |old(res)|);
        && outcome == p.outcome && res == old(res) + p.pushed
        && status == (if p.status.Some? then p.status.value else old(status))
        && msg == (if p.text.Some? then p.text.value else old(msg))
      decreases |buf| - at, 0, 0
    {
      hide FindCRLF, Atoi, Resp.ParseNode, Resp.Parse, ParseNodes;
      vec := [];
      var str: int, cnt := first, count;
      ghost var pushed: seq<string> := [];
      while cnt > 0
        invariant str <= |buf|
        invariant vec == [] && status == old(status) && msg == old(msg)
        invariant res == old(res) + pushed
        invariant var r := ParseNodes(buf, stale, at, str, cnt);
          ParseNodes(buf, stale, at, first, count) == Nodes(pushed + r.pushed, r.end)
        decreases cnt
      {
        NoMoreNodes(buf, stale, at, str, cnt);
        assert pushed + [] == pushed;
        if str < 0 {
          return SteppedBack;
        }
        if str < |buf| && buf[str] == '*' {
          if str <= at {
            return SteppedBack;
          }
          outcome := Parse(buf, stale, str);
          return;
        }
        OneMoreNode(buf, stale, at, str, cnt);
        var end := ParseNode(buf, stale, str);
        if end == str {
          return Code(TIMEOUT);
        }
        if end > str {
          ghost var more := ParseNodes(buf, stale, at, end, cnt - 1).pushed;
          assert pushed + ([res[|res| - 1]] + more) == pushed + [res[|res| - 1]] + more;
          pushed := pushed + [res[|res| - 1]];
        }
        str := end;
        cnt := cnt - 1;
      }
      NoMoreNodes(buf, stale, at, str, cnt);
      assert pushed + [] == pushed;
      return Code(|res|);
    }

    // getResult: the request it writes, and what it makes of what arrives. No outcome means
    // it is still waiting when the arrivals end.
    method GetResult(buffer: array<char>, memsz: nat, timeout: int, written: bool, arrivals: seq<Read>)
      returns (request: string, outcome: Option<Outcome>)
      requires buffer.Length == memsz + 1
      modifies this, buffer
      ensures request == PrintArray(old(vec))
      ensures !written ==> outcome == Some(Code(NETERR)) && res == old(res) && status == 0 && msg == ErrorText(NETERR)
      ensures written ==>
        var limits := Limits(memsz, timeout, SOCKET_TIMEOUT, old(buffer[..]));
        var (w, code) := Retry(Waiting([], 0, old(res), None, None), arrivals, limits);
        && outcome == code && res == w.res
        && status == (if w.status.Some? then w.status.value else 0)
        && msg ==
          (var text := if w.text.Some? then w.text.value else [];
            if code.Some? && code.value.Code? && code.value.code < 0 && text == [] then ErrorText(code.value.code) else text)
      ensures outcome == Some(Code(NOTFOUND)) ==> msg == "element not found"
      ensures outcome == Some(Code(TIMEOUT)) ==> msg == "response timeout"
      ensures outcome == Some(Code(NETERR)) ==> msg == "network error"
      ensures outcome == Some(Code(DATAERR)) ==> msg == "protocol error"
      ensures outcome == Some(Code(NETCLOSE)) || outcome == Some(Code(PARAMERR)) ==> msg == "unknown error"
    {
      hide PrintArray, Retry;
      TextEndsLoop(Waiting([], 0, res, None, None), arrivals, Limits(memsz, timeout, SOCKET_TIMEOUT, buffer[..]));
      status, msg := 0, [];
      request := ToString();
      if !written {
        outcome := Some(Code(NETERR));
      } else {
        outcome := Receive(buffer, memsz, timeout, arrivals);
      }
      if outcome.Some? && outcome.value.Code? && outcome.value.code < 0 && msg == [] {
        msg := ErrorText(outcome.value.code);
      }
    }

    // What recv puts into the buffer, and the NUL after it.
    static method Put(buffer: array<char>, readed: nat, bytes: string)
      requires readed + |bytes| < buffer.Length
      modifies buffer
      ensures buffer[..readed + |bytes|] == old(buffer[..readed]) + bytes
      ensures buffer[readed + |bytes| + 1..] == old(buffer[readed + |bytes| + 1..])
    {
      forall k | 0 <= k < |bytes| {
        buffer[readed + k] := bytes[k];
      }
      buffer[readed + |bytes|] := '\0';
    }

    // One piece: put behind what is there, and all of it parsed again.
    method TakeIn(buffer: array<char>, readed: nat, bytes: string, ghost w: Waiting, ghost limits: Limits,
                  ghost status0: int, ghost msg0: string)
      returns (code: Outcome)
      requires bytes != [] && readed + |bytes| < buffer.Length == |limits.before|
      requires w.got == buffer[..readed] && w.res == res && buffer[readed + 1..] == limits.before[readed + 1..]
      requires status == if w.status.Some? then w.status.value else status0
      requires msg == if w.text.Some? then w.text.value else msg0
      modifies this, buffer
      ensures var (w', outcome) := Received(w, bytes, limits);
        && code == outcome && w'.delay == w.delay && w'.res == res && w'.got == buffer[..readed + |bytes|]
        && status == (if w'.status.Some? then w'.status.value else status0)
        && msg == (if w'.text.Some? then w'.text.value else msg0)
      ensures buffer[readed + |bytes| + 1..] == limits.before[readed + |bytes| + 1..]
    {
      hide Resp.Parse, Received;
      Put(buffer, readed, bytes);
      ReceivedIs(w, bytes, limits);
      ghost var n := readed + |bytes|;
      assert buffer[n + 1..] == Stale(limits, n);
      code := Parse(buffer[..readed + |bytes|], buffer[readed + |bytes| + 1..], 0);
    }

    // The retry loop.
    method Receive(buffer: array<char>, memsz: nat, timeout: int, arrivals: seq<Read>)
      returns (outcome: Option<Outcome>)
      requires buffer.Length == memsz + 1
      modifies this, buffer
      ensures var limits := Limits(memsz, timeout, SOCKET_TIMEOUT, old(buffer[..]));
        var (w, code) := Retry(Waiting([], 0, old(res), None, None), arrivals, limits);
        && outcome == code && res == w.res
        && status == (if w.status.Some? then w.status.value else old(status))
        && msg == (if w.text.Some? then w.text.value else old(msg))
    {
      hide Resp.Parse, Fitting, Retry, Received;
      var delay, readed, i := 0, 0, 0;
      ghost var w := Waiting([], 0, res, None, None);
      ghost var limits := Limits(memsz, timeout, SOCKET_TIMEOUT, buffer[..]);
      ghost var goal := Retry(w, arrivals, limits);
      while readed < memsz
        invariant 0 <= readed <= memsz && 0 <= i <= |arrivals|
        invariant buffer[readed + 1..] == limits.before[readed + 1..]
        invariant w.got == buffer[..readed] && w.delay == delay && w.res == res
        invariant status == if w.status.Some? then w.status.value else old(status)
        invariant msg == if w.text.Some? then w.text.value else old(msg)
        invariant Retry(w, arrivals[i..], limits) == goal
        decreases |arrivals| - i
      {
        RetryTurn(w, arrivals[i..], limits);
        if i == |arrivals| {
          return None;
        }
        var arrived := arrivals[i];
        assert arrivals[i..][1..] == arrivals[i + 1..];
        i := i + 1;
        match arrived {
          case Broken =>
            return Some(Code(NETERR));
          case Waited =>
            delay := delay + SOCKET_TIMEOUT;
            w := w.(delay := delay);
            if delay > timeout {
              return Some(Code(TIMEOUT));
            }
          case Data(bytes) =>
            if bytes == [] {
              return Some(Code(NETCLOSE));
            }
            var fitting := Fitting(bytes, memsz - readed);
            var code := TakeIn(buffer, readed, fitting, w, limits, old(status), old(msg));
            readed := readed + |fitting|;
            w := Received(w, fitting, limits).0;
            if code == Code(TIMEOUT) {
              delay := 0;
              w := w.(delay := 0);
            } else {
              return Some(code);
            }
        }
      }
      RetryTurn(w, arrivals[i..], limits);
      return Some(Code(PARAMERR));
    }
  }
}
