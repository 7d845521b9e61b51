/** HttpServer: what it does with the bytes of one read, on a TcpConnection. */
module HttpServers {
  import opened ConnPhases
  import opened Buffers
  import opened HttpMessages
  import opened HttpContexts
  import opened TcpConnections
  import A = HttpAnswers

  // What write() makes of a text that is handed to it.
  type Kernel = string -> Written

  class HttpServer {
    const httpCallback: A.Callback
    const text: A.Reply -> string

    constructor (httpCallback: A.Callback, text: A.Reply -> string)
      ensures this.httpCallback == httpCallback && this.text == text
    {
      this.httpCallback, this.text := httpCallback, text;
    }

    // Every text fits an int, and no more of it is taken than there is.
    ghost predicate Sendable(kernel: Kernel) {
      forall reply ::
        var t := text(reply);
        |t| <= INT_MAX && (kernel(t).Wrote? ==> kernel(t).n <= |t|)
    }

    // A reply does not join the stream if the connection is not up or the socket fails at once.
    static ghost predicate Lost(phase: Phase, pending: string, written: Written) {
      phase != Connected || (pending == [] && TcpConnection.GivesUp(written))
    }

    // A reply, and the shutdown after one that closes.
    method Answer(conn: TcpConnection, reply: A.Reply, close: bool, kernel: Kernel)
      requires conn.Valid() && Sendable(kernel) && close == A.Closes(reply, httpCallback)
      modifies conn`state, conn`accepted, conn`sent, conn`waited, conn`writeShut
      modifies conn.channel, conn.outputBuffer, conn.outputBuffer.buffer
      ensures conn.Valid()
      ensures conn.outputBuffer.buffer == old(conn.outputBuffer.buffer) || fresh(conn.outputBuffer.buffer)
      ensures conn.state == A.AfterReply(old(conn.state), reply, httpCallback)
      ensures conn.sent == old(conn.sent)
        + if Lost(old(conn.state), old(conn.Pending()), kernel(text(reply))) then [] else text(reply)
    {
      hide A.Closes, conn.Valid;
      var lost := conn.Send(text(reply), kernel(text(reply)));
      if close {
        conn.Shutdown();
      }
    }

    method OnRequest(conn: TcpConnection, req: Request, kernel: Kernel)
      requires conn.Valid() && Sendable(kernel)
      modifies conn`state, conn`accepted, conn`sent, conn`waited, conn`writeShut
      modifies conn.channel, conn.outputBuffer, conn.outputBuffer.buffer
      ensures conn.Valid()
      ensures conn.outputBuffer.buffer == old(conn.outputBuffer.buffer) || fresh(conn.outputBuffer.buffer)
      ensures conn.state == A.AfterReply(old(conn.state), A.Answer(req), httpCallback)
      ensures conn.sent == old(conn.sent)
        + if Lost(old(conn.state), old(conn.Pending()), kernel(text(A.Answer(req)))) then [] else text(A.Answer(req))
    {
      hide conn.Valid;
      var connection := A.HeaderOf(req, "Connection");
      var close := connection == "close" || (req.version == Http10 && connection != "Keep-Alive");
      close := httpCallback(req, close);
      Answer(conn, A.Answer(req), close, kernel);
    }

    // The text of the replies sent, as far as the socket does not give them up.
    ghost function Texts(sent: seq<A.Reply>, pending: string, kernel: Kernel): string {
      if sent == [] || Lost(Connected, pending, kernel(text(sent[0]))) then [] else text(sent[0])
    }

    // The bytes of the read are in the connection's buffer. It does what the specified server
    // does: phase, parser and bytes left, and what is sent, are the same.
    method OnMessage(conn: TcpConnection, context: HttpContext, receiveTime: int, kernel: Kernel)
      requires conn.Valid() && context.Ready() && Sendable(kernel)
      modifies conn`state, conn`accepted, conn`sent, conn`waited, conn`writeShut
      modifies conn.channel, conn.outputBuffer, conn.outputBuffer.buffer
      modifies conn.inputBuffer`readerIndex, conn.inputBuffer`writerIndex, context, context.request
      ensures conn.Valid()
      ensures var (sent, s') := A.OnMessage(A.Server(old(conn.state), old(context.View()), []),
                                            old(conn.inputBuffer.Contents()), receiveTime, httpCallback);
        && A.Server(conn.state, context.View(), conn.inputBuffer.Contents()) == s'
        && conn.sent == old(conn.sent) + Texts(sent, old(conn.Pending()), kernel)
      ensures !Parse(old(context.View()), old(conn.inputBuffer.Contents()), receiveTime).ok ==> conn.state != Connected
    {
      hide Parse, Sendable, HttpContext.Ready;
      ghost var bytes := conn.inputBuffer.Contents();
      assert [] + bytes == bytes;
      var ok := context.ParseRequest(conn.inputBuffer, receiveTime);
      if !ok {
        Answer(conn, A.BadRequest, true, kernel);
      }
      if context.GotAll() {
        OnRequest(conn, context.request.View(), kernel);
        context.Reset();
      }
    }
  }
}
