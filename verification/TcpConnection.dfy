/** Channel's interest bits and a TcpConnection's output stream, as they are used on the
    connection's own loop. */
module TcpConnections {
  import opened Optional
  import opened Buffers
  import opened ConnPhases

  datatype Event = In | Pri | Out

  const READ_EVENT: set<Event> := {In, Pri}
  const WRITE_EVENT: set<Event> := {Out}

  class Channel {
    var events: set<Event>
    // What the poller was last told.
    var polled: set<Event>

    constructor ()
      ensures events == {} && polled == {}
    {
      events, polled := {}, {};
    }

    method Update()
      modifies this`polled
      ensures polled == events
    {
      polled := events;
    }

    method EnableReading()
      modifies this
      ensures events == old(events) + READ_EVENT && polled == events
    {
      events := events + READ_EVENT;
      Update();
    }

    method EnableWriting()
      modifies this
      ensures events == old(events) + WRITE_EVENT && polled == events
    {
      events := events + WRITE_EVENT;
      Update();
    }

    method DisableWriting()
      modifies this
      ensures events == old(events) - WRITE_EVENT && polled == events
    {
      events := events - WRITE_EVENT;
      Update();
    }

    method DisableAll()
      modifies this
      ensures events == {} && polled == {}
    {
      events := {};
      Update();
    }

    // The test keeps nothing but the bit it tests.
    method IsWriting() returns (r: bool)
      modifies this`events
      ensures r == (Out in old(events)) && events == old(events) * WRITE_EVENT
    {
      events := events * WRITE_EVENT;
      assert events == if Out in old(events) then {Out} else {};
      r := events != {};
    }
  }

  datatype Errno = WouldBlock | BrokenPipe | ConnReset | Other

  // What write() answers.
  datatype Written = Wrote(n: nat) | Failed(errno: Errno)

  datatype ReadEvent = Message | Closed | Error

  class TcpConnection {
    var state: Phase
    const channel: Channel
    const inputBuffer: Buffer
    const outputBuffer: Buffer
    // Bytes the socket has taken and bytes it has given, and every message handed over for
    // sending but those that were given up.
    ghost var accepted: string
    ghost var received: string
    ghost var sent: string
    // Something has had to wait for the socket.
    ghost var waited: bool
    var writeShut: bool

    ghost predicate Apart() {
      inputBuffer != outputBuffer
    }

    ghost predicate Buffered()
      reads this, inputBuffer, outputBuffer
    {
      Apart() && inputBuffer.Valid() && outputBuffer.Valid() && inputBuffer.buffer != outputBuffer.buffer
    }

    function Pending(): string
      requires outputBuffer.Valid()
      reads outputBuffer, outputBuffer.buffer
    {
      outputBuffer.Contents()
    }

    // The output stream is kept; the poller is asked about writing exactly while some of it is
    // waiting, and about reading only until something first had to wait; after the close
    // about nothing; and the socket's write side is shut only after all of it was taken.
    ghost function Interest(): set<Event>
      requires outputBuffer.Valid()
      reads this`state, this`waited, outputBuffer, outputBuffer.buffer
    {
      if state == Connecting || state == Disconnected then {}
      else (if waited then {} else READ_EVENT) + if Pending() != [] then WRITE_EVENT else {}
    }

    ghost predicate Valid()
      reads this, channel, inputBuffer, outputBuffer, outputBuffer.buffer
    {
      && Buffered()
      && accepted + Pending() == sent
      && (Out in channel.events <==> Out in channel.polled)
      && channel.polled == Interest()
      && (state == Connecting || state == Disconnected ==> channel.events == {})
      && (state == Connecting ==> sent == [] && !waited)
      && (Pending() != [] ==> waited)
      && (writeShut ==> accepted == sent && state != Connecting && state != Connected)
    }

    constructor ()
      ensures Valid() && state == Connecting && sent == [] && received == [] && !waited && !writeShut
      ensures fresh(channel) && fresh(inputBuffer) && fresh(outputBuffer)
      ensures fresh(inputBuffer.buffer) && fresh(outputBuffer.buffer)
    {
      state := Connecting;
      channel := new Channel();
      inputBuffer := new Buffer();
      outputBuffer := new Buffer();
      accepted, received, sent, waited, writeShut := [], [], [], false, false;
    }

    method ConnectEstablished()
      requires Valid() && state == Connecting
      modifies this`state, channel
      ensures Valid() && state == Connected && READ_EVENT <= channel.polled
    {
      state := Connected;
      channel.EnableReading();
    }

    // send() on the loop's own thread: nothing unless connected.
    method Send(message: string, written: Written) returns (lost: bool)
      requires Valid() && |message| <= INT_MAX
      requires written.Wrote? ==> written.n <= |message|
      modifies this`accepted, this`sent, this`waited, channel, outputBuffer, outputBuffer.buffer
      ensures Valid() && (outputBuffer.buffer == old(outputBuffer.buffer) || fresh(outputBuffer.buffer))
      ensures sent == old(sent) + if lost then [] else message
      ensures lost == (old(state) != Connected || (old(Pending()) == [] && GivesUp(written)))
      ensures accepted == old(accepted)
        + if state == Connected && old(Pending()) == [] && written.Wrote? then message[..written.n] else []
      ensures waited == (old(waited) || Pending() != old(Pending()))
    {
      lost := true;
      if state == Connected {
        lost := SendInLoop(message, written);
      }
    }

    // The errors that make it drop a message.
    static predicate GivesUp(written: Written): (up: bool)
      ensures up <==> written.Failed? && written.errno in {BrokenPipe, ConnReset}
    {
      written == Failed(BrokenPipe) || written == Failed(ConnReset)
    }

    // Straight to the socket if nothing is waiting; what is left over waits. The connection
    // may be disconnecting by now; a socket whose write side is shut answers EPIPE.
    method SendInLoop(message: string, written: Written) returns (lost: bool)
      requires Valid() && |message| <= INT_MAX && state != Connecting
      requires (written.Wrote? ==> written.n <= |message|) && (writeShut ==> written == Failed(BrokenPipe))
      modifies this`accepted, this`sent, this`waited, channel, outputBuffer, outputBuffer.buffer
      ensures Valid() && (outputBuffer.buffer == old(outputBuffer.buffer) || fresh(outputBuffer.buffer))
      ensures sent == old(sent) + if lost then [] else message
      ensures lost == (state == Disconnected || (old(Pending()) == [] && GivesUp(written)))
      ensures accepted == old(accepted)
        + if state != Disconnected && old(Pending()) == [] && written.Wrote? then message[..written.n] else []
      ensures waited == (old(waited) || Pending() != old(Pending()))
    {
      hide outputBuffer.Contents;
      var nwrote, remaining, faultError := 0, |message|, false;
      if state == Disconnected {
        return true;
      }
      ghost var before := Pending();
      var writing := channel.IsWriting();
      if !writing && outputBuffer.ReadableBytes() == 0 {
        assert before == [];
        match written {
          case Wrote(n) =>
            nwrote := n;
            remaining := |message| - nwrote;
            accepted := accepted + message[..nwrote];
          case Failed(errno) =>
            if errno != WouldBlock {
              if errno == BrokenPipe || errno == ConnReset {
                faultError := true;
              }
            }
        }
      }
      if !faultError && remaining > 0 {
        KeepRest(message[nwrote..]);
      }
      if !faultError {
        sent := sent + message;
      }
      lost := faultError;
    }

    // What the socket has not taken waits, and the poller is asked about writing.
    method KeepRest(rest: string)
      requires Buffered() && |rest| <= INT_MAX
      modifies this`waited, channel, outputBuffer, outputBuffer.buffer
      ensures Buffered() && (outputBuffer.buffer == old(outputBuffer.buffer) || fresh(outputBuffer.buffer))
      ensures Pending() == old(Pending()) + rest && waited
      ensures channel.events == WRITE_EVENT
      ensures channel.polled == if Out in old(channel.events) then old(channel.polled) else WRITE_EVENT
    {
      outputBuffer.Append(rest);
      waited := true;
      var writing := channel.IsWriting();
      if !writing {
        channel.EnableWriting();
      }
    }

    method Shutdown()
      requires Valid()
      modifies this`state, this`writeShut, channel`events
      ensures Valid()
      ensures state == old(state).ShutDown() != Connected
      ensures writeShut == (old(writeShut) || (old(state) == Connected && Pending() == []))
    {
      if state == Connected {
        state := Disconnecting;
        ShutdownInLoop();
      }
    }

    method ShutdownInLoop()
      requires Valid() && state == Disconnecting
      modifies this`writeShut, channel`events
      ensures Valid()
      ensures writeShut == (old(writeShut) || Pending() == [])
    {
      var writing := channel.IsWriting();
      if !writing {
        writeShut := true;
      }
    }

    // What arrives is added to the input; the message callback is the caller's.
    method HandleRead(arrival: Arrival) returns (event: ReadEvent)
      requires Valid() && state.Open()
      requires arrival.Bytes? ==> |arrival.bytes| <= inputBuffer.ReadLimit()
      modifies this`state, this`received, channel, inputBuffer, inputBuffer.buffer
      ensures Valid() && (inputBuffer.buffer == old(inputBuffer.buffer) || fresh(inputBuffer.buffer))
      ensures event == if arrival.Errno? then Error else if arrival.bytes == [] then Closed else Message
      ensures state == if event == Closed then old(state).Closed() else old(state)
      ensures inputBuffer.Contents() == old(inputBuffer.Contents()) + if arrival.Bytes? then arrival.bytes else []
      ensures received == old(received) + if arrival.Bytes? then arrival.bytes else []
    {
      assert Pending() == old(Pending());
      var n, savedErrno := inputBuffer.ReadFd(arrival);
      assert Pending() == old(Pending());
      if arrival.Bytes? {
        received := received + arrival.bytes;
      }
      if n > 0 {
        event := Message;
      } else if n == 0 {
        HandleClose();
        event := Closed;
      } else {
        event := Error;
      }
    }

    // The socket takes some of what is waiting.
    method HandleWrite(written: Written)
      requires Valid()
      requires written.Wrote? ==> written.n <= |Pending()|
      modifies this`accepted, channel, outputBuffer`readerIndex, outputBuffer`writerIndex
      ensures Valid() && sent == old(sent)
      ensures accepted == old(accepted) + if Out in old(channel.events) && written.Wrote? then old(Pending())[..written.n] else []
    {
      var writing := channel.IsWriting();
      if writing {
        if written.Wrote? && written.n > 0 {
          accepted := accepted + Pending()[..written.n];
          outputBuffer.Retrieve(written.n);
          if outputBuffer.ReadableBytes() == 0 {
            channel.DisableWriting();
          }
        }
      }
    }

    method HandleClose()
      requires Valid() && state.Open()
      modifies this`state, channel
      ensures Valid() && state == Disconnected == old(state).Closed()
    {
      state := Disconnected;
      channel.DisableAll();
    }

    method ForceClose() returns (queued: bool)
      requires Valid()
      modifies this`state
      ensures Valid()
      ensures queued == old(state).Open() && state == old(state).ForceClosed() != Connected
    {
      queued := false;
      if state == Connected || state == Disconnecting {
        state := Disconnecting;
        queued := true;
      }
    }

    method ForceCloseInLoop()
      requires Valid()
      modifies this`state, channel
      ensures Valid()
      ensures state == old(state).Closed()
    {
      if state == Connected || state == Disconnecting {
        HandleClose();
      }
    }

    // The channel is taken from the poller, which asks that it has no interest left.
    method ConnectDestroyed()
      requires Valid() && state != Connecting && state != Disconnecting
      modifies this`state, channel
      ensures Valid() && state == Disconnected == old(state).Destroyed() && channel.events == {}
    {
      if state == Connected {
        state := Disconnected;
        channel.DisableAll();
      }
      assert channel.events == {};
    }
  }

  // After forceClose() a message is dropped, even before the close is made.
  method LostAfterForceClose(c: TcpConnection, message: string, written: Written)
    requires c.Valid() && |message| <= INT_MAX && (written.Wrote? ==> written.n <= |message|)
    modifies c, c.channel, c.outputBuffer, c.outputBuffer.buffer
    ensures c.Valid() && c.sent == old(c.sent) && c.accepted == old(c.accepted) && c.Pending() == old(c.Pending())
  {
    assert c.Pending() == c.sent[|c.accepted|..];
    var queued := c.ForceClose();
    var lost := c.Send(message, written);
    assert c.Pending() == c.sent[|c.accepted|..];
  }

  // Once a message has had to wait, the poller is never again asked about reading, although
  // the connection stays up: at the latest when the output is drained it is asked about
  // nothing at all.
  method DeafAfterWaiting(c: TcpConnection, message: string, n: nat)
    requires c.Valid() && c.state == Connecting && n < |message| <= INT_MAX
    modifies c, c.channel, c.outputBuffer, c.outputBuffer.buffer
    ensures c.Valid() && c.state == Connected && c.accepted == message && c.channel.polled == {}
  {
    assert |c.accepted + c.Pending()| == 0;
    c.ConnectEstablished();
    var lost := c.Send(message, Wrote(n));
    assert c.accepted == message[..n] && message[..n] + c.Pending() == message;
    assert c.Pending() == (message[..n] + c.Pending())[n..];
    c.HandleWrite(Wrote(|message| - n));
    assert message[..n] + message[n..][..|message| - n] == message;
  }
}
