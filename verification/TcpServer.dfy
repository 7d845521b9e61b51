/** TcpServer and the part of TcpConnection that decides how a connection lives and ends. The
    functors the loops still have to call are part of the state; current is the loop whose
    thread makes the call. */
module TcpServers {
  import opened ConnPhases
  import opened TcpServerRuns

  class TcpServer {
    var connectionsSet: set<Id>
    var nextConnId: Id
    var conns: map<Id, Conn>
    var queues: Queues

    ghost function View(): State
      reads this
    {
      State(connectionsSet, nextConnId, conns, queues)
    }

    constructor ()
      ensures View() == INIT && Inv(View())
    {
      connectionsSet, nextConnId, conns, queues := {}, 1, map[], map[];
      new;
      StartsWell();
    }

    method QueueInLoop(l: Loop, t: Task)
      modifies this`queues
      ensures queues == Push(old(queues), l, t)
    {
      queues := queues[l := Queue(queues, l) + [t]];
    }

    // The pool chose loop.
    method NewConnection(loop: Loop)
      requires Inv(View())
      modifies this
      ensures Enabled(old(View()), Accept(loop)) && View() == Next(old(View()), Accept(loop)) && Inv(View())
    {
      hide Inv, Push, Queue;
      ghost var s := View();
      StepKeepsInv(s, Accept(loop));
      var id := nextConnId;
      nextConnId := nextConnId + 1;
      assert id !in conns;
      conns := conns[id := Conn(loop, Connecting, false, 0, 0)];
      connectionsSet := connectionsSet + {id};
      if loop == BASE {
        ConnectEstablished(id);
      } else {
        QueueInLoop(loop, Establish(id));
      }
    }

    method ConnectEstablished(id: Id)
      requires id in conns && conns[id].phase == Connecting
      modifies this`conns
      ensures View() == EstablishConn(old(View()), id)
    {
      conns := conns[id := conns[id].(phase := Connected, listening := true)];
    }

    method RemoveConnection(id: Id, current: Loop)
      requires id in conns && (current == BASE ==> id in connectionsSet)
      modifies this
      ensures View() ==
        if current == BASE then RemoveConn(old(View()), id) else old(View()).(queues := Push(old(queues), BASE, Remove(id)))
    {
      if current == BASE {
        RemoveConnectionInLoop(id);
      } else {
        QueueInLoop(BASE, Remove(id));
      }
    }

    method RemoveConnectionInLoop(id: Id)
      requires id in conns && id in connectionsSet
      modifies this
      ensures View() == RemoveConn(old(View()), id)
    {
      var n := if id in connectionsSet then 1 else 0;
      connectionsSet := connectionsSet - {id};
      assert n == 1;
      conns := conns[id := conns[id].(erased := conns[id].erased + n)];
      QueueInLoop(conns[id].loop, Destroy(id));
    }

    method HandleClose(id: Id)
      requires id in conns && Open(conns[id]) && id in connectionsSet
      modifies this
      ensures View() == CloseConn(old(View()), id)
    {
      conns := conns[id := conns[id].(phase := Disconnected, listening := false)];
      RemoveConnection(id, conns[id].loop);
    }

    method ConnectDestroyed(id: Id)
      requires id in conns && conns[id].phase == Disconnected && !conns[id].listening
      modifies this`conns
      ensures View() == DestroyConn(old(View()), id)
    {
      var c := conns[id];
      if c.phase == Connected {
        c := c.(phase := Disconnected, listening := false);
      }
      assert !c.listening;
      conns := conns[id := c.(destroyed := c.destroyed + 1)];
    }

    // An event on the connection's channel: end of input, or a hang-up.
    method PeerClosed(id: Id)
      requires Inv(View()) && Enabled(View(), PeerCloses(id))
      modifies this
      ensures View() == Next(old(View()), PeerCloses(id)) && Inv(View())
    {
      hide Inv, CloseConn;
      StepKeepsInv(View(), PeerCloses(id));
      HandleClose(id);
    }

    method ShutdownConn(id: Id)
      requires Inv(View()) && id in conns
      modifies this`conns
      ensures View() == Next(old(View()), Shutdown(id)) && Inv(View())
    {
      hide Inv, Asserts, CloseConn, RemoveConn, EstablishConn, Call, Queue, Push, Pop;
      StepKeepsInv(View(), Shutdown(id));
      if conns[id].phase == Connected {
        conns := conns[id := conns[id].(phase := Disconnecting)];
      }
    }

    method ForceCloseConn(id: Id)
      requires Inv(View()) && id in conns
      modifies this
      ensures View() == Next(old(View()), AskForceClose(id)) && Inv(View())
    {
      hide Inv, Push, Queue;
      ghost var s := View();
      StepKeepsInv(s, AskForceClose(id));
      if conns[id].phase == Connected || conns[id].phase == Disconnecting {
        conns := conns[id := conns[id].(phase := Disconnecting)];
        QueueInLoop(conns[id].loop, ForceClose(id));
      }
    }

    method ForceCloseInLoop(id: Id)
      requires id in conns && (Open(conns[id]) ==> id in connectionsSet)
      modifies this
      ensures View() == if Open(old(conns)[id]) then CloseConn(old(View()), id) else old(View())
    {
      if conns[id].phase == Connected || conns[id].phase == Disconnecting {
        HandleClose(id);
      }
    }

    // A loop calls the next of its functors.
    method CallFunctor(l: Loop)
      requires Inv(View()) && Enabled(View(), RunTask(l))
      modifies this
      ensures View() == Next(old(View()), RunTask(l)) && Inv(View())
    {
      hide Inv, CloseConn, RemoveConn, EstablishConn, DestroyConn, Queue;
      StepKeepsInv(View(), RunTask(l));
      var t := Queue(queues, l)[0];
      assert View().(queues := Pop(queues, l)) == old(View()).(queues := Pop(queues, l));
      queues := queues[l := Queue(queues, l)[1..]];
      match t {
        case Establish(id) => ConnectEstablished(id);
        case Remove(id) => RemoveConnectionInLoop(id);
        case Destroy(id) => ConnectDestroyed(id);
        case ForceClose(id) => ForceCloseInLoop(id);
      }
    }
  }
}
