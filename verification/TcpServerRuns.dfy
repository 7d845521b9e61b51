/** The life of a TcpServer's connections as interleaved steps of the base loop and the I/O
    loops. A loop runs its queued functors in the order they were queued. */
module TcpServerRuns {
  import opened ConnPhases

  type Id = nat
  type Loop = nat

  const BASE: Loop := 0

  // A connection, with how often it was erased from the server's set and destroyed.
  datatype Conn = Conn(loop: Loop, phase: Phase, listening: bool, erased: nat, destroyed: nat)

  datatype Task = Establish(id: Id) | Remove(id: Id) | Destroy(id: Id) | ForceClose(id: Id)

  datatype State = State(connections: set<Id>, nextConnId: Id, conns: map<Id, Conn>, queues: Queues)

  datatype Step =
    | Accept(loop: Loop)        // newConnetion(), with the loop the pool chose
    | RunTask(loop: Loop)       // a loop calls its next functor
    | PeerCloses(id: Id)        // an event that ends in handleClose()
    | Shutdown(id: Id)          // shutdown(), on the connection's loop
    | AskForceClose(id: Id)     // forceClose(), on the connection's loop

  const INIT := State({}, 1, map[], map[])

  type Queues = map<Loop, seq<Task>>

  function Queue(q: Queues, l: Loop): seq<Task> {
    if l in q then q[l] else []
  }

  function Push(q: Queues, l: Loop, t: Task): Queues {
    q[l := Queue(q, l) + [t]]
  }

  function Pop(q: Queues, l: Loop): Queues
    requires Queue(q, l) != []
  {
    q[l := Queue(q, l)[1..]]
  }

  function Put(s: State, id: Id, c: Conn): State {
    s.(conns := s.conns[id := c])
  }

  // Events come only for channels that have an interest.
  predicate Enabled(s: State, a: Step) {
    match a
    case Accept(_) => true
    case RunTask(l) => Queue(s.queues, l) != [] && Queue(s.queues, l)[0].id in s.conns
    case PeerCloses(id) => id in s.conns && s.conns[id].listening
    case Shutdown(id) => id in s.conns
    case AskForceClose(id) => id in s.conns
  }

  // connectEstablished()
  function EstablishConn(s: State, id: Id): State
    requires id in s.conns
  {
    Put(s, id, s.conns[id].(phase := Connected, listening := true))
  }

  // removeConnectionInLoop()
  function RemoveConn(s: State, id: Id): State
    requires id in s.conns
  {
    var c := s.conns[id];
    var s' := Put(s, id, c.(erased := c.erased + if id in s.connections then 1 else 0));
    s'.(connections := s.connections - {id}, queues := Push(s.queues, c.loop, Destroy(id)))
  }

  // handleClose(), and removeConnection(), which goes over to the base loop
  function CloseConn(s: State, id: Id): State
    requires id in s.conns
  {
    var c := s.conns[id];
    var s' := Put(s, id, c.(phase := c.phase.Closed(), listening := false));
    if c.loop == BASE then RemoveConn(s', id) else s'.(queues := Push(s.queues, BASE, Remove(id)))
  }

  // connectDestroyed()
  function DestroyConn(s: State, id: Id): State
    requires id in s.conns
  {
    var c := s.conns[id];
    Put(s, id, c.(phase := c.phase.Destroyed(), listening := c.listening && c.phase != Connected, destroyed := c.destroyed + 1))
  }

  predicate Open(c: Conn) {
    c.phase.Open()
  }

  function Call(s: State, t: Task): State
    requires t.id in s.conns
  {
    match t
    case Establish(id) => EstablishConn(s, id)
    case Remove(id) => RemoveConn(s, id)
    case Destroy(id) => DestroyConn(s, id)
    case ForceClose(id) => if Open(s.conns[id]) then CloseConn(s, id) else s
  }

  function Next(s: State, a: Step): State
    requires Enabled(s, a)
  {
    match a
    case Accept(l) =>
      var id := s.nextConnId;
      var s' := Put(s, id, Conn(l, Connecting, false, 0, 0)).(connections := s.connections + {id}, nextConnId := id + 1);
      if l == BASE then EstablishConn(s', id) else s'.(queues := Push(s.queues, l, Establish(id)))
    case RunTask(l) => Call(s.(queues := Pop(s.queues, l)), Queue(s.queues, l)[0])
    case PeerCloses(id) => CloseConn(s, id)
    case Shutdown(id) =>
      Put(s, id, s.conns[id].(phase := s.conns[id].phase.ShutDown()))
    case AskForceClose(id) =>
      if Open(s.conns[id]) then
        Put(s, id, s.conns[id].(phase := s.conns[id].phase.ForceClosed())).(queues := Push(s.queues, s.conns[id].loop, ForceClose(id)))
      else s
  }

  // The assertions of the functions a step calls: connectEstablished() wants a connecting
  // connection, handleClose() an open one, removeConnectionInLoop() one that is in the set,
  // and connectDestroyed() one that is disconnected and has no interest left.
  predicate Asserts(s: State, a: Step)
    requires Enabled(s, a)
  {
    match a
    case Accept(_) => s.nextConnId !in s.conns
    case RunTask(l) =>
      (match Queue(s.queues, l)[0]
       case Establish(id) => s.conns[id].phase == Connecting
       case Remove(id) => id in s.connections
       case Destroy(id) => s.conns[id].phase == Disconnected && !s.conns[id].listening
       case ForceClose(id) => Open(s.conns[id]) ==> id in s.connections)
    case PeerCloses(id) => Open(s.conns[id]) && id in s.connections
    case Shutdown(_) => true
    case AskForceClose(_) => true
  }

  // ----- runs

  predicate Possible(s: State, run: seq<Step>)
    decreases |run|
  {
    run == [] || (Enabled(s, run[0]) && Possible(Next(s, run[0]), run[1..]))
  }

  function After(s: State, run: seq<Step>): State
    requires Possible(s, run)
    decreases |run|
  {
    if run == [] then s else After(Next(s, run[0]), run[1..])
  }

  // ----- what every step keeps

  function Waiting(q: Queues, l: Loop, t: Task): nat {
    multiset(Queue(q, l))[t]
  }

  function One(b: bool): nat {
    if b then 1 else 0
  }

  // How far a connection is, and the one task that will take it further, if any.
  ghost predicate Tracked(s: State, id: Id)
    requires id in s.conns
  {
    var c := s.conns[id];
    && id < s.nextConnId
    && (c.listening <==> Open(c))
    && Waiting(s.queues, c.loop, Establish(id)) == One(c.phase == Connecting)
    && Waiting(s.queues, BASE, Remove(id)) + Waiting(s.queues, c.loop, Destroy(id)) + c.destroyed == One(c.phase == Disconnected)
    && (id in s.connections <==> c.erased == 0)
    && c.erased == One(c.phase == Disconnected && Waiting(s.queues, BASE, Remove(id)) == 0)
  }

  // Tasks are where they belong.
  ghost predicate Placed(s: State, l: Loop, t: Task) {
    && t.id in s.conns
    && l == (if t.Remove? then BASE else s.conns[t.id].loop)
    && (t.ForceClose? ==> s.conns[t.id].phase != Connecting && s.conns[t.id].destroyed == 0)
  }

  // A connection is destroyed by the last task that holds it.
  predicate DestroyIsLast(tasks: seq<Task>) {
    forall i, j :: 0 <= i < j < |tasks| && tasks[i].Destroy? ==> tasks[j].id != tasks[i].id
  }

  ghost predicate Ordered(q: Queues) {
    forall l :: DestroyIsLast(Queue(q, l))
  }

  ghost predicate Inv(s: State) {
    && s.connections <= s.conns.Keys
    && (forall id :: id in s.conns ==> Tracked(s, id))
    && (forall l, t :: Waiting(s.queues, l, t) > 0 ==> Placed(s, l, t))
    && Ordered(s.queues)
  }

  lemma Pushed(q: Queues, l: Loop, t: Task)
    ensures forall l', t' :: Waiting(Push(q, l, t), l', t') == Waiting(q, l', t') + One(l' == l && t' == t)
    ensures Ordered(q) && Waiting(q, l, Destroy(t.id)) == 0 ==> Ordered(Push(q, l, t))
  {
    if Ordered(q) && Waiting(q, l, Destroy(t.id)) == 0 {
      assert DestroyIsLast(Queue(q, l));
      forall l'
        ensures DestroyIsLast(Queue(Push(q, l, t), l'))
      {
        if l' == l {
          assert Destroy(t.id) !in Queue(q, l);
        } else {
          assert Queue(Push(q, l, t), l') == Queue(q, l');
        }
      }
    }
  }

  lemma Popped(q: Queues, l: Loop)
    requires Queue(q, l) != [] && Ordered(q)
    ensures forall l', t' :: Waiting(q, l', t') == Waiting(Pop(q, l), l', t') + One(l' == l && t' == Queue(q, l)[0])
    ensures Ordered(Pop(q, l))
    ensures Queue(q, l)[0].Destroy? ==>
      forall t': Task :: t'.id == Queue(q, l)[0].id ==> Waiting(Pop(q, l), l, t') == 0
  {
    var tasks := Queue(q, l);
    assert tasks == [tasks[0]] + tasks[1..];
    assert Queue(Pop(q, l), l) == tasks[1..];
    assert DestroyIsLast(tasks);
    forall l'
      ensures DestroyIsLast(Queue(Pop(q, l), l'))
    {
      assert l' != l ==> DestroyIsLast(Queue(q, l'));
    }
    assert forall j :: 0 <= j < |tasks| - 1 ==> tasks[1..][j] == tasks[j + 1];
  }

  lemma TrackedSame(s: State, s': State, id: Id)
    requires id in s.conns && Tracked(s, id) && id in s'.conns && s'.conns[id] == s.conns[id]
    requires s'.nextConnId >= s.nextConnId && (id in s'.connections <==> id in s.connections)
    requires forall l, t: Task :: t.id == id ==> Waiting(s'.queues, l, t) == Waiting(s.queues, l, t)
    ensures Tracked(s', id)
  {
    hide Waiting;
  }

  lemma KnownTask(s: State, l: Loop, t: Task)
    requires Placed(s, l, t)
    ensures t.id in s.conns
  {
  }

  lemma PlacedSame(s: State, s': State, l: Loop, t: Task)
    requires Placed(s, l, t) && t.id in s'.conns && s'.conns[t.id] == s.conns[t.id]
    ensures Placed(s', l, t)
  {
  }

  lemma FreshId(s: State)
    requires Inv(s)
    ensures s.nextConnId !in s.conns
    ensures forall l, t: Task :: t.id == s.nextConnId ==> Waiting(s.queues, l, t) == 0
  {
    hide Waiting, Ordered;
    assert s.nextConnId in s.conns ==> Tracked(s, s.nextConnId);
    forall l, t: Task | t.id == s.nextConnId
      ensures Waiting(s.queues, l, t) == 0
    {
      assert Waiting(s.queues, l, t) > 0 ==> Placed(s, l, t);
    }
  }

  lemma NewConn(s: State, l: Loop)
    requires Inv(s)
    ensures var id, s' := s.nextConnId, Next(s, Accept(l));
      && id in s'.conns && Tracked(s', id) && Ordered(s'.queues)
      && (forall l', t: Task :: t.id == id && Waiting(s'.queues, l', t) > 0 ==> Placed(s', l', t))
      && (forall l', t: Task :: t.id != id ==> Waiting(s'.queues, l', t) == Waiting(s.queues, l', t))
  {
    hide Waiting, Ordered, Push;
    FreshId(s);
    Pushed(s.queues, l, Establish(s.nextConnId));
  }

  lemma AcceptKeepsInv(s: State, l: Loop)
    requires Inv(s)
    ensures Asserts(s, Accept(l)) && Inv(Next(s, Accept(l)))
  {
    hide Waiting, Ordered, Push, Tracked, Placed;
    var id, s' := s.nextConnId, Next(s, Accept(l));
    FreshId(s);
    NewConn(s, l);
    forall k | k in s'.conns
      ensures Tracked(s', k)
    {
      if k != id {
        TrackedSame(s, s', k);
      }
    }
    forall l', t | Waiting(s'.queues, l', t) > 0
      ensures Placed(s', l', t)
    {
      if t.id != id {
        assert Placed(s, l', t);
        KnownTask(s, l', t);
        PlacedSame(s, s', l', t);
      }
    }
  }

  // A step that changes one connection, and only tasks about it.
  lemma OnlyOne(s: State, s': State, id: Id)
    requires Inv(s) && id in s.conns && id in s'.conns
    requires s'.conns == s.conns[id := s'.conns[id]] && s'.conns[id].loop == s.conns[id].loop
    requires s'.nextConnId == s.nextConnId && s'.connections <= s.connections && s.connections - {id} <= s'.connections
    requires forall l, t: Task :: t.id != id ==> Waiting(s'.queues, l, t) == Waiting(s.queues, l, t)
    requires Ordered(s'.queues) && Tracked(s', id)
    requires forall l, t: Task :: t.id == id && Waiting(s'.queues, l, t) > 0 ==> Placed(s', l, t)
    ensures Inv(s')
  {
    hide Waiting, Ordered, Tracked, Placed;
    forall k | k in s'.conns
      ensures Tracked(s', k)
    {
      if k != id {
        TrackedSame(s, s', k);
      }
    }
    forall l, t | Waiting(s'.queues, l, t) > 0
      ensures Placed(s', l, t)
    {
      if t.id != id {
        assert Placed(s, l, t);
        KnownTask(s, l, t);
        PlacedSame(s, s', l, t);
      }
    }
  }

  lemma CloseKeepsInv(s: State, id: Id)
    requires Inv(s) && id in s.conns && Open(s.conns[id])
    ensures Inv(CloseConn(s, id)) && id in s.connections
  {
    hide Waiting, Ordered, Push, Inv;
    var l := s.conns[id].loop;
    InvOf(s, id);
    Pushed(s.queues, BASE, Remove(id));
    Pushed(s.queues, l, Destroy(id));
    OnlyOne(s, CloseConn(s, id), id);
  }

  // What the invariant says of one connection.
  lemma InvOf(s: State, id: Id)
    requires Inv(s) && id in s.conns
    ensures Tracked(s, id) && Ordered(s.queues)
    ensures forall l, t: Task :: t.id == id && Waiting(s.queues, l, t) > 0 ==> Placed(s, l, t)
  {
  }

  lemma ShutdownKeepsInv(s: State, id: Id)
    requires Inv(s) && id in s.conns
    ensures Inv(Next(s, Shutdown(id)))
  {
    hide Waiting, Ordered, Inv;
    InvOf(s, id);
    OnlyOne(s, Next(s, Shutdown(id)), id);
  }

  lemma AskKeepsInv(s: State, id: Id)
    requires Inv(s) && id in s.conns
    ensures Inv(Next(s, AskForceClose(id)))
  {
    hide Waiting, Ordered, Inv, Push;
    InvOf(s, id);
    if Open(s.conns[id]) {
      Pushed(s.queues, s.conns[id].loop, ForceClose(id));
      OnlyOne(s, Next(s, AskForceClose(id)), id);
    }
  }

  lemma TaskKeepsInv(s: State, l: Loop)
    requires Inv(s) && Enabled(s, RunTask(l))
    ensures Asserts(s, RunTask(l)) && Inv(Next(s, RunTask(l)))
  {
    hide Waiting, Ordered, Inv, Push, Pop;
    var t := Queue(s.queues, l)[0];
    var id := t.id;
    var s0 := s.(queues := Pop(s.queues, l));
    InvOf(s, id);
    Popped(s.queues, l);
    assert Waiting(s.queues, l, t) > 0;
    match t
    case ForceClose(_) =>
      OnlyOne(s, s0, id);
      if Open(s.conns[id]) {
        CloseKeepsInv(s0, id);
      }
    case Remove(_) =>
      Pushed(s0.queues, s.conns[id].loop, Destroy(id));
      OnlyOne(s, Next(s, RunTask(l)), id);
    case _ =>
      OnlyOne(s, Next(s, RunTask(l)), id);
  }

  // No assertion fails, and the invariant is kept.
  lemma StepKeepsInv(s: State, a: Step)
    requires Inv(s) && Enabled(s, a)
    ensures Asserts(s, a) && Inv(Next(s, a))
  {
    hide Waiting, Ordered, Inv, Next, CloseConn;
    match a
    case Accept(l) => AcceptKeepsInv(s, l);
    case RunTask(l) => TaskKeepsInv(s, l);
    case PeerCloses(id) => PeerClosesKeepsInv(s, id);
    case Shutdown(id) => ShutdownKeepsInv(s, id);
    case AskForceClose(id) => AskKeepsInv(s, id);
  }

  lemma PeerClosesKeepsInv(s: State, id: Id)
    requires Inv(s) && Enabled(s, PeerCloses(id))
    ensures Asserts(s, PeerCloses(id)) && Inv(Next(s, PeerCloses(id)))
  {
    hide Waiting, Ordered, Inv, CloseConn;
    InvOf(s, id);
    CloseKeepsInv(s, id);
  }

  // ----- the whole of a run

  predicate AllAssert(s: State, run: seq<Step>)
    requires Possible(s, run)
    decreases |run|
  {
    run == [] || (Asserts(s, run[0]) && AllAssert(Next(s, run[0]), run[1..]))
  }

  lemma {:induction false} RunKeepsInv(s: State, run: seq<Step>)
    requires Inv(s) && Possible(s, run)
    ensures AllAssert(s, run) && Inv(After(s, run))
    decreases |run|
  {
    hide Inv, Next, Asserts;
    if run != [] {
      StepKeepsInv(s, run[0]);
      RunKeepsInv(Next(s, run[0]), run[1..]);
    }
  }

  lemma StartsWell()
    ensures Inv(INIT)
  {
  }

  // The only ways on.
  predicate Follows(p: Phase, p': Phase) {
    match p
    case Connecting => p' == Connected
    case Connected => p' == Disconnecting || p' == Disconnected
    case Disconnecting => p' == Disconnected
    case Disconnected => false
  }

  predicate Forward(c: Conn, c': Conn) {
    c'.loop == c.loop && (c'.phase == c.phase || Follows(c.phase, c'.phase)) && c'.destroyed >= c.destroyed
  }

  lemma CloseForward(s: State, k: Id, id: Id)
    requires k in s.conns && Open(s.conns[k]) && id in s.conns
    ensures id in CloseConn(s, k).conns && Forward(s.conns[id], CloseConn(s, k).conns[id])
  {
    hide Push;
  }

  lemma CallForward(s: State, t: Task, id: Id)
    requires t.id in s.conns && id in s.conns
    requires t.Establish? ==> s.conns[t.id].phase == Connecting
    requires t.Destroy? ==> s.conns[t.id].phase == Disconnected
    ensures id in Call(s, t).conns && Forward(s.conns[id], Call(s, t).conns[id])
  {
    hide Push, CloseConn;
    if t.ForceClose? && Open(s.conns[t.id]) {
      CloseForward(s, t.id, id);
    }
  }

  lemma AcceptForward(s: State, l: Loop, id: Id)
    requires id in s.conns && s.nextConnId !in s.conns
    ensures id in Next(s, Accept(l)).conns && Forward(s.conns[id], Next(s, Accept(l)).conns[id])
  {
    hide Push;
  }

  lemma OwnStepForward(s: State, a: Step, id: Id)
    requires a.Shutdown? || a.AskForceClose?
    requires Enabled(s, a) && id in s.conns
    ensures id in Next(s, a).conns && Forward(s.conns[id], Next(s, a).conns[id])
  {
    hide Push;
  }

  lemma StepForward(s: State, a: Step, id: Id)
    requires Inv(s) && Enabled(s, a) && id in s.conns
    ensures id in Next(s, a).conns && Forward(s.conns[id], Next(s, a).conns[id])
  {
    hide Inv, Waiting, Push, Pop, Queue, Ordered, CloseConn, Call, Put;
    StepKeepsInv(s, a);
    match a
    case Accept(l) => AcceptForward(s, l, id);
    case RunTask(l) => CallForward(s.(queues := Pop(s.queues, l)), Queue(s.queues, l)[0], id);
    case PeerCloses(k) => CloseForward(s, k, id);
    case Shutdown(_) => OwnStepForward(s, a, id);
    case AskForceClose(_) => OwnStepForward(s, a, id);
  }

  // The phases a connection goes through in a run, as far as it changes; none before it is
  // accepted.
  function Trail(s: State, run: seq<Step>, id: Id): seq<Phase>
    requires Possible(s, run)
    decreases |run|
  {
    var here := if id in s.conns then [s.conns[id].phase] else [];
    if run == [] then here
    else
      var later := Trail(Next(s, run[0]), run[1..], id);
      if here != [] && later != [] && later[0] == here[0] then later else here + later
  }

  // A connection comes into being connecting, or on the base loop connected.
  lemma StepNew(s: State, a: Step, id: Id)
    requires Enabled(s, a) && id !in s.conns && id in Next(s, a).conns
    ensures Next(s, a).conns[id].phase == Connecting || Next(s, a).conns[id].phase == Connected
  {
    hide Push, Pop;
  }

  // In every run it starts so and only ever moves on.
  lemma {:induction false} TrailForward(s: State, run: seq<Step>, id: Id)
    requires Inv(s) && Possible(s, run)
    ensures var t := Trail(s, run, id);
      && (forall i :: 0 <= i < |t| - 1 ==> Follows(t[i], t[i + 1]))
      && (if id in s.conns then t != [] && t[0] == s.conns[id].phase
          else t != [] ==> t[0] == Connecting || t[0] == Connected)
    decreases |run|
  {
    hide Inv, Next, Enabled;
    if run != [] {
      var s' := Next(s, run[0]);
      StepKeepsInv(s, run[0]);
      TrailForward(s', run[1..], id);
      if id in s.conns {
        StepForward(s, run[0], id);
      } else if id in s'.conns {
        StepNew(s, run[0], id);
      }
    }
  }

  // However the loops interleave: a connection is erased and destroyed at most once, and
  // only when disconnected; once destroyed it is not in the set and no loop has anything
  // more to do with it; and when no loop has anything left to do at all, a disconnected
  // connection has been erased and destroyed exactly once.
  lemma ErasedAndDestroyedOnce(run: seq<Step>, id: Id)
    requires Possible(INIT, run) && id in After(INIT, run).conns
    ensures var s := After(INIT, run);
      var c := s.conns[id];
      && c.destroyed <= c.erased <= 1
      && (c.erased == 0 <==> id in s.connections)
      && (c.erased == 1 ==> c.phase == Disconnected)
      && (c.destroyed == 1 ==> forall l, t: Task :: t in Queue(s.queues, l) ==> t.id != id)
      && ((forall l :: Queue(s.queues, l) == []) && c.phase == Disconnected ==> c.erased == c.destroyed == 1)
  {
    hide Possible, After;
    var s := After(INIT, run);
    StartsWell();
    RunKeepsInv(INIT, run);
    InvOf(s, id);
    if s.conns[id].destroyed == 1 {
      GoneForGood(s, id);
    }
  }

  // ----- and it does happen, if the loops go on running

  function Turns(run: seq<Step>, l: Loop): nat {
    if run == [] then 0 else One(run[0] == RunTask(l)) + Turns(run[1..], l)
  }

  // What a step leaves of a queue, at its front.
  lemma QueueAfter(s: State, a: Step, l: Loop)
    requires Enabled(s, a)
    ensures (if a == RunTask(l) then Queue(s.queues, l)[1..] else Queue(s.queues, l)) <= Queue(Next(s, a).queues, l)
  {
  }

  lemma {:induction false} StaysDestroyed(s: State, run: seq<Step>, id: Id)
    requires Inv(s) && Possible(s, run) && id in s.conns && s.conns[id].destroyed == 1
    ensures id in After(s, run).conns && After(s, run).conns[id].destroyed == 1
    decreases |run|
  {
    hide Inv, Next, Enabled;
    if run != [] {
      StepKeepsInv(s, run[0]);
      StepForward(s, run[0], id);
      AtMostOnce(Next(s, run[0]), id);
      StaysDestroyed(Next(s, run[0]), run[1..], id);
    }
  }

  lemma AtMostOnce(s: State, id: Id)
    requires Inv(s) && id in s.conns
    ensures s.conns[id].destroyed <= 1
  {
    InvOf(s, id);
  }

  // connectDestroyed() waiting at position i has been called once its loop has called i + 1
  // functors, whatever else happens meanwhile.
  lemma {:induction false} DestroyedInTurn(s: State, run: seq<Step>, id: Id, i: nat)
    requires Inv(s) && Possible(s, run) && id in s.conns
    requires i < |Queue(s.queues, s.conns[id].loop)| && Queue(s.queues, s.conns[id].loop)[i] == Destroy(id)
    requires Turns(run, s.conns[id].loop) > i
    ensures id in After(s, run).conns && After(s, run).conns[id].destroyed == 1
    decreases |run|
  {
    hide Inv, Enabled, Queue;
    var l, a := s.conns[id].loop, run[0];
    var s' := Next(s, a);
    StepKeepsInv(s, a);
    StepForward(s, a, id);
    QueueAfter(s, a, l);
    if a == RunTask(l) && i == 0 {
      AtMostOnce(s', id);
      StaysDestroyed(s', run[1..], id);
    } else {
      hide Next;
      DestroyedInTurn(s', run[1..], id, if a == RunTask(l) then i - 1 else i);
    }
  }

  // removeConnectionInLoop() waiting at position i on the base loop: once that has called
  // i + 1 functors the connection is out of the set.
  lemma {:induction false} ErasedInTurn(s: State, run: seq<Step>, id: Id, i: nat)
    requires Inv(s) && Possible(s, run) && id in s.conns
    requires i < |Queue(s.queues, BASE)| && Queue(s.queues, BASE)[i] == Remove(id)
    requires Turns(run, BASE) > i
    ensures id !in After(s, run).connections
    decreases |run|
  {
    hide Inv, Enabled, Queue;
    var a := run[0];
    var s' := Next(s, a);
    StepKeepsInv(s, a);
    StepForward(s, a, id);
    QueueAfter(s, a, BASE);
    if a == RunTask(BASE) && i == 0 {
      StaysErased(s', run[1..], id);
    } else {
      hide Next;
      ErasedInTurn(s', run[1..], id, if a == RunTask(BASE) then i - 1 else i);
    }
  }

  lemma {:induction false} StaysErased(s: State, run: seq<Step>, id: Id)
    requires Inv(s) && Possible(s, run) && id in s.conns && id !in s.connections
    ensures id !in After(s, run).connections
    decreases |run|
  {
    hide Inv;
    if run != [] {
      StepKeepsInv(s, run[0]);
      StepForward(s, run[0], id);
      InvOf(s, id);
      StaysErased(Next(s, run[0]), run[1..], id);
    }
  }

  // How many functors a loop with this queue calls until it has called t.
  function CallsUntil(tasks: seq<Task>, t: Task): nat {
    if t !in tasks then 0 else if tasks[0] == t then 1 else 1 + CallsUntil(tasks[1..], t)
  }

  lemma {:induction false} LastCallIs(tasks: seq<Task>, t: Task)
    requires t in tasks
    ensures 0 < CallsUntil(tasks, t) <= |tasks| && tasks[CallsUntil(tasks, t) - 1] == t
  {
    if tasks[0] != t {
      LastCallIs(tasks[1..], t);
    }
  }

  lemma {:induction false} StaysClosed(s: State, run: seq<Step>, id: Id)
    requires Inv(s) && Possible(s, run) && id in s.conns && s.conns[id].phase == Disconnected
    ensures Inv(After(s, run)) && id in After(s, run).conns
    ensures After(s, run).conns[id].phase == Disconnected && After(s, run).conns[id].loop == s.conns[id].loop
    decreases |run|
  {
    hide Inv, Next, Enabled;
    if run != [] {
      StepKeepsInv(s, run[0]);
      StepForward(s, run[0], id);
      StaysClosed(Next(s, run[0]), run[1..], id);
    }
  }

  // Out of the set once the base loop has called the removal, if that is still waiting.
  lemma ErasedOnTheWay(s: State, run: seq<Step>, id: Id)
    requires Inv(s) && Possible(s, run) && id in s.conns && s.conns[id].phase == Disconnected
    requires Turns(run, BASE) >= CallsUntil(Queue(s.queues, BASE), Remove(id))
    ensures id !in After(s, run).connections
  {
    hide Possible, After, Inv, Queue, CallsUntil, Turns;
    var tasks := Queue(s.queues, BASE);
    if Remove(id) in tasks {
      LastCallIs(tasks, Remove(id));
      ErasedInTurn(s, run, id, CallsUntil(tasks, Remove(id)) - 1);
    } else {
      InvOf(s, id);
      NotWaiting(s.queues, BASE, Remove(id));
      StaysErased(s, run, id);
    }
  }

  lemma NotWaiting(q: Queues, l: Loop, t: Task)
    ensures Waiting(q, l, t) == 0 <==> t !in Queue(q, l)
  {
  }

  // Destroyed once its own loop has called the destruction, if that is still waiting.
  lemma DestroyedOnTheWay(s: State, run: seq<Step>, id: Id)
    requires Inv(s) && Possible(s, run) && id in s.conns && s.conns[id].phase == Disconnected && id !in s.connections
    requires Turns(run, s.conns[id].loop) >= CallsUntil(Queue(s.queues, s.conns[id].loop), Destroy(id))
    ensures id in After(s, run).conns && After(s, run).conns[id].destroyed == 1
  {
    hide Possible, After, Inv, Queue, CallsUntil, Turns, Waiting;
    var l := s.conns[id].loop;
    var tasks := Queue(s.queues, l);
    InvOf(s, id);
    NotWaiting(s.queues, l, Destroy(id));
    if Destroy(id) in tasks {
      LastCallIs(tasks, Destroy(id));
      DestroyedInTurn(s, run, id, CallsUntil(tasks, Destroy(id)) - 1);
    } else {
      StaysDestroyed(s, run, id);
    }
  }

  // A closed connection comes to its end: once the base loop has called the functors up to
  // its removal, and after that its own loop those up to its destruction, it has been erased
  // and destroyed, once each, whatever else happens meanwhile.
  lemma ClosedIsDestroyed(s: State, first: seq<Step>, second: seq<Step>, id: Id)
    requires Inv(s) && id in s.conns && s.conns[id].phase == Disconnected
    requires Possible(s, first) && Possible(After(s, first), second)
    requires Turns(first, BASE) >= CallsUntil(Queue(s.queues, BASE), Remove(id))
    requires Turns(second, s.conns[id].loop) >=
      CallsUntil(Queue(After(s, first).queues, s.conns[id].loop), Destroy(id))
    ensures id !in After(s, first).connections
    ensures var s' := After(After(s, first), second);
      && id in s'.conns && id !in s'.connections && s'.conns[id].erased == s'.conns[id].destroyed == 1
      && forall l, t: Task :: t in Queue(s'.queues, l) ==> t.id != id
  {
    hide Possible, After, Inv, Queue, CallsUntil, Turns, Waiting;
    StaysClosed(s, first, id);
    ErasedOnTheWay(s, first, id);
    var between := After(s, first);
    DestroyedOnTheWay(between, second, id);
    StaysClosed(between, second, id);
    GoneForGood(After(between, second), id);
  }

  lemma GoneForGood(s: State, id: Id)
    requires Inv(s) && id in s.conns && s.conns[id].destroyed == 1
    ensures id !in s.connections && s.conns[id].erased == 1
    ensures forall l, t: Task :: t in Queue(s.queues, l) ==> t.id != id
  {
    InvOf(s, id);
    forall l, t: Task | t in Queue(s.queues, l)
      ensures t.id != id
    {
      NotWaiting(s.queues, l, t);
      assert t.id == id ==> Placed(s, l, t);
    }
  }

  // ----- what accepting, and asking for a close, lead to

  lemma {:induction false} StaysUp(s: State, run: seq<Step>, id: Id)
    requires Inv(s) && Possible(s, run) && id in s.conns && s.conns[id].phase != Connecting
    ensures id in After(s, run).conns && After(s, run).conns[id].phase != Connecting
    decreases |run|
  {
    hide Inv, Next, Enabled;
    if run != [] {
      StepKeepsInv(s, run[0]);
      StepForward(s, run[0], id);
      StaysUp(Next(s, run[0]), run[1..], id);
    }
  }

  // connectEstablished() waiting at position i has been called once its loop has called
  // i + 1 functors.
  lemma {:induction false} EstablishedInTurn(s: State, run: seq<Step>, id: Id, i: nat)
    requires Inv(s) && Possible(s, run) && id in s.conns
    requires i < |Queue(s.queues, s.conns[id].loop)| && Queue(s.queues, s.conns[id].loop)[i] == Establish(id)
    requires Turns(run, s.conns[id].loop) > i
    ensures id in After(s, run).conns && After(s, run).conns[id].phase != Connecting
    decreases |run|
  {
    hide Inv, Enabled, Queue;
    var l, a := s.conns[id].loop, run[0];
    var s' := Next(s, a);
    StepKeepsInv(s, a);
    StepForward(s, a, id);
    QueueAfter(s, a, l);
    if a == RunTask(l) && i == 0 {
      StaysUp(s', run[1..], id);
    } else {
      hide Next;
      EstablishedInTurn(s', run[1..], id, if a == RunTask(l) then i - 1 else i);
    }
  }

  // A connection that is accepted comes up: on the base loop at once, on another when that
  // loop has called what was queued on it.
  lemma AcceptedComesUp(s: State, l: Loop, run: seq<Step>)
    requires Inv(s)
    requires Possible(Next(s, Accept(l)), run)
    requires l != BASE ==> Turns(run, l) >= |Queue(Next(s, Accept(l)).queues, l)|
    ensures var s' := After(Next(s, Accept(l)), run);
      s.nextConnId in s'.conns && s'.conns[s.nextConnId].loop == l && s'.conns[s.nextConnId].phase != Connecting
  {
    hide Possible, After, Inv, Turns;
    var id, s' := s.nextConnId, Next(s, Accept(l));
    StepKeepsInv(s, Accept(l));
    if l == BASE {
      StaysUp(s', run, id);
    } else {
      EstablishedInTurn(s', run, id, |Queue(s'.queues, l)| - 1);
    }
    StaysOnLoop(s', run, id);
  }

  lemma {:induction false} StaysOnLoop(s: State, run: seq<Step>, id: Id)
    requires Inv(s) && Possible(s, run) && id in s.conns
    ensures id in After(s, run).conns && After(s, run).conns[id].loop == s.conns[id].loop
    decreases |run|
  {
    hide Inv, Next, Enabled;
    if run != [] {
      StepKeepsInv(s, run[0]);
      StepForward(s, run[0], id);
      StaysOnLoop(Next(s, run[0]), run[1..], id);
    }
  }

  lemma ForcedIsClosed(s: State, l: Loop, id: Id)
    requires Inv(s) && Enabled(s, RunTask(l)) && Queue(s.queues, l)[0] == ForceClose(id)
    ensures id in Next(s, RunTask(l)).conns && Next(s, RunTask(l)).conns[id].phase == Disconnected
  {
    hide Ordered, Push;
    InvOf(s, id);
    assert Waiting(s.queues, l, ForceClose(id)) > 0;
  }

  // forceCloseInLoop() waiting at position i has closed the connection once its loop has
  // called i + 1 functors.
  lemma {:induction false} ClosedInTurn(s: State, run: seq<Step>, id: Id, i: nat)
    requires Inv(s) && Possible(s, run) && id in s.conns
    requires i < |Queue(s.queues, s.conns[id].loop)| && Queue(s.queues, s.conns[id].loop)[i] == ForceClose(id)
    requires Turns(run, s.conns[id].loop) > i
    ensures id in After(s, run).conns && After(s, run).conns[id].phase == Disconnected
    decreases |run|
  {
    hide Inv, Enabled, Queue, Next;
    var l, a := s.conns[id].loop, run[0];
    var s' := Next(s, a);
    StepKeepsInv(s, a);
    StepForward(s, a, id);
    QueueAfter(s, a, l);
    if a == RunTask(l) && i == 0 {
      ForcedIsClosed(s, l, id);
      StaysClosed(s', run[1..], id);
    } else {
      ClosedInTurn(s', run[1..], id, if a == RunTask(l) then i - 1 else i);
    }
  }

  // An open connection that is forced to close is no longer up at once, and closed when its
  // loop has called what is queued on it by then.
  lemma ForceCloseCloses(s: State, id: Id, run: seq<Step>)
    requires Inv(s) && id in s.conns && Open(s.conns[id])
    requires Possible(Next(s, AskForceClose(id)), run)
    requires Turns(run, s.conns[id].loop) >= |Queue(Next(s, AskForceClose(id)).queues, s.conns[id].loop)|
    ensures Next(s, AskForceClose(id)).conns[id].phase == Disconnecting
    ensures var s' := After(Next(s, AskForceClose(id)), run); id in s'.conns && s'.conns[id].phase == Disconnected
  {
    hide Possible, After, Inv, Turns;
    var s' := Next(s, AskForceClose(id));
    StepKeepsInv(s, AskForceClose(id));
    ClosedInTurn(s', run, id, |Queue(s'.queues, s.conns[id].loop)| - 1);
  }

  // The peer's close closes it at once, and shutdown() ends what may be sent.
  lemma CloseAndShutdown(s: State, id: Id)
    requires Inv(s) && id in s.conns
    ensures Enabled(s, PeerCloses(id)) ==> Next(s, PeerCloses(id)).conns[id].phase == Disconnected
    ensures var p, p' := s.conns[id].phase, Next(s, Shutdown(id)).conns[id].phase;
      if p == Connected then p' == Disconnecting else p' == p
  {
    hide Ordered, Push;
    InvOf(s, id);
  }
}
