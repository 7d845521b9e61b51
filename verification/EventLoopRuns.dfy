/** The event loop's task queue as interleaved steps of the loop thread and of any number
    of other threads. Pushing a functor and writing the eventfd are separate steps, so
    anything may happen between them. */
module EventLoopRuns {

  type Functor = nat
  type Thread = nat

  // Where the loop thread is.
  datatype Pc =
    | Idle                    // not in loop(): before it, or after it returned
    | Top                     // about to test m_quit
    | Polling                 // in poll(), which has no timeout
    | Handling(wake: bool)    // in the handlers; wake: the eventfd's is still to run
    | Swapping                // in doPendingFunctors(), before the lock
    | Running                 // calling the functors of the batch

  datatype State = State(
    pc: Pc,
    quit: bool,
    calling: bool,            // m_callingPendingFunctors
    pending: seq<Functor>,    // m_pendingFunctors
    batch: seq<Functor>,      // functors swapped out and not called yet
    counter: nat,             // the eventfd
    owing: set<Thread>,       // other threads between their push (or quit) and its wakeup
    loopOwes: bool,           // the loop thread is there too
    pushed: seq<Functor>,     // every functor ever queued, in order
    executed: seq<Functor>,   // every functor ever called, in order
    early: bool,              // a pending functor was queued by the loop thread outside loop()
    mark: nat                 // how many were queued when poll() was last entered
  )

  datatype Step =
    | StartLoop
    | TestQuit
    | PollReturns(wake: bool)
    | HandleRead
    | HandlersDone
    | SwapFunctors
    | CallFunctor
    | BatchDone
    | LoopQueues(f: Functor)
    | LoopWrites
    | LoopQuits
    | OtherQueues(t: Thread, g: Functor)
    | OtherQuits(t: Thread)
    | OtherWrites(t: Thread)

  const MAX_COUNTER: nat := 0xffff_ffff_ffff_fffe

  // Adding 1 to the eventfd fails, and changes nothing, only when it is at its maximum.
  function Bump(c: nat): (r: nat)
    ensures r > 0
  {
    if c < MAX_COUNTER then c + 1 else c
  }

  const Init := State(Idle, false, false, [], [], 0, {}, false, [], [], false, 0)

  predicate Enabled(s: State, a: Step) {
    match a
    case StartLoop => s.pc == Idle
    case TestQuit => s.pc == Top
    case PollReturns(wake) => s.pc == Polling && (wake ==> s.counter > 0)
    case HandleRead => s.pc == Handling(true)
    case HandlersDone => s.pc == Handling(false)
    case SwapFunctors => s.pc == Swapping
    case CallFunctor => s.pc == Running && s.batch != [] && !s.loopOwes
    case BatchDone => s.pc == Running && s.batch == [] && !s.loopOwes
    case LoopQueues(_) => (s.pc.Idle? || s.pc.Handling? || s.pc.Running?) && !s.loopOwes
    case LoopWrites => s.loopOwes
    case LoopQuits => (s.pc.Handling? || s.pc.Running?) && !s.loopOwes
    case OtherQueues(t, _) => t !in s.owing
    case OtherQuits(t) => !s.pc.Idle? && t !in s.owing
    case OtherWrites(t) => t in s.owing
  }

  function Next(s: State, a: Step): State
    requires Enabled(s, a)
  {
    match a
    case StartLoop => s.(pc := Top, quit := false)
    case TestQuit => if s.quit then s.(pc := Idle) else s.(pc := Polling, mark := |s.pushed|)
    case PollReturns(wake) => s.(pc := Handling(wake))
    case HandleRead => s.(pc := Handling(false), counter := 0)
    case HandlersDone => s.(pc := Swapping, calling := true)
    case SwapFunctors => s.(pc := Running, batch := s.pending, pending := [], early := false)
    case CallFunctor => s.(batch := s.batch[1..], executed := s.executed + [s.batch[0]])
    case BatchDone => s.(pc := Top, calling := false)
    case LoopQueues(f) =>
      s.(pending := s.pending + [f], pushed := s.pushed + [f], loopOwes := s.calling,
         early := s.early || s.pc.Idle?)
    case LoopWrites => s.(loopOwes := false, counter := Bump(s.counter))
    case LoopQuits => s.(quit := true)
    case OtherQueues(t, f) => s.(pending := s.pending + [f], pushed := s.pushed + [f], owing := s.owing + {t})
    case OtherQuits(t) => s.(quit := true, owing := s.owing + {t})
    case OtherWrites(t) => s.(owing := s.owing - {t}, counter := Bump(s.counter))
  }

  predicate Possible(s: State, run: seq<Step>)
    decreases |run|
  {
    run == [] || (Enabled(s, run[0]) && Possible(Next(s, run[0]), run[1..]))
  }

  function After(s: State, run: seq<Step>): State
    requires Possible(s, run)
    decreases |run|
  {
    if run == [] then s else After(Next(s, run[0]), run[1..])
  }

  // Some write to the eventfd has been made or is sure to come.
  predicate WakeupComes(s: State) {
    s.counter > 0 || s.owing != {} || s.loopOwes
  }

  ghost predicate Inv(s: State) {
    && s.pushed == s.executed + s.batch + s.pending
    && (s.batch != [] ==> s.pc == Running)
    && (s.loopOwes ==> s.pc == Running)
    && (s.calling <==> s.pc == Swapping || s.pc == Running)
    && (s.pending != [] && !s.pc.Handling? && s.pc != Swapping ==> WakeupComes(s) || s.early)
    && (s.quit && s.pc == Polling ==> WakeupComes(s))
    && s.mark <= |s.executed| + |s.batch| +
                 (if s.pc == Polling || s.pc.Handling? || s.pc == Swapping then |s.pending| else 0)
  }

  lemma StepKeepsInv(s: State, a: Step)
    requires Inv(s) && Enabled(s, a)
    ensures Inv(Next(s, a))
  {
    StreamIsKept(s, a);
    WakeupStaysOwed(s, a);
    MarkIsReached(s, a);
    hide WakeupComes;
  }

  lemma WakeupStaysOwed(s: State, a: Step)
    requires Inv(s) && Enabled(s, a)
    ensures var s' := Next(s, a);
      && (s'.pending != [] && !s'.pc.Handling? && s'.pc != Swapping ==> WakeupComes(s') || s'.early)
      && (s'.quit && s'.pc == Polling ==> WakeupComes(s'))
  {
  }

  lemma MarkIsReached(s: State, a: Step)
    requires Inv(s) && Enabled(s, a)
    ensures var s' := Next(s, a);
      s'.mark <= |s'.executed| + |s'.batch| +
                 if s'.pc == Polling || s'.pc.Handling? || s'.pc == Swapping then |s'.pending| else 0
  {
    hide WakeupComes;
  }

  lemma StreamIsKept(s: State, a: Step)
    requires Inv(s) && Enabled(s, a)
    ensures var s' := Next(s, a); s'.pushed == s'.executed + s'.batch + s'.pending
  {
    hide WakeupComes;
    if a.CallFunctor? {
      assert s.executed + s.batch == (s.executed + [s.batch[0]]) + s.batch[1..];
    }
  }

  lemma {:induction false} RunKeepsInv(s: State, run: seq<Step>)
    requires Inv(s) && Possible(s, run)
    ensures Inv(After(s, run))
    decreases |run|
  {
    if run != [] {
      StepKeepsInv(s, run[0]);
      RunKeepsInv(Next(s, run[0]), run[1..]);
    }
  }

  // Blocked for good: there is work or a request to stop, and nobody is left to say so.
  predicate Hangs(s: State) {
    s.pc == Polling && (s.pending != [] || s.quit) && !WakeupComes(s)
  }

  // The loop thread queues functors only from inside loop().
  predicate QueuesInLoopOnly(s: State, run: seq<Step>)
    requires Possible(s, run)
    decreases |run|
  {
    run == [] ||
    (!(run[0].LoopQueues? && s.pc == Idle) && QueuesInLoopOnly(Next(s, run[0]), run[1..]))
  }

  lemma {:induction false} NeverEarly(s: State, run: seq<Step>)
    requires Possible(s, run) && QueuesInLoopOnly(s, run) && !s.early
    ensures !After(s, run).early
    decreases |run|
  {
    if run != [] {
      NeverEarly(Next(s, run[0]), run[1..]);
    }
  }

  lemma NoLostWakeup(run: seq<Step>)
    requires Possible(Init, run) && QueuesInLoopOnly(Init, run)
    ensures !Hangs(After(Init, run))
  {
    RunKeepsInv(Init, run);
    NeverEarly(Init, run);
  }

  // Queueing from the loop thread outside loop() does not write the eventfd, and the first
  // poll then blocks exactly when no wakeup is there and no other thread owes one.
  lemma EarlyQueueHangs(s: State, f: Functor)
    requires Inv(s) && s.pc == Idle
    ensures var queued := Next(s, LoopQueues(f));
            Hangs(Next(Next(queued, StartLoop), TestQuit)) <==> s.counter == 0 && s.owing == {}
  {
  }

  // Functors are called in the order they were queued, each at most once, and by the time
  // loop() is back at its test all those queued before the last poll have been called.
  lemma CalledInOrder(run: seq<Step>)
    requires Possible(Init, run)
    ensures var s := After(Init, run);
            && s.executed <= s.pushed
            && s.pushed == s.executed + s.batch + s.pending
            && (s.pc == Top ==> s.mark <= |s.executed|)
  {
    RunKeepsInv(Init, run);
  }

  lemma Prepend(s: State, a: Step, run: seq<Step>)
    requires Enabled(s, a) && Possible(Next(s, a), run)
    ensures Possible(s, [a] + run) && After(s, [a] + run) == After(Next(s, a), run)
  {
    assert ([a] + run)[1..] == run;
  }

  // What the loop thread does of its own accord in one turn.
  predicate LoopTurn(a: Step) {
    a == PollReturns(true) || a.HandleRead? || a.HandlersDone? || a.SwapFunctors? || a.CallFunctor? || a.BatchDone?
  }

  // Calls the rest of the batch and ends it.
  lemma {:induction false} FinishBatch(s: State) returns (run: seq<Step>)
    requires s.pc == Running && !s.loopOwes
    ensures Possible(s, run)
    ensures forall a :: a in run ==> LoopTurn(a)
    ensures After(s, run) == s.(pc := Top, calling := false, batch := [], executed := s.executed + s.batch)
    decreases |s.batch|
  {
    if s.batch == [] {
      run := [BatchDone];
      assert run[1..] == [];
    } else {
      var rest := FinishBatch(Next(s, CallFunctor));
      run := [CallFunctor] + rest;
      assert run[1..] == rest;
      assert s.executed + [s.batch[0]] + s.batch[1..] == s.executed + s.batch;
    }
  }

  // With the eventfd readable, one turn of the loop calls everything that is queued, and
  // leaves the eventfd as it is before any wakeup.
  lemma OneTurnDrains(s: State) returns (run: seq<Step>)
    requires Inv(s) && s.pc == Polling && s.counter > 0
    ensures Possible(s, run) && After(s, run).pc == Top && After(s, run).executed == s.pushed
    ensures After(s, run).counter == 0
    ensures forall a :: a in run ==> LoopTurn(a)
  {
    var s1 := Next(s, PollReturns(true));
    var s2 := Next(s1, HandleRead);
    var s3 := Next(s2, HandlersDone);
    run := FinishBatch(Next(s3, SwapFunctors));
    Prepend(s3, SwapFunctors, run);
    run := [SwapFunctors] + run;
    Prepend(s2, HandlersDone, run);
    run := [HandlersDone] + run;
    Prepend(s1, HandleRead, run);
    run := [HandleRead] + run;
    Prepend(s, PollReturns(true), run);
    run := [PollReturns(true)] + run;
  }

  function Writes(run: seq<Step>): nat {
    if run == [] then 0 else (if run[0].OtherWrites? then 1 else 0) + Writes(run[1..])
  }

  lemma {:induction false} NoWrites(run: seq<Step>)
    requires forall a :: a in run ==> LoopTurn(a)
    ensures Writes(run) == 0 && StartLoop !in run
  {
    if run != [] {
      assert LoopTurn(run[0]);
      NoWrites(run[1..]);
    }
  }

  // So a loop that polls and does not hang needs nothing from outside but the wakeup that
  // is owed to it to call all its functors.
  lemma PollingIsNotForever(s: State) returns (run: seq<Step>)
    requires Inv(s) && s.pc == Polling && s.pending != [] && !Hangs(s)
    ensures Possible(s, run) && After(s, run).pc == Top && After(s, run).executed == s.pushed
    ensures Writes(run) == if s.counter > 0 then 0 else 1
    ensures forall a :: a in run ==> LoopTurn(a) || a.OtherWrites?
  {
    if s.counter > 0 {
      run := OneTurnDrains(s);
      NoWrites(run);
    } else {
      var t :| t in s.owing;
      run := OneTurnDrains(Next(s, OtherWrites(t)));
      NoWrites(run);
      Prepend(s, OtherWrites(t), run);
      assert ([OtherWrites(t)] + run)[1..] == run;
      run := [OtherWrites(t)] + run;
    }
  }

  // ----- a request to quit

  predicate AsksToQuit(a: Step) {
    a.LoopQuits? || a.OtherQuits?
  }

  // Poll is not entered in this run.
  predicate PollsNoMore(s: State, run: seq<Step>)
    requires Possible(s, run)
    decreases |run|
  {
    run == [] ||
    ((Next(s, run[0]).pc == Polling ==> s.pc == Polling) && PollsNoMore(Next(s, run[0]), run[1..]))
  }

  lemma {:induction false} QuitStays(s: State, run: seq<Step>)
    requires Possible(s, run) && s.quit && StartLoop !in run
    ensures After(s, run).quit && PollsNoMore(s, run)
    decreases |run|
  {
    if run != [] {
      QuitStays(Next(s, run[0]), run[1..]);
    }
  }

  // Whoever asks, and whatever happens then short of another call of loop(): poll is not
  // entered again, and the next test of the flag leads out of loop().
  lemma QuitIsHeard(s: State, a: Step, run: seq<Step>)
    requires AsksToQuit(a) && Enabled(s, a) && Possible(Next(s, a), run) && StartLoop !in run
    ensures PollsNoMore(Next(s, a), run)
    ensures var s' := After(Next(s, a), run); Enabled(s', TestQuit) ==> Next(s', TestQuit).pc == Idle
  {
    QuitStays(Next(s, a), run);
  }

  lemma {:induction false} Append(s: State, run: seq<Step>, a: Step)
    requires Possible(s, run) && Enabled(After(s, run), a)
    ensures Possible(s, run + [a]) && After(s, run + [a]) == Next(After(s, run), a)
    ensures Writes(run + [a]) == Writes(run) + if a.OtherWrites? then 1 else 0
    decreases |run|
  {
    if run == [] {
      assert [] + [a] == [a] && [a][1..] == [];
    } else {
      assert (run + [a])[1..] == run[1..] + [a];
      Append(Next(s, run[0]), run[1..], a);
    }
  }

  lemma {:induction false} GoesOn(s: State, run: seq<Step>)
    requires Possible(s, run) && s.pc != Idle && !s.quit && forall a :: a in run ==> !AsksToQuit(a)
    ensures After(s, run).pc != Idle && !After(s, run).quit
    decreases |run|
  {
    if run != [] {
      assert run[0] in run;
      GoesOn(Next(s, run[0]), run[1..]);
    }
  }

  // Until somebody asks, loop() is not left, and each test of the flag leads into poll; what
  // was asked before it was called counts for nothing.
  lemma RunsUntilAsked(s: State, run: seq<Step>)
    requires Enabled(s, StartLoop) && Possible(Next(s, StartLoop), run) && forall a :: a in run ==> !AsksToQuit(a)
    ensures var s' := After(Next(s, StartLoop), run);
      s'.pc != Idle && (Enabled(s', TestQuit) ==> Next(s', TestQuit).pc == Polling)
  {
    GoesOn(Next(s, StartLoop), run);
  }

  // One that comes while the loop is in poll ends it: after one owed write, if the eventfd
  // is not readable yet, the loop's own turn leads out of loop(), all functors called.
  lemma QuitEndsLoop(s: State) returns (run: seq<Step>)
    requires Inv(s) && s.pc == Polling && s.quit
    ensures Possible(s, run) && After(s, run).pc == Idle && After(s, run).executed == s.pushed
    ensures Writes(run) == if s.counter > 0 then 0 else 1
    ensures forall a :: a in run ==> LoopTurn(a) || a.OtherWrites? || a.TestQuit?
    decreases s.counter == 0
  {
    if s.counter > 0 {
      run := OneTurnDrains(s);
      NoWrites(run);
      QuitStays(s, run);
      Append(s, run, TestQuit);
      run := run + [TestQuit];
    } else {
      var t :| t in s.owing;
      StepKeepsInv(s, OtherWrites(t));
      run := QuitEndsLoop(Next(s, OtherWrites(t)));
      Prepend(s, OtherWrites(t), run);
      assert ([OtherWrites(t)] + run)[1..] == run;
      run := [OtherWrites(t)] + run;
    }
  }
}
