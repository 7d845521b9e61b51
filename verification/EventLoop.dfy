/** EventLoop: the shared fields, and one method for each step a thread makes on them without
    another thread coming in between. Each is proved to be the step of EventLoopRuns. */
module EventLoop {
  import opened EventLoopRuns

  datatype Caller = LoopThread | Other(t: Thread)

  class EventLoop {
    var looping: bool
    var quit: bool
    var callingPendingFunctors: bool
    var pendingFunctors: seq<Functor>
    var wakeupFd: nat
    var functors: seq<Functor>      // the vector local to doPendingFunctors()
    var i: nat                      // and its loop index
    ghost var pc: Pc
    ghost var owing: set<Thread>
    ghost var loopOwes: bool
    ghost var pushed: seq<Functor>
    ghost var executed: seq<Functor>
    ghost var early: bool
    ghost var mark: nat

    ghost predicate Valid()
      reads this
    {
      i <= |functors| && (looping <==> pc != Idle) && Inv(View())
    }

    ghost function View(): State
      reads this
      requires i <= |functors|
    {
      State(pc, quit, callingPendingFunctors, pendingFunctors, functors[i..], wakeupFd,
            owing, loopOwes, pushed, executed, early, mark)
    }

    constructor ()
      ensures Valid() && View() == Init
    {
      looping, quit, callingPendingFunctors := false, false, false;
      pendingFunctors, functors, i, wakeupFd := [], [], 0, 0;
      pc, owing, loopOwes, pushed, executed, early, mark := Idle, {}, false, [], [], false, 0;
    }

    // loop(), up to its while; the assertion of the source is !looping.
    method LoopStart()
      requires Valid() && !looping
      modifies this
      ensures Valid() && View() == Next(old(View()), StartLoop)
    {
      StepKeepsInv(View(), StartLoop);
      quit := false;
      looping := true;
      pc := Top;
    }

    method LoopTest() returns (goOn: bool)
      requires Valid() && Enabled(View(), TestQuit)
      modifies this
      ensures Valid() && View() == Next(old(View()), TestQuit) && (goOn <==> looping)
    {
      StepKeepsInv(View(), TestQuit);
      goOn := !quit;
      if goOn {
        pc, mark := Polling, |pushed|;
      } else {
        looping := false;
        pc := Idle;
      }
    }

    method LoopPolled(wake: bool)
      requires Valid() && Enabled(View(), PollReturns(wake))
      modifies this
      ensures Valid() && View() == Next(old(View()), PollReturns(wake))
    {
      StepKeepsInv(View(), PollReturns(wake));
      pc := Handling(wake);
    }

    method HandleRead()
      requires Valid() && Enabled(View(), Step.HandleRead)
      modifies this
      ensures Valid() && View() == Next(old(View()), Step.HandleRead)
    {
      StepKeepsInv(View(), Step.HandleRead);
      wakeupFd := 0;
      pc := Handling(false);
    }

    // doPendingFunctors(), in its four parts
    method DoPendingStart()
      requires Valid() && Enabled(View(), HandlersDone)
      modifies this
      ensures Valid() && View() == Next(old(View()), HandlersDone)
    {
      StepKeepsInv(View(), HandlersDone);
      functors, i := [], 0;
      callingPendingFunctors := true;
      pc := Swapping;
    }

    method DoPendingSwap()
      requires Valid() && Enabled(View(), SwapFunctors)
      modifies this
      ensures Valid() && View() == Next(old(View()), SwapFunctors)
    {
      StepKeepsInv(View(), SwapFunctors);
      functors, pendingFunctors, i := pendingFunctors, [], 0;
      pc, early := Running, false;
    }

    method DoPendingCall() returns (f: Functor)
      requires Valid() && Enabled(View(), CallFunctor)
      modifies this
      ensures Valid() && View() == Next(old(View()), CallFunctor)
      ensures f == old(View()).batch[0]
    {
      StepKeepsInv(View(), CallFunctor);
      f := functors[i];
      i := i + 1;
      executed := executed + [f];
    }

    method DoPendingEnd()
      requires Valid() && Enabled(View(), BatchDone)
      modifies this
      ensures Valid() && View() == Next(old(View()), BatchDone)
    {
      StepKeepsInv(View(), BatchDone);
      callingPendingFunctors := false;
      pc := Top;
    }

    // queueInLoop(), under the lock: the push, and whether wakeup() follows
    method QueueInLoop(caller: Caller, f: Functor) returns (wakes: bool)
      requires Valid()
      requires Enabled(View(), if caller.LoopThread? then LoopQueues(f) else OtherQueues(caller.t, f))
      modifies this
      ensures Valid()
      ensures View() == Next(old(View()), if caller.LoopThread? then LoopQueues(f) else OtherQueues(caller.t, f))
      ensures wakes <==> if caller.LoopThread? then loopOwes else caller.t in owing
    {
      StepKeepsInv(View(), if caller.LoopThread? then LoopQueues(f) else OtherQueues(caller.t, f));
      pendingFunctors := pendingFunctors + [f];
      pushed := pushed + [f];
      wakes := !caller.LoopThread? || callingPendingFunctors;
      if caller.LoopThread? {
        early := early || pc.Idle?;
        loopOwes := wakes;
      } else {
        owing := owing + {caller.t};
      }
    }

    method Wakeup(caller: Caller)
      requires Valid()
      requires Enabled(View(), if caller.LoopThread? then LoopWrites else OtherWrites(caller.t))
      modifies this
      ensures Valid()
      ensures View() == Next(old(View()), if caller.LoopThread? then LoopWrites else OtherWrites(caller.t))
    {
      StepKeepsInv(View(), if caller.LoopThread? then LoopWrites else OtherWrites(caller.t));
      wakeupFd := Bump(wakeupFd);
      if caller.LoopThread? {
        loopOwes := false;
      } else {
        owing := owing - {caller.t};
      }
    }

    // quit(), up to its wakeup(); the assertion of the source is looping.
    method Quit(caller: Caller) returns (wakes: bool)
      requires Valid() && looping
      requires Enabled(View(), if caller.LoopThread? then LoopQuits else OtherQuits(caller.t))
      modifies this
      ensures Valid()
      ensures View() == Next(old(View()), if caller.LoopThread? then LoopQuits else OtherQuits(caller.t))
      ensures quit && (wakes <==> !caller.LoopThread?) && (wakes ==> caller.t in owing)
    {
      StepKeepsInv(View(), if caller.LoopThread? then LoopQuits else OtherQuits(caller.t));
      quit := true;
      wakes := !caller.LoopThread?;
      if wakes {
        owing := owing + {caller.t};
      }
    }
  }
}
