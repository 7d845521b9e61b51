/** TimerQueue: two ordered indexes over the same timers, their expiry in batches, and the
    timerfd that is armed for the earliest of them. Times are microseconds. */
module TimerQueue {
  import opened Timers
  import opened Optional

  // The timerfd was set at time at to become readable at time deadline.
  datatype Arming = Arming(at: int, deadline: int)

  // One callback: the timer's sequence number, the reading of the clock that found it
  // expired, the expiration it had, and its interval, in seconds and in microseconds.
  datatype Run = Run(id: int, at: int, due: int, interval: real, delta: int)

  datatype Action =
    | AddTimer(when: int, interval: real, clock: int, recycled: bool)
    | CancelTimer(id: int)

  const MICROS_PER_SECOND := 1000000

  // What timerfd_settime is given: whole seconds and nanoseconds.
  function HowMuchTimeFromNow(when: int, clock: int): (ts: (int, int))
    ensures 0 <= ts.1 < 1000000000 && ts.1 % 1000 == 0
    ensures var us := ts.0 * MICROS_PER_SECOND + ts.1 / 1000;
            us >= 100 && us >= when - clock && (us == 100 || us == when - clock)
  {
    var us := if when - clock < 100 then 100 else when - clock;
    (us / MICROS_PER_SECOND, us % MICROS_PER_SECOND * 1000)
  }

  // Armed in time for every timer, or for 100 microseconds after it was set.
  ghost predicate ArmedFor(timers: set<Entry>, armed: Option<Arming>) {
    timers != {} ==>
      && armed.Some?
      && forall e :: e in timers ==> armed.value.deadline <= e.0 || armed.value.deadline <= armed.value.at + 100
  }

  // Inside the handler this much is kept for timers that have no valid expiration.
  ghost predicate ArmedForInvalid(timers: set<Entry>, armed: Option<Arming>) {
    (exists e :: e in timers && e.0 <= 0) ==> ArmedFor(timers, armed)
  }

  // The time a timer must let pass between two callbacks.
  function Gap(interval: real): (g: int)
    ensures g >= 0
  {
    if interval > 0.0 then Micros(interval) else 0
  }

  ghost predicate Punctual(live: set<Timer>, runs: seq<Run>)
    reads live
  {
    forall t, i :: t in live && 0 <= i < |runs| && runs[i].id == t.sequence ==>
      runs[i].delta == Gap(t.interval) && runs[i].at + runs[i].delta <= t.expiration
  }

  ghost predicate RanBy(done: set<Timer>, runs: seq<Run>, now: int)
    reads done
  {
    forall t, i :: t in done && 0 <= i < |runs| && runs[i].id == t.sequence ==>
      runs[i].delta == Gap(t.interval) && runs[i].at <= now
  }

  // owned is the ids of the timers now in the queue's hands. Each timer ever created is
  // owned or deleted and not both, and no sequence number is used twice.
  ghost predicate Accounted(owned: set<ActiveTimer>, freed: set<Timer>, ids: map<int, Timer>, dead: set<int>, n: int) {
    && (forall i :: i in ids <==> 1 <= i <= n) && n >= 0
    && (forall a :: a in owned ==> a.1 in ids && ids[a.1] == a.0 && a.1 !in dead && a.0 !in freed)
    && (forall a, b :: a in owned && b in owned && a.0 == b.0 ==> a == b)
    && (forall i :: i in ids && i !in dead ==> (ids[i], i) in owned)
    && dead <= ids.Keys
  }

  lemma NextId(owned: set<ActiveTimer>, freed: set<Timer>, ids: map<int, Timer>, dead: set<int>, n: int)
    requires Accounted(owned, freed, ids, dead, n)
    ensures n + 1 !in ids
  {
  }

  lemma AccountedNew(owned: set<ActiveTimer>, freed: set<Timer>, ids: map<int, Timer>, dead: set<int>, n: int,
                     t: Timer, freed': set<Timer>)
    requires Accounted(owned, freed, ids, dead, n)
    requires (forall a :: a in owned ==> a.0 != t) && freed' == freed - {t}
    ensures Accounted(owned + {(t, n + 1)}, freed', ids[n + 1 := t], dead, n + 1)
  {
  }

  lemma AccountedDelete(owned: set<ActiveTimer>, freed: set<Timer>, ids: map<int, Timer>, dead: set<int>,
                      n: int, a: ActiveTimer)
    requires Accounted(owned, freed, ids, dead, n) && a in owned
    ensures Accounted(owned - {a}, freed + {a.0}, ids, dead + {a.1}, n)
    ensures a.1 !in dead && a.0 !in freed
  {
  }

  ghost predicate Regular(s: set<Timer>)
    reads s
  {
    forall t :: t in s ==> t.repeat == (t.interval > 0.0)
  }

  // No callback ran before its time, and two of the same timer are an interval apart.
  ghost predicate Spaced(runs: seq<Run>, n: int) {
    && (forall i :: 0 <= i < |runs| ==> 1 <= runs[i].id <= n && runs[i].due <= runs[i].at)
    && (forall i :: 0 <= i < |runs| && runs[i].interval > 0.0 ==> WholeMicros(runs[i].delta, runs[i].interval))
    && (forall i, j :: 0 <= i < j < |runs| && runs[i].id == runs[j].id ==>
          runs[i].at + runs[i].delta <= runs[j].at)
  }

  lemma StillArmed(timers: set<Entry>, armed: Option<Arming>, e: Entry, d: Entry)
    requires d in timers && d.0 <= e.0
    ensures ArmedFor(timers, armed) ==> ArmedFor(timers + {e}, armed)
    ensures ArmedForInvalid(timers, armed) ==> ArmedForInvalid(timers + {e}, armed)
  {
  }

  lemma StillArmedForValid(timers: set<Entry>, armed: Option<Arming>, e: Entry)
    requires e.0 > 0
    ensures ArmedForInvalid(timers, armed) ==> ArmedForInvalid(timers + {e}, armed)
  {
  }

  lemma NewlyArmed(timers: set<Entry>, armed: Option<Arming>, e: Entry)
    requires forall d :: d in timers ==> e.0 < d.0
    requires armed.Some? && (armed.value.deadline <= e.0 || armed.value.deadline == armed.value.at + 100)
    ensures ArmedFor(timers + {e}, armed) && ArmedForInvalid(timers + {e}, armed)
  {
  }

  // ----- what a batch of callbacks does, on ids alone

  // The ids pending, how many were ever made, the ids cancelled, when and how often the
  // timers added are to run, and whether no pending timer was cancelled.
  datatype Plan = Plan(pending: set<int>, created: int, cancelled: set<int>, added: map<int, (int, real)>, ok: bool)

  function Act(p: Plan, a: Action): Plan {
    match a
    case AddTimer(when, interval, _, _) =>
      var n := p.created + 1;
      p.(pending := p.pending + {n}, created := n, added := p.added[n := (when, interval)])
    case CancelTimer(n) =>
      if n in p.pending then p.(ok := false)
      else if 1 <= n <= p.created then p.(cancelled := p.cancelled + {n})
      else p
  }

  // Nothing more is done after a cancel of a pending timer.
  function ActAll(p: Plan, actions: seq<Action>): Plan {
    if actions == [] then p
    else
      var q := ActAll(p, actions[..|actions| - 1]);
      if q.ok then Act(q, actions[|actions| - 1]) else q
  }

  function ScriptAt(scripts: seq<seq<Action>>, k: nat): seq<Action> {
    if k < |scripts| then scripts[k] else []
  }

  // All that the first k callbacks do, one after the other.
  function Script(scripts: seq<seq<Action>>, k: nat): seq<Action> {
    if k == 0 then [] else Script(scripts, k - 1) + ScriptAt(scripts, k - 1)
  }

  lemma ActOneMore(p: Plan, actions: seq<Action>, a: Action)
    ensures var q := ActAll(p, actions);
      ActAll(p, actions + [a]) == if q.ok then Act(q, a) else q
  {
    assert (actions + [a])[..|actions|] == actions;
  }

  // A plan that has failed stays as it is.
  lemma {:induction false} ActStops(p: Plan, actions: seq<Action>, more: seq<Action>)
    requires !ActAll(p, actions).ok
    ensures ActAll(p, actions + more) == ActAll(p, actions)
  {
    if more == [] {
      assert actions + more == actions;
    } else {
      var n := |more| - 1;
      ActStops(p, actions, more[..n]);
      assert actions + more == actions + more[..n] + [more[n]];
      ActOneMore(p, actions + more[..n], more[n]);
    }
  }

  function Adds(actions: seq<Action>): nat {
    if actions == [] then 0
    else Adds(actions[..|actions| - 1]) + if actions[|actions| - 1].AddTimer? then 1 else 0
  }

  lemma {:induction false} AddsUpTo(actions: seq<Action>)
    ensures forall i :: 0 <= i < |actions| ==>
      Adds(actions[..i]) + (if actions[i].AddTimer? then 1 else 0) <= Adds(actions)
  {
    if actions != [] {
      var before := actions[..|actions| - 1];
      AddsUpTo(before);
      forall i | 0 <= i < |before|
        ensures before[i] == actions[i] && before[..i] == actions[..i]
      {
      }
    }
  }

  // The cancel at position i names a timer that was pending before or has been added since.
  predicate CancelsPending(p: Plan, actions: seq<Action>, i: nat)
    requires i < |actions|
  {
    actions[i].CancelTimer? &&
    (actions[i].id in p.pending || p.created < actions[i].id <= p.created + Adds(actions[..i]))
  }

  // The cancel at position i names an id that has been given out.
  predicate CancelsGiven(p: Plan, actions: seq<Action>, i: nat, n: int)
    requires i < |actions|
  {
    actions[i] == CancelTimer(n) && 1 <= n <= p.created + Adds(actions[..i])
  }

  // The id that the timer added at position i is given.
  function AddedId(p: Plan, actions: seq<Action>, i: nat): int
    requires i < |actions|
  {
    p.created + Adds(actions[..i]) + 1
  }

  lemma {:induction false} PlanPending(p: Plan, actions: seq<Action>)
    requires ActAll(p, actions).ok
    ensures var q := ActAll(p, actions);
      && q.created == p.created + Adds(actions)
      && forall n :: n in q.pending <==> n in p.pending || p.created < n <= q.created
  {
    if actions != [] {
      var m := |actions| - 1;
      ActOneMore(p, actions[..m], actions[m]);
      PlanPending(p, actions[..m]);
    }
  }

  // The positions but the last, in the list without its last action.
  lemma AllButLast(p: Plan, actions: seq<Action>, i: nat)
    requires i < |actions| - 1
    ensures var before := actions[..|actions| - 1];
      && before[i] == actions[i]
      && CancelsPending(p, before, i) == CancelsPending(p, actions, i)
      && forall n :: CancelsGiven(p, before, i, n) == CancelsGiven(p, actions, i, n)
  {
    assert actions[..|actions| - 1][..i] == actions[..i];
  }

  // The same read off the list of actions: it goes well if and only if no cancel names a
  // timer pending at that point;
  lemma {:induction false} PlanGoesWell(p: Plan, actions: seq<Action>)
    requires p.ok
    ensures ActAll(p, actions).ok <==> forall i :: 0 <= i < |actions| ==> !CancelsPending(p, actions, i)
  {
    if actions != [] {
      var m := |actions| - 1;
      var before := actions[..m];
      PlanGoesWell(p, before);
      ActOneMore(p, before, actions[m]);
      forall i | 0 <= i < m
        ensures CancelsPending(p, before, i) == CancelsPending(p, actions, i)
      {
        AllButLast(p, actions, i);
      }
      if ActAll(p, before).ok {
        PlanPending(p, before);
        assert ActAll(p, actions).ok <==> !CancelsPending(p, actions, m);
      }
      hide CancelsPending, ActAll;
    }
  }

  // and then the ids cancelled are those given out that a cancel names.
  lemma {:induction false} PlanCancels(p: Plan, actions: seq<Action>, n: int)
    requires ActAll(p, actions).ok
    ensures n in ActAll(p, actions).cancelled <==>
      n in p.cancelled || exists i :: 0 <= i < |actions| && CancelsGiven(p, actions, i, n)
  {
    if actions != [] {
      var m := |actions| - 1;
      var before := actions[..m];
      ActOneMore(p, before, actions[m]);
      PlanPending(p, before);
      PlanCancels(p, before, n);
      forall i | 0 <= i < m
        ensures CancelsGiven(p, before, i, n) == CancelsGiven(p, actions, i, n)
      {
        AllButLast(p, actions, i);
      }
      assert n in ActAll(p, actions).cancelled <==>
        n in ActAll(p, before).cancelled || CancelsGiven(p, actions, m, n);
      hide CancelsGiven, ActAll;
    }
  }

  // Each timer added gets the next free id, and no other id is among those added.
  lemma {:induction false} PlanAdds(p: Plan, actions: seq<Action>)
    requires ActAll(p, actions).ok
    ensures var q := ActAll(p, actions);
      && q.created == p.created + Adds(actions)
      && (forall n :: n in q.added <==> n in p.added || p.created < n <= q.created)
  {
    if actions != [] {
      var m := |actions| - 1;
      ActOneMore(p, actions[..m], actions[m]);
      PlanAdds(p, actions[..m]);
    }
  }

  lemma AddedIdBefore(p: Plan, actions: seq<Action>, i: nat, m: nat)
    requires i < m <= |actions|
    ensures actions[..m][i] == actions[i] && AddedId(p, actions[..m], i) == AddedId(p, actions, i)
    ensures actions[i].AddTimer? ==> AddedId(p, actions, i) <= p.created + Adds(actions[..m])
  {
    AddsUpTo(actions[..m]);
    assert actions[..m][..i] == actions[..i];
  }

  // It is added with the times of its action.
  lemma {:induction false} PlanAddsAt(p: Plan, actions: seq<Action>, i: nat)
    requires ActAll(p, actions).ok && i < |actions| && actions[i].AddTimer?
    ensures var q, n := ActAll(p, actions), AddedId(p, actions, i);
      n in q.added && q.added[n] == (actions[i].when, actions[i].interval)
  {
    var m := |actions| - 1;
    assert actions[..m] + [actions[m]] == actions;
    ActOneMore(p, actions[..m], actions[m]);
    PlanAdds(p, actions[..m]);
    hide ActAll, Adds;
    if i < m {
      AddedIdBefore(p, actions, i, m);
      hide AddedId;
      PlanAddsAt(p, actions[..m], i);
    }
  }

  lemma {:induction false} ActJoin(p: Plan, actions: seq<Action>, more: seq<Action>)
    requires ActAll(p, actions).ok
    ensures ActAll(p, actions + more) == ActAll(ActAll(p, actions), more)
  {
    if more == [] {
      assert actions + more == actions;
    } else {
      var n := |more| - 1;
      ActJoin(p, actions, more[..n]);
      assert actions + more == actions + more[..n] + [more[n]];
      ActOneMore(p, actions + more[..n], more[n]);
    }
  }

  lemma {:induction false} ScriptStops(p: Plan, scripts: seq<seq<Action>>, k: nat, n: nat)
    requires k <= n && !ActAll(p, Script(scripts, k)).ok
    ensures !ActAll(p, Script(scripts, n)).ok
  {
    hide ActAll;
    if k < n {
      ScriptStops(p, scripts, k, n - 1);
      ActStops(p, Script(scripts, n - 1), ScriptAt(scripts, n - 1));
    }
  }

  // The timers behind a set of ids.
  ghost function TimersById(ids: map<int, Timer>, ns: set<int>): set<ActiveTimer>
    requires ns <= ids.Keys
  {
    set n | n in ns :: (ids[n], n)
  }

  lemma InTimersById(ids: map<int, Timer>, ns: set<int>, t: Timer, n: int)
    requires ns <= ids.Keys && n in ids && ids[n] == t
    ensures (t, n) in TimersById(ids, ns) <==> n in ns
  {
  }

  // ----- the log of callbacks

  lemma PunctualNew(live: set<Timer>, t: Timer, runs: seq<Run>, n: int)
    requires Punctual(live, runs) && Spaced(runs, n) && t.sequence == n + 1
    ensures Punctual(live + {t}, runs) && Spaced(runs, n + 1)
  {
  }

  ghost function RunOf(e: Entry, now: int): Run
    reads e.1`sequence, e.1`interval
  {
    Run(e.1.sequence, now, e.0, e.1.interval, Gap(e.1.interval))
  }

  // The log has grown by one call for each entry, in order.
  ghost predicate Called(before: seq<Run>, after: seq<Run>, expired: seq<Entry>, now: int)
    reads TimersOf(expired)`sequence, TimersOf(expired)`interval
  {
    && |after| == |before| + |expired| && after[..|before|] == before
    && forall i :: 0 <= i < |expired| ==> after[|before| + i] == RunOf(expired[i], now)
  }

  lemma CalledNone(runs: seq<Run>, none: seq<Entry>, now: int)
    requires none == []
    ensures Called(runs, runs, none, now)
  {
  }

  lemma CalledNext(before: seq<Run>, after: seq<Run>, expired: seq<Entry>, k: nat, now: int)
    requires k < |expired| && Called(before, after, expired[..k], now)
    ensures Called(before, after + [RunOf(expired[k], now)], expired[..k + 1], now)
  {
  }

  lemma LogOther(s: set<Timer>, runs: seq<Run>, r: Run)
    requires Punctual(s, runs) && forall t :: t in s ==> t.sequence != r.id
    ensures Punctual(s, runs + [r])
  {
  }

  lemma LogDone(done: set<Timer>, runs: seq<Run>, e: Entry, now: int)
    requires RanBy(done, runs, now) && Punctual({e.1}, runs) && e.0 == e.1.expiration <= now
    requires forall t :: t in done ==> t.sequence != e.1.sequence
    ensures RanBy(done + {e.1}, runs + [RunOf(e, now)], now)
  {
  }

  lemma LogSpaced(runs: seq<Run>, e: Entry, now: int, n: int)
    requires Spaced(runs, n) && Punctual({e.1}, runs) && e.0 == e.1.expiration <= now && 1 <= e.1.sequence <= n
    ensures Spaced(runs + [RunOf(e, now)], n)
  {
  }

  // So two callbacks of one timer are its interval apart, in whole microseconds.
  lemma CallbacksApart(runs: seq<Run>, n: int, i: nat, j: nat)
    requires Spaced(runs, n) && i < j < |runs| && runs[i].id == runs[j].id && runs[i].interval > 0.0
    ensures (runs[j].at - runs[i].at) as real > runs[i].interval * 1000000.0 - 1.0
    ensures runs[j].at - runs[i].at >= (runs[i].interval * 1000000.0).Floor
  {
  }

  lemma RestartedIsPunctual(live: set<Timer>, t: Timer, runs: seq<Run>, now: int)
    requires Punctual(live, runs) && RanBy({t}, runs, now) && t.expiration == now + Gap(t.interval)
    ensures Punctual(live + {t}, runs)
  {
  }

  lemma PositiveGap(t: Timer, now: int)
    requires now > 0 && t.repeat == (t.interval > 0.0)
    ensures t.repeat ==> Gap(t.interval) == Micros(t.interval) && now + Micros(t.interval) > 0
  {
  }

  lemma NothingToArm(timers: set<Entry>, armed: Option<Arming>)
    requires timers == {}
    ensures ArmedFor(timers, armed)
  {
  }

  lemma ArmedForFirst(timers: set<Entry>, armed: Option<Arming>, e: Entry)
    requires Earliest(timers, e)
    requires e.0 <= 0 ==> ArmedForInvalid(timers, armed)
    requires e.0 > 0 ==> armed.Some? && (armed.value.deadline <= e.0 || armed.value.deadline == armed.value.at + 100)
    ensures ArmedFor(timers, armed)
  {
  }

  class TimerQueue {
    var timers: set<Entry>
    var activeTimers: set<ActiveTimer>
    var cancelingTimers: set<ActiveTimer>
    var callingExpiredTimers: bool
    var timerfd: Option<Arming>
    var numCreated: int                // Timer::s_numCreated
    var freed: set<Timer>              // deleted timers: memory the allocator may hand out again
    var ids: map<int, Timer>           // every TimerId handed out, by its sequence number
    ghost var live: set<Timer>         // timers in the two indexes
    ghost var dead: set<int>           // sequence numbers of deleted timers
    ghost var runs: seq<Run>

    ghost predicate Indexed()
      reads this`timers, this`activeTimers, this`live, live
    {
      timers == ByTime(live) && activeTimers == ById(live)
    }

    ghost predicate Valid()
      reads this, live
    {
      && Indexed() && Accounted(activeTimers, freed, ids, dead, numCreated)
      && !callingExpiredTimers && Regular(live)
      && Punctual(live, runs) && Spaced(runs, numCreated)
      && ArmedFor(timers, timerfd)
    }

    constructor ()
      ensures Valid() && live == {} && runs == [] && numCreated == 0
    {
      timers, activeTimers, cancelingTimers, callingExpiredTimers := {}, {}, {}, false;
      timerfd, numCreated, freed, ids := None, 0, {}, map[];
      live, dead, runs := {}, {}, [];
    }

    // resetTimerfd
    method ResetTimerfd(expiration: int, clock: int)
      modifies this`timerfd
      ensures timerfd.Some? && timerfd.value.at == clock
      ensures timerfd.value.deadline == clock + 100 || (timerfd.value.deadline == expiration && expiration > clock + 100)
      ensures timerfd.value.deadline <= expiration || timerfd.value.deadline == clock + 100
    {
      var ts := HowMuchTimeFromNow(expiration, clock);
      timerfd := Some(Arming(clock, clock + ts.0 * MICROS_PER_SECOND + ts.1 / 1000));
    }

    method Insert(timer: Timer) returns (earliestChanged: bool)
      requires Indexed() && timer !in live
      modifies this`timers, this`activeTimers, this`live
      ensures Indexed() && live == old(live) + {timer}
      ensures timers == old(timers) + {(timer.expiration, timer)}
      ensures activeTimers == old(activeTimers) + {(timer, timer.sequence)}
      ensures earliestChanged <==> forall e :: e in old(timers) ==> timer.expiration < e.0
      ensures |timers| == |activeTimers| == old(|timers|) + 1
    {
      hide ByTime, ById;
      SameSize(live);
      IndexesAdd(live, timer);
      earliestChanged := true;
      if timers != {} {
        var e := First(timers);
        earliestChanged := timer.expiration < e.0;
      }
      timers := timers + {(timer.expiration, timer)};
      activeTimers := activeTimers + {(timer, timer.sequence)};
      live := live + {timer};
    }

    // The storage for a new timer: fresh, or that of a deleted one.
    method NewTimer(when: int, interval: real, recycled: bool, ghost known: set<Timer>) returns (timer: Timer)
      requires known !! freed
      modifies this`numCreated, this`freed, this`ids, freed
      ensures timer !in known && (fresh(timer) || timer in old(freed))
      ensures numCreated == old(numCreated) + 1 && timer.sequence == numCreated
      ensures freed == old(freed) - {timer} && ids == old(ids)[numCreated := timer]
      ensures timer.expiration == when && timer.interval == interval && timer.repeat == (interval > 0.0)
    {
      numCreated := numCreated + 1;
      if recycled && freed != {} {
        timer :| timer in freed;
        freed := freed - {timer};
        timer.Recycle(when, interval, numCreated);
      } else {
        timer := new Timer(when, interval, numCreated);
      }
      ids := ids[numCreated := timer];
    }

    method Allocate(when: int, interval: real, recycled: bool, ghost owned: set<ActiveTimer>) returns (timer: Timer)
      requires Indexed() && activeTimers <= owned && Accounted(owned, freed, ids, dead, numCreated)
      modifies this`numCreated, this`freed, this`ids, freed
      ensures Indexed() && timer !in live && (fresh(timer) || timer in old(freed))
      ensures Accounted(owned + {(timer, numCreated)}, freed, ids, dead, numCreated)
      ensures numCreated == old(numCreated) + 1 && timer.sequence == numCreated
      ensures freed == old(freed) - {timer} && ids == old(ids)[numCreated := timer]
      ensures timer.expiration == when && timer.interval == interval && timer.repeat == (interval > 0.0)
    {
      hide Accounted, ById, ByTime;
      ghost var known := OwnedObjects(owned);
      timer := NewTimer(when, interval, recycled, known);
      AccountedNew(owned, old(freed), old(ids), dead, old(numCreated), timer, freed);
    }

    // addTimer, and addTimerInLoop on the loop thread
    method Add(when: int, interval: real, clock: int, recycled: bool, ghost owned: set<ActiveTimer>)
      returns (id: ActiveTimer)
      requires Indexed() && activeTimers <= owned && Accounted(owned, freed, ids, dead, numCreated)
      modifies this`timers, this`activeTimers, this`live, this`timerfd, this`numCreated, this`freed, this`ids, freed
      ensures Indexed() && Accounted(owned + {id}, freed, ids, dead, numCreated)
      ensures live == old(live) + {id.0} && (fresh(id.0) || id.0 in old(freed)) && id.0 !in old(live)
      ensures timers == old(timers) + {(when, id.0)} && activeTimers == old(activeTimers) + {id}
      ensures id.1 == id.0.sequence == numCreated == old(numCreated) + 1
      ensures freed == old(freed) - {id.0} && ids == old(ids)[id.1 := id.0]
      ensures id.0.expiration == when && id.0.interval == interval && id.0.repeat == (interval > 0.0)
      ensures old(ArmedFor(timers, timerfd)) ==> ArmedFor(timers, timerfd)
      ensures old(ArmedForInvalid(timers, timerfd)) ==> ArmedForInvalid(timers, timerfd)
    {
      hide Accounted, ById, ByTime, ArmedFor, ArmedForInvalid, Indexed;
      var timer := Allocate(when, interval, recycled, owned);
      id := (timer, timer.sequence);
      var earliestChanged := Insert(timer);
      if earliestChanged {
        ResetTimerfd(timer.expiration, clock);
        NewlyArmed(old(timers), timerfd, (when, timer));
      } else {
        ghost var d :| d in old(timers) && d.0 <= when;
        StillArmed(old(timers), timerfd, (when, timer), d);
      }
    }

    lemma OwnedObjects(owned: set<ActiveTimer>) returns (known: set<Timer>)
      requires Indexed() && activeTimers <= owned && Accounted(owned, freed, ids, dead, numCreated)
      ensures known !! freed && live <= known && forall a :: a in owned ==> a.0 in known
    {
      known := set a | a in owned :: a.0;
      forall t | t in live
        ensures t in known
      {
        assert (t, t.sequence) in activeTimers;
      }
    }

    // cancelInLoop; ok is the assertion that closes it, and the branch for a timer that is
    // still pending, written as it is there, leaves its entry in activeTimers.
    method CancelInLoop(timerId: ActiveTimer) returns (ok: bool)
      requires Indexed()
      modifies this`timers, this`cancelingTimers, this`freed
      ensures ok <==> timerId !in activeTimers
      ensures ok ==> timers == old(timers) && freed == old(freed)
      ensures !ok ==>
        && timers == old(timers) - {(timerId.0.expiration, timerId.0)} && |timers| == old(|timers|) - 1
        && freed == old(freed) + {timerId.0}
      ensures cancelingTimers == old(cancelingTimers) + if ok && callingExpiredTimers then {timerId} else {}
    {
      hide ByTime, ById;
      SameSize(live);
      if timerId in activeTimers {
        IndexesMatch(live, timerId);
        timers := timers - {(timerId.0.expiration, timerId.0)};
        freed := freed + {timerId.0};
      } else if callingExpiredTimers {
        cancelingTimers := cancelingTimers + {timerId};
      }
      ok := |timers| == |activeTimers|;
    }

    // The part of getExpired that moves entries out of m_timers.
    method TakeDue(now: int) returns (expired: seq<Entry>)
      requires timers == ByTime(live)
      modifies this`timers
      ensures Batch(expired) && TimersOf(expired) == Due(live, now)
      ensures timers == ByTime(live - TimersOf(expired)) && forall e :: e in timers ==> now < e.0
    {
      hide Batch;
      expired := [];
      assert Batch(expired) by { EmptyBatch(); }
      assert live - TimersOf(expired) == live;
      while timers != {}
        invariant Batch(expired) && TimersOf(expired) <= live
        invariant timers == ByTime(live - TimersOf(expired))
        invariant forall i, e :: 0 <= i < |expired| && e in timers ==> expired[i].0 <= e.0
        invariant forall t :: t in TimersOf(expired) ==> t.expiration <= now
        decreases |timers|
      {
        var e := First(timers);
        if now < e.0 {
          break;
        }
        BatchAppend(expired, e);
        TimersOfAppend(expired, e);
        IndexesRemove(live - TimersOf(expired), e.1);
        assert live - TimersOf(expired + [e]) == live - TimersOf(expired) - {e.1};
        expired := expired + [e];
        timers := timers - {e};
      }
      NoneDue(live - TimersOf(expired), now);
    }

    // The part that moves the same timers out of m_activeTimers.
    method EraseActive(expired: seq<Entry>)
      requires activeTimers == ById(live) && Batch(expired) && TimersOf(expired) <= live
      modifies this`activeTimers
      ensures activeTimers == ById(live - TimersOf(expired)) == old(activeTimers) - ById(TimersOf(expired))
      ensures activeTimers + ById(TimersOf(expired)) == old(activeTimers)
    {
      hide Batch;
      assert live - TimersOf(expired[..0]) == live;
      for k := 0 to |expired|
        invariant TimersOf(expired[..k]) <= live
        invariant activeTimers == ById(live - TimersOf(expired[..k]))
      {
        var timer := expired[k].1;
        BatchAt(expired, k);
        assert (timer, timer.sequence) in activeTimers;
        IndexesRemove(live - TimersOf(expired[..k]), timer);
        TimersOfAppend(expired[..k], expired[k]);
        assert expired[..k] + [expired[k]] == expired[..k + 1];
        assert live - TimersOf(expired[..k + 1]) == live - TimersOf(expired[..k]) - {timer};
        activeTimers := activeTimers - {(timer, timer.sequence)};
      }
      assert expired[..|expired|] == expired;
      IdsOfPart(live, TimersOf(expired));
    }

    lemma IdsOfPart(all: set<Timer>, part: set<Timer>)
      requires part <= all
      ensures ById(all - part) == ById(all) - ById(part) && ById(all - part) + ById(part) == ById(all)
    {
    }

    lemma IndexedIs()
      ensures Indexed() <==> timers == ByTime(live) && activeTimers == ById(live)
    {
    }

    method GetExpired(now: int) returns (expired: seq<Entry>)
      requires Indexed()
      modifies this`timers, this`activeTimers, this`live
      ensures Indexed() && |timers| == |activeTimers|
      ensures Batch(expired) && TimersOf(expired) == old(Due(live, now))
      ensures live == old(live) - TimersOf(expired) && forall e :: e in timers ==> now < e.0
      ensures activeTimers == old(activeTimers) - ById(TimersOf(expired))
      ensures activeTimers + ById(TimersOf(expired)) == old(activeTimers)
    {
      hide *;
      IndexedIs();
      expired := TakeDue(now);
      EraseActive(expired);
      live := live - TimersOf(expired);
      IndexedIs();
      IndexesMatchSizes();
    }

    // Holds all through handleRead, for the batch it took out: the callbacks of its first
    // k timers have been called.
    ghost predicate InBatch(expired: seq<Entry>, k: nat, now: int)
      reads this`timers, this`activeTimers, this`live, this`freed, this`ids, this`dead, this`numCreated
      reads this`runs, this`timerfd, live, TimersOf(expired)
    {
      && k <= |expired| && Indexed() && Batch(expired) && live !! TimersOf(expired)
      && Accounted(activeTimers + ById(TimersOf(expired)), freed, ids, dead, numCreated)
      && Regular(live) && Regular(TimersOf(expired))
      && (forall i :: 0 <= i < |expired| ==> expired[i].0 <= now)
      && Punctual(live, runs) && Punctual(TimersOf(expired[k..]), runs)
      && RanBy(TimersOf(expired[..k]), runs, now) && Spaced(runs, numCreated)
      && ArmedForInvalid(timers, timerfd)
    }

    // The plan of a batch that has just been taken out at reading now.
    ghost function BatchPlan(now: int): Plan
      reads this`live, this`numCreated, live
    {
      Plan(set t | t in live && t.expiration > now :: t.sequence, numCreated, {}, map[], true)
    }

    // The queue has come as far as plan p.
    ghost predicate Tracks(p: Plan)
      reads this`activeTimers, this`ids, this`numCreated, this`cancelingTimers
    {
      && p.created == numCreated
      && (forall n :: n in p.pending <==> n in ids && (ids[n], n) in activeTimers)
      && p.cancelled <= ids.Keys && cancelingTimers == TimersById(ids, p.cancelled)
    }

    // The live timers are those of base and those the plan has added,
    ghost predicate Gained(base: set<Timer>, added: map<int, (int, real)>)
      reads this`live, this`ids
    {
      added.Keys <= ids.Keys && live == base + set n | n in added :: ids[n]
    }

    // with the times it added them for.
    ghost predicate AddedAs(added: map<int, (int, real)>)
      reads this`ids, set n | n in added && n in ids :: ids[n]
    {
      added.Keys <= ids.Keys &&
      forall n :: n in added ==>
        ids[n].sequence == n && ids[n].expiration == added[n].0 && ids[n].interval == added[n].1
    }

    lemma TracksAdd(p: Plan, a: Action, activeTimers0: set<ActiveTimer>, ids0: map<int, Timer>, n: int, t: Timer)
      requires a.AddTimer? && n == p.created + 1 == numCreated && n !in ids0
      requires (forall m :: m in p.pending <==> m in ids0 && (ids0[m], m) in activeTimers0)
      requires p.cancelled <= ids0.Keys && cancelingTimers == TimersById(ids0, p.cancelled)
      requires ids == ids0[n := t] && activeTimers == activeTimers0 + {(t, n)}
      ensures Tracks(Act(p, a))
    {
    }

    // An entry of m_activeTimers whose timer has been deleted.
    ghost predicate Dangling()
      reads this
    {
      exists a :: a in activeTimers && a.0 in freed
    }

    lemma BatchNotFreed(expired: seq<Entry>, k: nat, now: int)
      requires InBatch(expired, k, now)
      ensures TimersOf(expired) !! freed && live !! freed
      ensures TimersOf(expired[k..]) <= TimersOf(expired) && TimersOf(expired[..k]) <= TimersOf(expired)
    {
      forall t | t in TimersOf(expired) + live
        ensures t !in freed
      {
        assert (t, t.sequence) in activeTimers + ById(TimersOf(expired));
      }
      TimersOfPart(expired, k);
    }

    // A callback adds a timer: the batch is none the worse for it,
    method AddToBatch(when: int, interval: real, clock: int, recycled: bool, ghost expired: seq<Entry>,
                      ghost k: nat, ghost now: int) returns (id: ActiveTimer)
      requires InBatch(expired, k, now)
      modifies this`timers, this`activeTimers, this`live, this`timerfd, this`numCreated, this`freed, this`ids, freed
      ensures InBatch(expired, k, now) && freed <= old(freed)
      ensures live == old(live) + {id.0} && id.0 !in old(live) && activeTimers == old(activeTimers) + {id}
      ensures (fresh(id.0) || id.0 in old(freed)) && old(live) !! old(freed)
      ensures id.1 == id.0.sequence == numCreated == old(numCreated) + 1
      ensures id.1 !in old(ids) && ids == old(ids)[id.1 := id.0]
      ensures id.0.expiration == when && id.0.interval == interval
    {
      hide Accounted, Batch, Punctual, RanBy, Spaced, ArmedForInvalid, ByTime, ById, TimersOf;
      BatchNotFreed(expired, k, now);
      ghost var owned := activeTimers + ById(TimersOf(expired));
      NextId(owned, freed, ids, dead, numCreated);
      id := Add(when, interval, clock, recycled, owned);
      assert owned + {id} == activeTimers + ById(TimersOf(expired));
      PunctualNew(old(live), id.0, runs, numCreated - 1);
    }

    // and the plan takes it in.
    method AddInBatch(when: int, interval: real, clock: int, recycled: bool, ghost expired: seq<Entry>,
                      ghost k: nat, ghost now: int, ghost base: set<Timer>, ghost p: Plan)
      requires InBatch(expired, k, now) && Tracks(p) && Gained(base, p.added) && AddedAs(p.added)
      modifies this`timers, this`activeTimers, this`live, this`timerfd, this`numCreated, this`freed, this`ids, freed
      ensures InBatch(expired, k, now) && freed <= old(freed)
      ensures var q := Act(p, Action.AddTimer(when, interval, clock, recycled));
        Tracks(q) && Gained(base, q.added) && AddedAs(q.added)
      ensures forall n :: n in old(ids) ==> n in ids && ids[n] == old(ids)[n]
    {
      hide InBatch;
      var id := AddToBatch(when, interval, clock, recycled, expired, k, now);
      TracksAdd(p, Action.AddTimer(when, interval, clock, recycled), old(activeTimers), old(ids), id.1, id.0);
    }

    // What one callback does to the queue; it goes wrong exactly when it cancels a timer
    // that is pending.
    method Callback(actions: seq<Action>, ghost expired: seq<Entry>, ghost k: nat, ghost now: int,
                    ghost base: set<Timer>, ghost p: Plan)
      returns (ok: bool)
      requires InBatch(expired, k, now) && callingExpiredTimers
      requires p.ok && Tracks(p) && Gained(base, p.added) && AddedAs(p.added)
      modifies this`timers, this`activeTimers, this`live, this`timerfd, this`numCreated, this`freed, this`ids
      modifies this`cancelingTimers, freed
      ensures ok == ActAll(p, actions).ok
      ensures ok ==> InBatch(expired, k, now) && freed <= old(freed)
      ensures ok ==> var q := ActAll(p, actions); Tracks(q) && Gained(base, q.added) && AddedAs(q.added)
      ensures forall n :: n in old(ids) ==> n in ids && ids[n] == old(ids)[n]
      ensures !ok ==> Dangling()
    {
      hide InBatch, Tracks, Gained, AddedAs, Dangling, Act;
      ok := true;
      for i := 0 to |actions|
        invariant InBatch(expired, k, now) && freed <= old(freed)
        invariant var q := ActAll(p, actions[..i]); q.ok && Tracks(q) && Gained(base, q.added) && AddedAs(q.added)
        invariant forall n :: n in old(ids) ==> n in ids && ids[n] == old(ids)[n]
      {
        ghost var q := ActAll(p, actions[..i]);
        ActOneMore(p, actions[..i], actions[i]);
        assert actions[..i] + [actions[i]] == actions[..i + 1];
        ok := OneAction(actions[i], expired, k, now, base, q);
        if !ok {
          ActStops(p, actions[..i + 1], actions[i + 1..]);
          assert actions[..i + 1] + actions[i + 1..] == actions;
          return;
        }
      }
      assert actions[..|actions|] == actions;
    }

    method OneAction(a: Action, ghost expired: seq<Entry>, ghost k: nat, ghost now: int, ghost base: set<Timer>,
                     ghost p: Plan)
      returns (ok: bool)
      requires InBatch(expired, k, now) && callingExpiredTimers
      requires p.ok && Tracks(p) && Gained(base, p.added) && AddedAs(p.added)
      modifies this`timers, this`activeTimers, this`live, this`timerfd, this`numCreated, this`freed, this`ids
      modifies this`cancelingTimers, freed
      ensures ok == Act(p, a).ok
      ensures ok ==> InBatch(expired, k, now) && freed <= old(freed)
      ensures ok ==> var q := Act(p, a); Tracks(q) && Gained(base, q.added) && AddedAs(q.added)
      ensures forall n :: n in old(ids) ==> n in ids && ids[n] == old(ids)[n]
      ensures !ok ==> Dangling()
    {
      hide InBatch, Tracks, Gained, AddedAs, Dangling;
      ok := true;
      match a
      case AddTimer(when, interval, clock, recycled) =>
        AddInBatch(when, interval, clock, recycled, expired, k, now, base, p);
      case CancelTimer(n) =>
        ok := CancelInBatch(n, expired, k, now, p);
    }

    // A callback cancels the timer it was once given id n for, if there is one.
    method CancelInBatch(n: int, ghost expired: seq<Entry>, ghost k: nat, ghost now: int, ghost p: Plan) returns (ok: bool)
      requires InBatch(expired, k, now) && callingExpiredTimers && p.ok && Tracks(p)
      modifies this`timers, this`cancelingTimers, this`freed
      ensures ok == Act(p, CancelTimer(n)).ok
      ensures ok ==> InBatch(expired, k, now) && freed == old(freed) && Tracks(Act(p, CancelTimer(n)))
      ensures !ok ==> Dangling()
    {
      hide Batch, Punctual, RanBy, Spaced, Regular, ArmedForInvalid, Indexed;
      ok := true;
      if n in ids {
        ok := CancelInLoop((ids[n], n));
      }
    }

    // Different timers have different sequence numbers.
    lemma DistinctIds(expired: seq<Entry>, k: nat, now: int)
      requires InBatch(expired, k, now) && k < |expired|
      ensures 1 <= expired[k].1.sequence <= numCreated
      ensures forall t :: t in live + TimersOf(expired[..k]) + TimersOf(expired[k + 1..]) ==>
        t.sequence != expired[k].1.sequence
    {
      BatchAt(expired, k);
      BatchNotFreed(expired, k, now);
      var u := expired[k].1;
      var owned := activeTimers + ById(TimersOf(expired));
      assert (u, u.sequence) in owned;
      forall t | t in live + TimersOf(expired[..k]) + TimersOf(expired[k + 1..])
        ensures t.sequence != u.sequence
      {
        assert t in live + TimersOf(expired);
        assert (t, t.sequence) in owned && t != u;
      }
    }

    // The log after the callback of entry k has been called.
    lemma LogNext(expired: seq<Entry>, k: nat, now: int)
      requires InBatch(expired, k, now) && k < |expired|
      ensures var runs' := runs + [RunOf(expired[k], now)];
        && Punctual(live, runs') && Punctual(TimersOf(expired[k + 1..]), runs')
        && RanBy(TimersOf(expired[..k + 1]), runs', now) && Spaced(runs', numCreated)
    {
      hide Indexed, Accounted, Batch, ArmedForInvalid;
      DistinctIds(expired, k, now);
      BatchAt(expired, k);
      var e, rest := expired[k], expired[k + 1..];
      assert [e] + rest == expired[k..];
      HeadAndRest(e, rest);
      LogOther(live, runs, RunOf(e, now));
      LogOther(TimersOf(rest), runs, RunOf(e, now));
      LogDone(TimersOf(expired[..k]), runs, e, now);
      LogSpaced(runs, e, now, numCreated);
      TimersOfAppend(expired[..k], e);
      assert expired[..k] + [e] == expired[..k + 1];
    }

    method NextCallback(expired: seq<Entry>, k: nat, now: int, actions: seq<Action>, ghost base: set<Timer>, ghost p: Plan)
      returns (ok: bool)
      requires k < |expired| && InBatch(expired, k, now) && callingExpiredTimers
      requires p.ok && Tracks(p) && Gained(base, p.added) && AddedAs(p.added)
      modifies this`timers, this`activeTimers, this`live, this`timerfd, this`numCreated, this`freed, this`ids
      modifies this`cancelingTimers, this`runs, freed
      ensures ok == ActAll(p, actions).ok
      ensures ok ==> InBatch(expired, k + 1, now) && freed <= old(freed)
      ensures ok ==> runs == old(runs) + [old(RunOf(expired[k], now))]
      ensures ok ==> var q := ActAll(p, actions); Tracks(q) && Gained(base, q.added) && AddedAs(q.added)
      ensures forall n :: n in old(ids) ==> n in ids && ids[n] == old(ids)[n]
      ensures !ok ==> Dangling()
    {
      hide Indexed, Accounted, Batch, Punctual, RanBy, Spaced, Regular, ArmedForInvalid, Tracks, Gained, AddedAs;
      LogNext(expired, k, now);
      runs := runs + [RunOf(expired[k], now)];
      ok := Callback(actions, expired, k + 1, now, base, p);
    }

    method RunCallbacks(expired: seq<Entry>, now: int, scripts: seq<seq<Action>>, ghost base: set<Timer>, ghost p: Plan)
      returns (ok: bool)
      requires InBatch(expired, 0, now) && callingExpiredTimers
      requires p.ok && Tracks(p) && Gained(base, p.added) && AddedAs(p.added)
      modifies this`timers, this`activeTimers, this`live, this`timerfd, this`numCreated, this`freed, this`ids
      modifies this`cancelingTimers, this`runs, freed
      ensures ok == ActAll(p, Script(scripts, |expired|)).ok
      ensures ok ==> InBatch(expired, |expired|, now)
      ensures ok ==> Called(old(runs), runs, expired, now) && freed <= old(freed)
      ensures ok ==> var q := ActAll(p, Script(scripts, |expired|)); Tracks(q) && Gained(base, q.added) && AddedAs(q.added)
      ensures forall n :: n in old(ids) ==> n in ids && ids[n] == old(ids)[n]
      ensures !ok ==> Dangling()
    {
      hide InBatch, Called, Tracks, Gained, AddedAs;
      CalledNone(runs, expired[..0], now);
      ok := true;
      for k := 0 to |expired|
        invariant InBatch(expired, k, now) && freed <= old(freed)
        invariant Called(old(runs), runs, expired[..k], now)
        invariant var q := ActAll(p, Script(scripts, k)); q.ok && Tracks(q) && Gained(base, q.added) && AddedAs(q.added)
        invariant forall n :: n in old(ids) ==> n in ids && ids[n] == old(ids)[n]
      {
        BatchNotFreed(expired, k, now);
        TimersOfPart(expired, k + 1);
        CalledNext(old(runs), runs, expired, k, now);
        ActJoin(p, Script(scripts, k), ScriptAt(scripts, k));
        ok := NextCallback(expired, k, now, ScriptAt(scripts, k), base, ActAll(p, Script(scripts, k)));
        if !ok {
          ScriptStops(p, scripts, k + 1, |expired|);
          return;
        }
      }
      assert expired[..|expired|] == expired;
    }

    // Holds all through reset(): what is left of the batch has had its callbacks.
    ghost predicate InReset(rest: seq<Entry>, now: int)
      reads this`timers, this`activeTimers, this`live, this`freed, this`ids, this`dead, this`numCreated
      reads this`runs, this`timerfd, live, TimersOf(rest)
    {
      && Indexed() && Batch(rest) && live !! TimersOf(rest)
      && Accounted(activeTimers + ById(TimersOf(rest)), freed, ids, dead, numCreated)
      && Regular(live) && Regular(TimersOf(rest))
      && Punctual(live, runs) && RanBy(TimersOf(rest), runs, now) && Spaced(runs, numCreated)
      && ArmedForInvalid(timers, timerfd)
    }

    ghost predicate Again(timer: Timer)
      reads this`cancelingTimers, timer`repeat, timer`sequence
    {
      timer.repeat && (timer, timer.sequence) !in cancelingTimers
    }

    lemma FirstOfRest(rest: seq<Entry>, now: int)
      requires InReset(rest, now) && rest != []
      ensures var t, others := rest[0].1, TimersOf(rest[1..]);
        && TimersOf(rest) == {t} + others && t !in others && t !in live && others !! live
        && activeTimers + ById(TimersOf(rest)) == activeTimers + ById(others) + {(t, t.sequence)}
        && (t, t.sequence) !in activeTimers + ById(others)
        && t !in freed && t.sequence !in dead && others !! freed
        && RanBy({t}, runs, now) && RanBy(others, runs, now)
        && t.repeat == (t.interval > 0.0) && Regular(others) && Batch(rest[1..])
    {
      BatchAt(rest, 0);
      HeadAndRest(rest[0], rest[1..]);
      assert [rest[0]] + rest[1..] == rest;
      var owned := activeTimers + ById(TimersOf(rest));
      assert forall u :: u in TimersOf(rest) ==> (u, u.sequence) in owned;
    }

    // It runs again one interval from now.
    method PutBack(timer: Timer, now: int)
      requires now > 0 && timer.repeat && Regular({timer}) && RanBy({timer}, runs, now) && timer !in live
      requires Indexed() && Regular(live) && Punctual(live, runs) && ArmedForInvalid(timers, timerfd)
      modifies this`timers, this`activeTimers, this`live, timer`expiration
      ensures Indexed() && Regular(live) && Punctual(live, runs) && ArmedForInvalid(timers, timerfd)
      ensures live == old(live) + {timer} && activeTimers == old(activeTimers) + {(timer, timer.sequence)}
      ensures timer.expiration == now + Micros(timer.interval) && WholeMicros(timer.expiration - now, timer.interval)
    {
      hide Indexed, Punctual, ArmedForInvalid, Micros, Gap;
      PositiveGap(timer, now);
      timer.Restart(now);
      var earliestChanged := Insert(timer);
      RestartedIsPunctual(old(live), timer, runs, now);
      StillArmedForValid(old(timers), timerfd, (timer.expiration, timer));
    }

    method Reinsert(timer: Timer, ghost rest: seq<Entry>, now: int)
      requires now > 0 && rest != [] && rest[0].1 == timer && InReset(rest, now) && timer.repeat
      modifies this`timers, this`activeTimers, this`live, timer`expiration
      ensures InReset(rest[1..], now)
      ensures live == old(live) + {timer}
      ensures timer.expiration == now + Micros(timer.interval) && WholeMicros(timer.expiration - now, timer.interval)
    {
      hide Indexed, Accounted, Batch, Punctual, RanBy, Spaced, ArmedForInvalid, ById, TimersOf, Micros;
      FirstOfRest(rest, now);
      ghost var owned, others := activeTimers + ById(TimersOf(rest)), ById(TimersOf(rest[1..]));
      PutBack(timer, now);
      assert activeTimers + others == owned;
    }

    method Delete(timer: Timer, ghost rest: seq<Entry>, now: int)
      requires rest != [] && rest[0].1 == timer && InReset(rest, now)
      modifies this`freed, this`dead
      ensures InReset(rest[1..], now)
      ensures freed == old(freed) + {timer} && dead == old(dead) + {timer.sequence}
      ensures timer !in live && timer !in old(freed) && timer.sequence !in old(dead)
    {
      hide Accounted, Batch, Punctual, RanBy, Spaced, ArmedForInvalid, ByTime, ById, TimersOf;
      var id := (timer, timer.sequence);
      FirstOfRest(rest, now);
      ghost var owned, others := activeTimers + ById(TimersOf(rest)), ById(TimersOf(rest[1..]));
      AccountedDelete(owned, freed, ids, dead, numCreated, id);
      freed := freed + {timer};
      dead := dead + {timer.sequence};
      assert activeTimers + others == owned - {id};
    }

    // What becomes of one timer of the batch.
    method Settle(timer: Timer, ghost rest: seq<Entry>, now: int)
      requires now > 0 && rest != [] && rest[0].1 == timer && InReset(rest, now)
      modifies this`timers, this`activeTimers, this`live, this`freed, this`dead, timer`expiration
      ensures InReset(rest[1..], now)
      ensures Again(timer) ==>
        && live == old(live) + {timer} && freed == old(freed) && dead == old(dead)
        && timer.expiration == now + Micros(timer.interval) && WholeMicros(timer.expiration - now, timer.interval)
      ensures !Again(timer) ==>
        live == old(live) && freed == old(freed) + {timer} && dead == old(dead) + {timer.sequence} && timer !in live
    {
      hide InReset, Micros, WholeMicros;
      if timer.repeat && (timer, timer.sequence) !in cancelingTimers {
        Reinsert(timer, rest, now);
      } else {
        Delete(timer, rest, now);
      }
    }

    // What settling made of timer t, whose callback was called with reading now.
    ghost predicate Settled(t: Timer, again: bool, now: int)
      reads this`live, this`freed, this`dead, t
    {
      if again then
        && t in live && t.expiration == now + Micros(t.interval)
        && WholeMicros(t.expiration - now, t.interval)
      else t !in live && t in freed && t.sequence in dead
    }

    lemma SettledAgain(t: Timer, again: bool, now: int)
      requires Settled(t, again, now) && t in live
      ensures again && 0.0 <= t.interval * 1000000.0 - (t.expiration - now) as real < 1.0
    {
    }

    lemma ResetParts(now: int)
      requires InReset([], now)
      ensures Indexed() && Accounted(activeTimers, freed, ids, dead, numCreated) && Regular(live)
      ensures Punctual(live, runs) && Spaced(runs, numCreated) && ArmedForInvalid(timers, timerfd)
    {
      assert activeTimers + ById(TimersOf([])) == activeTimers;
    }

    ghost function Restarting(expired: seq<Entry>): set<Timer>
      reads this`cancelingTimers, TimersOf(expired)`repeat, TimersOf(expired)`sequence
    {
      set t | t in TimersOf(expired) && Again(t)
    }

    method Reset(expired: seq<Entry>, now: int, clock: int)
      requires now > 0 && InReset(expired, now) && Apart(expired)
      modifies this`timers, this`activeTimers, this`live, this`freed, this`dead, this`timerfd
      modifies TimersOf(expired)`expiration
      ensures Indexed() && Accounted(activeTimers, freed, ids, dead, numCreated) && Regular(live)
      ensures Punctual(live, runs) && Spaced(runs, numCreated) && ArmedFor(timers, timerfd)
      ensures forall t :: t in TimersOf(expired) ==> Settled(t, Again(t), now)
      ensures live == old(live) + Restarting(expired)
      ensures old(dead) <= dead
    {
      hide InReset, ArmedFor, ArmedForInvalid, Earliest, Apart, Indexed, Accounted, Regular, Punctual, Spaced;
      hide Micros, WholeMicros;
      assert expired[0..] == expired;
      for k := 0 to |expired|
        invariant InReset(expired[k..], now) && old(dead) <= dead
        invariant forall t :: t in TimersOf(expired[..k]) ==> Settled(t, Again(t), now)
        invariant live == old(live) + Restarting(expired[..k])
      {
        ApartAt(expired, k);
        Settle(expired[k].1, expired[k..], now);
        TimersOfAppend(expired[..k], expired[k]);
        assert expired[..k] + [expired[k]] == expired[..k + 1];
        assert expired[k..][1..] == expired[k + 1..];
      }
      assert expired[|expired|..] == [] && expired[..|expired|] == expired;
      ResetParts(now);
      ArmForFirst(clock);
    }

    // The end of reset.
    method ArmForFirst(clock: int)
      requires ArmedForInvalid(timers, timerfd)
      modifies this`timerfd
      ensures ArmedFor(timers, timerfd)
    {
      hide ArmedFor, ArmedForInvalid, Earliest;
      if timers != {} {
        var e := First(timers);
        if e.0 > 0 {
          ResetTimerfd(e.0, clock);
        }
        ArmedForFirst(timers, timerfd, e);
      } else {
        NothingToArm(timers, timerfd);
      }
    }

    lemma StartBatch(active: set<ActiveTimer>, before: set<Timer>, expired: seq<Entry>, now: int)
      requires now > 0 && Indexed() && Batch(expired) && forall e :: e in timers ==> now < e.0
      requires live == before - TimersOf(expired) && TimersOf(expired) == Due(before, now)
      requires active == activeTimers + ById(TimersOf(expired)) && Accounted(active, freed, ids, dead, numCreated)
      requires Regular(before) && Punctual(before, runs) && Spaced(runs, numCreated)
      ensures InBatch(expired, 0, now)
    {
      hide Accounted, Spaced;
      assert expired[0..] == expired && TimersOf(expired[..0]) == {};
      forall i | 0 <= i < |expired|
        ensures expired[i].0 <= now
      {
        BatchAt(expired, i);
      }
    }

    lemma EndBatch(expired: seq<Entry>, now: int)
      requires InBatch(expired, |expired|, now)
      ensures InReset(expired, now) && Apart(expired)
    {
      assert expired[..|expired|] == expired;
    }

    // The due timers, taken out: the batch of which no callback has been called.
    method TakeBatch(now: int) returns (batch: seq<Entry>)
      requires now > 0 && Indexed() && Accounted(activeTimers, freed, ids, dead, numCreated)
      requires Regular(live) && Punctual(live, runs) && Spaced(runs, numCreated)
      modifies this`timers, this`activeTimers, this`live
      ensures InBatch(batch, 0, now) && live == old(live) - TimersOf(batch)
      ensures TimersOf(batch) == old(Due(live, now))
      ensures forall i, j :: 0 <= i < j < |batch| ==> batch[i].1 != batch[j].1 && batch[i].0 <= batch[j].0
      ensures forall i :: 0 <= i < |batch| ==> batch[i].1 in old(live) && batch[i].0 == batch[i].1.expiration
    {
      hide *;
      batch := GetExpired(now);
      StartBatch(old(activeTimers), old(live), batch, now);
      BatchFacts(batch, old(live));
    }

    method StartHandler(now: int) returns (batch: seq<Entry>)
      requires Valid() && now > 0
      modifies this`timers, this`activeTimers, this`live, this`timerfd, this`callingExpiredTimers, this`cancelingTimers
      ensures InBatch(batch, 0, now) && callingExpiredTimers && cancelingTimers == {}
      ensures live == old(live) - TimersOf(batch) && numCreated == old(numCreated)
      ensures TimersOf(batch) == old(Due(live, now))
      ensures forall i, j :: 0 <= i < j < |batch| ==> batch[i].1 != batch[j].1 && batch[i].0 <= batch[j].0
      ensures forall i :: 0 <= i < |batch| ==> batch[i].1 in old(live) && batch[i].0 == batch[i].1.expiration
    {
      hide Accounted, Regular, Punctual, Spaced, ArmedFor, InBatch, ByTime, ById, Batch;
      timerfd := None;
      batch := TakeBatch(now);
      callingExpiredTimers := true;
      cancelingTimers := {};
    }

    lemma TracksNone(p: Plan, before: set<Timer>, batch: seq<Entry>, now: int)
      requires p == Plan(set t | t in before && t.expiration > now :: t.sequence, numCreated, {}, map[], true)
      requires InBatch(batch, 0, now) && cancelingTimers == {}
      requires live == before - TimersOf(batch) && TimersOf(batch) == Due(before, now)
      ensures Tracks(p) && Gained(live, p.added) && AddedAs(p.added)
    {
      hide Batch, Punctual, RanBy, Spaced, Regular, ArmedForInvalid;
      forall t | t in live
        ensures t.sequence in ids && ids[t.sequence] == t
      {
        assert (t, t.sequence) in activeTimers + ById(TimersOf(batch));
      }
    }

    // Which timers of the batch were cancelled is what the plan says.
    lemma CancelledAsPlanned(expired: seq<Entry>, now: int, p: Plan)
      requires InBatch(expired, |expired|, now) && Tracks(p)
      ensures numCreated == p.created
      ensures forall t :: t in TimersOf(expired) ==> Again(t) == (t.repeat && t.sequence !in p.cancelled)
    {
      hide Indexed, Batch, Punctual, RanBy, Spaced, Regular, ArmedForInvalid;
      forall t | t in TimersOf(expired)
        ensures Again(t) == (t.repeat && t.sequence !in p.cancelled)
      {
        assert (t, t.sequence) in activeTimers + ById(TimersOf(expired));
        InTimersById(ids, p.cancelled, t, t.sequence);
      }
    }

    // handleRead: now is its reading of the clock, scripts what the callbacks do, one after
    // the other, and clock the reading when the timerfd is set again. It goes wrong exactly
    // when a callback cancels a pending timer; otherwise the timers live after it are those
    // that were not due, those added, and those due that repeat and were not cancelled.
    method HandleRead(now: int, scripts: seq<seq<Action>>, clock: int) returns (ok: bool, ghost expired: seq<Entry>)
      requires Valid() && now > 0
      modifies this, live, freed
      ensures TimersOf(expired) == old(Due(live, now))
      ensures forall i, j :: 0 <= i < j < |expired| ==> expired[i].1 != expired[j].1 && expired[i].0 <= expired[j].0
      ensures forall i :: 0 <= i < |expired| ==> expired[i].1 in old(live) && expired[i].0 == old(expired[i].1.expiration)
      ensures ok == ActAll(old(BatchPlan(now)), Script(scripts, |expired|)).ok
      ensures ok ==> Valid()
      ensures !ok ==> Dangling()
      ensures ok ==> Called(old(runs), runs, expired, now)
      ensures ok ==>
        var plan := ActAll(old(BatchPlan(now)), Script(scripts, |expired|));
        && numCreated == plan.created && AddedAs(plan.added)
        && live == old(live) - TimersOf(expired) + (set n | n in plan.added :: ids[n])
                   + (set t | t in TimersOf(expired) && t.repeat && t.sequence !in plan.cancelled)
        && forall t :: t in TimersOf(expired) ==> Settled(t, t.repeat && t.sequence !in plan.cancelled, now)
      // what comes again does so one interval later, in whole microseconds
      ensures ok ==> forall t :: t in TimersOf(expired) && t in live ==>
        0.0 <= t.interval * 1000000.0 - (t.expiration - now) as real < 1.0
      ensures ok ==> forall t :: t in old(live) ==>
        && t.sequence == old(t.sequence) && t.interval == old(t.interval) && t.repeat == old(t.repeat)
        && (t !in TimersOf(expired) ==> t.expiration == old(t.expiration))
      ensures forall n :: n in old(ids) ==> n in ids && ids[n] == old(ids)[n]
      ensures old(dead) <= dead
    {
      hide *;
      var batch;
      ok, batch := RunBatch(now, scripts);
      expired := batch;
      if ok {
        ghost var plan := ActAll(old(BatchPlan(now)), Script(scripts, |expired|));
        Finish(batch, now, clock, old(live) - TimersOf(expired), plan);
        forall t | t in TimersOf(expired) && t in live
          ensures 0.0 <= t.interval * 1000000.0 - (t.expiration - now) as real < 1.0
        {
          SettledAgain(t, t.repeat && t.sequence !in plan.cancelled, now);
        }
      }
    }

    // Up to the end of the callbacks,
    method RunBatch(now: int, scripts: seq<seq<Action>>) returns (ok: bool, batch: seq<Entry>)
      requires Valid() && now > 0
      modifies this, freed
      ensures TimersOf(batch) == old(Due(live, now))
      ensures forall i, j :: 0 <= i < j < |batch| ==> batch[i].1 != batch[j].1 && batch[i].0 <= batch[j].0
      ensures forall i :: 0 <= i < |batch| ==> batch[i].1 in old(live) && batch[i].0 == batch[i].1.expiration
      ensures var plan := ActAll(old(BatchPlan(now)), Script(scripts, |batch|));
        ok == plan.ok && (ok ==> Tracks(plan) && Gained(old(live) - TimersOf(batch), plan.added) && AddedAs(plan.added))
      ensures ok ==> InBatch(batch, |batch|, now) && freed <= old(freed)
      ensures ok ==> Called(old(runs), runs, batch, now)
      ensures !ok ==> Dangling()
      ensures old(live) !! old(freed) && dead == old(dead)
      ensures forall n :: n in old(ids) ==> n in ids && ids[n] == old(ids)[n]
    {
      hide Indexed, Accounted, Regular, Punctual, Spaced, ArmedFor, InBatch, Called, Apart, Dangling, Batch;
      hide Tracks, Gained, AddedAs;
      batch := StartHandler(now);
      BatchNotFreed(batch, 0, now);
      TracksNone(old(BatchPlan(now)), old(live), batch, now);
      hide BatchPlan;
      ok := RunCallbacks(batch, now, scripts, live, old(BatchPlan(now)));
    }

    // and from there on.
    method Finish(batch: seq<Entry>, now: int, clock: int, ghost base: set<Timer>, ghost plan: Plan)
      requires now > 0 && InBatch(batch, |batch|, now) && Tracks(plan) && Gained(base, plan.added) && AddedAs(plan.added)
      modifies this`timers, this`activeTimers, this`live, this`freed, this`dead, this`timerfd, this`callingExpiredTimers
      modifies TimersOf(batch)`expiration
      ensures Valid() && numCreated == plan.created && AddedAs(plan.added)
      ensures live == base + (set n | n in plan.added :: ids[n])
                      + (set t | t in TimersOf(batch) && t.repeat && t.sequence !in plan.cancelled)
      ensures forall t :: t in TimersOf(batch) ==> Settled(t, t.repeat && t.sequence !in plan.cancelled, now)
      ensures old(dead) <= dead
    {
      hide Indexed, Accounted, Regular, Punctual, Spaced, ArmedFor, InBatch, InReset, Settled, Apart, Batch, Tracks;
      callingExpiredTimers := false;
      CancelledAsPlanned(batch, now, plan);
      BatchNotFreed(batch, |batch|, now);
      EndBatch(batch, now);
      Reset(batch, now, clock);
    }

    // addTimer: the queue gains exactly one timer, under an id never handed out before.
    method AddTimer(when: int, interval: real, clock: int, recycled: bool) returns (id: ActiveTimer)
      requires Valid()
      modifies this, freed
      ensures Valid() && id.1 !in old(ids) && ids == old(ids)[id.1 := id.0]
      ensures timers == old(timers) + {(when, id.0)} && activeTimers == old(activeTimers) + {id}
      ensures id.0 !in old(live) && dead == old(dead) && runs == old(runs)
    {
      hide Accounted, Punctual, Spaced, ArmedFor, ArmedForInvalid, ByTime, ById;
      NextId(activeTimers, freed, ids, dead, numCreated);
      ghost var known := OwnedObjects(activeTimers);
      id := Add(when, interval, clock, recycled, activeTimers);
      PunctualNew(old(live), id.0, runs, numCreated - 1);
    }

    // cancel: outside a batch it does nothing, or breaks the agreement of the two indexes.
    method Cancel(id: ActiveTimer) returns (ok: bool)
      requires Valid()
      modifies this`timers, this`cancelingTimers, this`freed
      ensures ok <==> id !in activeTimers
      ensures ok ==> Valid() && timers == old(timers) && cancelingTimers == old(cancelingTimers)
      ensures !ok ==> Dangling() && !Valid()
    {
      hide Indexed, Accounted, Regular, Punctual, Spaced, ArmedFor;
      IndexesMatchSizes();
      ok := CancelInLoop(id);
      IndexesMatchSizes();
    }

    lemma IndexesMatchSizes()
      ensures Indexed() ==> |timers| == |activeTimers|
    {
      SameSize(live);
    }
  }
}
