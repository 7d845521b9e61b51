/** Timers, and the two indexes the queue keeps of them. */
module Timers {

  // us is so many seconds in microseconds, the fraction dropped.
  predicate WholeMicros(us: int, seconds: real) {
    0.0 <= seconds * 1000000.0 - us as real < 1.0
  }

  // TimeStamp::addTime: seconds to whole microseconds, truncated.
  function Micros(seconds: real): (us: int)
    ensures if seconds >= 0.0 then WholeMicros(us, seconds) else WholeMicros(-us, -seconds)
  {
    var us := seconds * 1000000.0;
    if us >= 0.0 then us.Floor else -(-us).Floor
  }

  class Timer {
    var expiration: int
    var interval: real
    var repeat: bool
    var sequence: int

    constructor (when: int, interval: real, sequence: int)
      ensures expiration == when && this.interval == interval && repeat == (interval > 0.0)
      ensures this.sequence == sequence
    {
      expiration, this.interval, repeat, this.sequence := when, interval, interval > 0.0, sequence;
    }

    // The constructor run in memory that held an earlier, deleted timer.
    method Recycle(when: int, interval: real, sequence: int)
      modifies this
      ensures expiration == when && this.interval == interval && repeat == (interval > 0.0)
      ensures this.sequence == sequence
    {
      expiration, this.interval, repeat, this.sequence := when, interval, interval > 0.0, sequence;
    }

    method Restart(now: int)
      modifies this`expiration
      ensures expiration == if repeat then now + Micros(interval) else 0
      ensures repeat && interval > 0.0 ==> 0.0 <= interval * 1000000.0 - (expiration - now) as real < 1.0
    {
      if repeat {
        expiration := now + Micros(interval);
      } else {
        expiration := 0;
      }
    }
  }

  type Entry = (int, Timer)
  type ActiveTimer = (Timer, int)

  ghost function ByTime(live: set<Timer>): set<Entry>
    reads live`expiration
  {
    set t | t in live :: (t.expiration, t)
  }

  ghost function Due(live: set<Timer>, now: int): (due: set<Timer>)
    reads live`expiration
    ensures due <= live
  {
    set t | t in live && t.expiration <= now
  }

  ghost function ById(live: set<Timer>): set<ActiveTimer>
    reads live`sequence
  {
    set t | t in live :: (t, t.sequence)
  }

  lemma {:induction false} SameSize(live: set<Timer>)
    ensures |ByTime(live)| == |live| == |ById(live)|
  {
    if live != {} {
      var t :| t in live;
      var rest := live - {t};
      SameSize(rest);
      assert ByTime(live) == ByTime(rest) + {(t.expiration, t)};
      assert ById(live) == ById(rest) + {(t, t.sequence)};
    }
  }

  lemma IndexesAdd(live: set<Timer>, t: Timer)
    requires t !in live
    ensures (t.expiration, t) !in ByTime(live) && (t, t.sequence) !in ById(live)
    ensures ByTime(live + {t}) == ByTime(live) + {(t.expiration, t)}
    ensures ById(live + {t}) == ById(live) + {(t, t.sequence)}
  {
  }

  lemma IndexesRemove(live: set<Timer>, t: Timer)
    requires t in live
    ensures ByTime(live - {t}) == ByTime(live) - {(t.expiration, t)}
    ensures ById(live - {t}) == ById(live) - {(t, t.sequence)}
  {
  }

  lemma IndexesMatch(live: set<Timer>, id: ActiveTimer)
    requires id in ById(live)
    ensures id.0 in live && id.1 == id.0.sequence && (id.0.expiration, id.0) in ByTime(live)
  {
  }

  // The earliest entry, any of them among equals.
  ghost predicate Earliest(timers: set<Entry>, e: Entry) {
    e in timers && forall d :: d in timers ==> e.0 <= d.0
  }

  lemma {:induction false} EarliestExists(timers: set<Entry>) returns (e: Entry)
    requires timers != {}
    ensures Earliest(timers, e)
  {
    e :| e in timers;
    if timers != {e} {
      var d := EarliestExists(timers - {e});
      if d.0 < e.0 {
        e := d;
      }
    }
  }

  // m_timers.begin()
  method First(timers: set<Entry>) returns (e: Entry)
    requires timers != {}
    ensures Earliest(timers, e)
  {
    ghost var w := EarliestExists(timers);
    e :| e in timers && forall d :: d in timers ==> e.0 <= d.0;
  }

  // ----- batches of expired timers

  ghost function TimersOf(s: seq<Entry>): set<Timer> {
    set i | 0 <= i < |s| :: s[i].1
  }

  ghost predicate Apart(s: seq<Entry>) {
    forall i, j :: 0 <= i < j < |s| ==> s[i].1 != s[j].1
  }

  lemma ApartAt(s: seq<Entry>, k: nat)
    requires Apart(s) && k < |s|
    ensures s[k].1 in TimersOf(s) && s[k].1 !in TimersOf(s[..k])
  {
  }

  // Entries of different timers, each with its timer's expiration, the earliest first.
  ghost predicate Batch(s: seq<Entry>)
    reads TimersOf(s)
  {
    && Apart(s)
    && (forall i, j :: 0 <= i < j < |s| ==> s[i].0 <= s[j].0)
    && (forall i :: 0 <= i < |s| ==> s[i].0 == s[i].1.expiration)
  }

  lemma BatchAppend(s: seq<Entry>, e: Entry)
    requires Batch(s) && e.1 !in TimersOf(s) && e.0 == e.1.expiration
    requires forall i :: 0 <= i < |s| ==> s[i].0 <= e.0
    ensures Batch(s + [e])
  {
    forall i | 0 <= i < |s|
      ensures s[i].1 != e.1
    {
      assert s[i].1 in TimersOf(s);
    }
  }

  lemma NoneDue(rest: set<Timer>, now: int)
    requires forall e :: e in ByTime(rest) ==> now < e.0
    ensures forall t :: t in rest ==> now < t.expiration
  {
    forall t | t in rest
      ensures now < t.expiration
    {
      assert (t.expiration, t) in ByTime(rest);
    }
  }

  lemma TimersOfAppend(s: seq<Entry>, e: Entry)
    ensures TimersOf(s + [e]) == TimersOf(s) + {e.1}
  {
    var r := s + [e];
    assert r[|s|] == e && forall i :: 0 <= i < |s| ==> r[i] == s[i];
    forall t | t in TimersOf(s) + {e.1}
      ensures t in TimersOf(r)
    {
      if t in TimersOf(s) {
        var i :| 0 <= i < |s| && s[i].1 == t;
        assert r[i].1 == t;
      }
    }
  }

  lemma EmptyBatch()
    ensures Batch([])
  {
  }

  lemma BatchAt(s: seq<Entry>, k: nat)
    requires Batch(s) && k < |s|
    ensures s[k].1 in TimersOf(s) && s[k].1 !in TimersOf(s[..k]) && s[k].0 == s[k].1.expiration
    ensures Batch(s[k + 1..]) && s[k].1 !in TimersOf(s[k + 1..]) && TimersOf(s[k + 1..]) <= TimersOf(s)
  {
    forall t | t in TimersOf(s[k + 1..])
      ensures t in TimersOf(s)
    {
      var i :| 0 <= i < |s| - k - 1 && s[k + 1..][i].1 == t;
      assert s[k + 1 + i].1 == t;
    }
  }

  lemma TimersOfPart(s: seq<Entry>, k: nat)
    requires k <= |s|
    ensures TimersOf(s) == TimersOf(s[..k]) + TimersOf(s[k..])
  {
    forall t | t in TimersOf(s)
      ensures t in TimersOf(s[..k]) + TimersOf(s[k..])
    {
      var i :| 0 <= i < |s| && s[i].1 == t;
      if i < k {
        assert s[..k][i].1 == t;
      } else {
        assert s[k..][i - k].1 == t;
      }
    }
  }

  lemma HeadAndRest(e: Entry, rest: seq<Entry>)
    ensures TimersOf([e] + rest) == {e.1} + TimersOf(rest)
  {
    TimersOfPart([e] + rest, 1);
    assert ([e] + rest)[..1] == [e] && ([e] + rest)[1..] == rest;
    assert TimersOf([e]) == {e.1} by {
      assert [e][0].1 == e.1;
    }
  }

  lemma BatchFacts(s: seq<Entry>, from: set<Timer>)
    requires Batch(s) && TimersOf(s) <= from
    ensures forall i, j :: 0 <= i < j < |s| ==> s[i].1 != s[j].1 && s[i].0 <= s[j].0
    ensures forall i :: 0 <= i < |s| ==> s[i].1 in from && s[i].0 == s[i].1.expiration
  {
    forall i | 0 <= i < |s|
      ensures s[i].1 in from
    {
      BatchAt(s, i);
    }
  }
}
