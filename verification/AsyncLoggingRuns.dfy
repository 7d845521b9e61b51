/** What the log buffers hold, as interleaved steps of the appending threads and of the thread
    that writes: the part of AsyncLogging that decides what is written, and in what order. */
module AsyncLoggingRuns {
  import opened LogBuffers

  // Where the writing thread is.
  datatype Pc = Top | Locking | Writing | Stopped

  datatype State = State(
    pc: Pc,
    running: bool,
    output: seq<char>,               // what has been written
    writing: seq<seq<char>>,         // the rest of the batch,
    waiting: seq<seq<char>>,         // the full buffers,
    current: seq<char>,              // and the one being filled
    appended: seq<char>,             // every record kept, in order
    mark: seq<char>                  // those kept before the batch was last collected
  )

  datatype Step = Append(line: seq<char>) | Stop | Test | Collect | Write | Recycle

  const INIT := State(Top, true, [], [], [], [], [], [])

  predicate Enabled(s: State, a: Step) {
    match a
    case Append(_) => true
    case Stop => true
    case Test => s.pc == Top
    case Collect => s.pc == Locking
    case Write => s.pc == Writing && s.writing != []
    case Recycle => s.pc == Writing && s.writing == []
  }

  function KeptOf(line: seq<char>): seq<char> {
    if |line| < LARGE_BUFFER then line else []
  }

  // The current buffer is full: it waits, and an empty one takes its place.
  function Rotated(s: State): State {
    s.(waiting := s.waiting + [s.current], current := [])
  }

  function Filled(s: State, kept: seq<char>): State {
    s.(current := s.current + kept, appended := s.appended + kept)
  }

  function Next(s: State, a: Step): State
    requires Enabled(s, a)
  {
    match a
    case Append(line) =>
      if |line| < LARGE_BUFFER - |s.current| then Filled(s, line) else Filled(Rotated(s), KeptOf(line))
    case Stop => s.(running := false)
    case Test => s.(pc := if s.running then Locking else Stopped)
    case Collect =>
      s.(pc := Writing, writing := s.waiting + [s.current], waiting := [], current := [], mark := s.appended)
    case Write => s.(output := s.output + s.writing[0], writing := s.writing[1..])
    case Recycle => s.(pc := Top)
  }

  function Flat(ts: seq<seq<char>>): seq<char> {
    if ts == [] then [] else ts[0] + Flat(ts[1..])
  }

  lemma {:induction false} FlatJoin(ts: seq<seq<char>>, us: seq<seq<char>>)
    ensures Flat(ts + us) == Flat(ts) + Flat(us)
  {
    if ts == [] {
      assert ts + us == us;
    } else {
      assert (ts + us)[1..] == ts[1..] + us;
      FlatJoin(ts[1..], us);
    }
  }

  lemma FlatOne(t: seq<char>)
    ensures Flat([t]) == t
  {
    assert [t][1..] == [];
  }

  // Nothing is lost, nothing comes twice, and the order is kept.
  ghost predicate Inv(s: State) {
    && s.appended == s.mark + Flat(s.waiting) + s.current
    && s.mark == s.output + Flat(s.writing)
    && (s.pc != Writing ==> s.writing == [])
  }

  lemma RotatedKeepsInv(s: State)
    requires Inv(s)
    ensures Inv(Rotated(s))
  {
    hide Flat;
    FlatJoin(s.waiting, [s.current]);
    FlatOne(s.current);
  }

  lemma FilledKeepsInv(s: State, kept: seq<char>)
    requires Inv(s)
    ensures Inv(Filled(s, kept))
  {
  }

  lemma CollectKeepsInv(s: State)
    requires Inv(s) && s.pc == Locking
    ensures Inv(Next(s, Collect))
  {
    FlatJoin(s.waiting, [s.current]);
    FlatOne(s.current);
    assert s.output + Flat([]) == s.output;
  }

  lemma WriteKeepsInv(s: State)
    requires Inv(s) && Enabled(s, Write)
    ensures Inv(Next(s, Write))
  {
    var t, rest := s.writing[0], s.writing[1..];
    assert s.output + (t + Flat(rest)) == s.output + t + Flat(rest);
  }

  lemma StepKeepsInv(s: State, a: Step)
    requires Inv(s) && Enabled(s, a)
    ensures Inv(Next(s, a))
  {
    match a
    case Append(line) =>
      hide Inv;
      RotatedKeepsInv(s);
      FilledKeepsInv(s, line);
      FilledKeepsInv(Rotated(s), KeptOf(line));
    case Collect => hide Inv; CollectKeepsInv(s);
    case Write => hide Inv; WriteKeepsInv(s);
    case _ => hide Flat;
  }

  // ----- runs

  predicate Possible(run: seq<Step>)
    decreases |run|, 0
  {
    run == [] || (Possible(run[..|run| - 1]) && Enabled(After(run[..|run| - 1]), run[|run| - 1]))
  }

  function After(run: seq<Step>): State
    requires Possible(run)
    decreases |run|, 1
  {
    if run == [] then INIT else Next(After(run[..|run| - 1]), run[|run| - 1])
  }

  // The records of a run that are kept, one after the other.
  function Kept(run: seq<Step>): seq<char> {
    if run == [] then []
    else Kept(run[..|run| - 1]) + (match run[|run| - 1] case Append(line) => KeptOf(line) case _ => [])
  }

  // Those of them that come after the last collection.
  function KeptSince(run: seq<Step>): seq<char> {
    if run == [] then []
    else
      match run[|run| - 1]
      case Collect => []
      case Append(line) => KeptSince(run[..|run| - 1]) + KeptOf(line)
      case _ => KeptSince(run[..|run| - 1])
  }

  lemma {:induction false} RunKeepsInv(run: seq<Step>)
    requires Possible(run)
    ensures Inv(After(run))
  {
    hide Inv, Next;
    if run == [] {
      StartsWell();
    } else {
      RunKeepsInv(run[..|run| - 1]);
      StepKeepsInv(After(run[..|run| - 1]), run[|run| - 1]);
    }
  }

  lemma StartsWell()
    ensures Inv(INIT)
  {
  }

  lemma {:induction false} AppendedIsKept(run: seq<Step>)
    requires Possible(run)
    ensures After(run).appended == Kept(run) == After(run).mark + KeptSince(run)
  {
    if run != [] {
      var before, a := run[..|run| - 1], run[|run| - 1];
      AppendedIsKept(before);
      var s, s' := After(before), After(run);
      assert s' == Next(s, a);
      if a.Append? {
        assert s.mark + KeptSince(before) + KeptOf(a.line) == s.mark + (KeptSince(before) + KeptOf(a.line));
      }
    }
  }

  // However the threads interleave: the records kept are what has been written, what is
  // being written, what waits and what is being filled, in the order they were appended.
  lemma StreamIsKept(run: seq<Step>)
    requires Possible(run)
    ensures var s := After(run);
      && Kept(run) == s.output + Flat(s.writing) + Flat(s.waiting) + s.current
      && Kept(run) == s.mark + KeptSince(run) && s.mark == s.output + Flat(s.writing)
      && (s.pc != Writing ==> s.writing == [])
  {
    hide After;
    RunKeepsInv(run);
    AppendedIsKept(run);
  }

  // A stopped writer has written what had been appended when it last collected, and no more:
  // everything is written if and only if nothing was appended since.
  lemma StoppedLeavesTail(run: seq<Step>)
    requires Possible(run) && After(run).pc == Stopped
    ensures After(run).output + KeptSince(run) == Kept(run)
    ensures After(run).output == Kept(run) <==> KeptSince(run) == []
  {
    StreamIsKept(run);
    var s := After(run);
    assert s.output + Flat([]) == s.output;
  }

  // That is final: whatever is appended later is not written either.
  lemma {:induction false} StoppedForGood(run: seq<Step>, more: seq<Step>)
    requires Possible(run) && After(run).pc == Stopped && Possible(run + more)
    ensures After(run + more).pc == Stopped && After(run + more).output == After(run).output
  {
    if more == [] {
      assert run + more == run;
    } else {
      var n := |more| - 1;
      assert (run + more)[..|run + more| - 1] == run + more[..n] && (run + more)[|run + more| - 1] == more[n];
      StoppedForGood(run, more[..n]);
    }
  }

  // One record, and the writer is told to stop before it looks: the record is lost.
  lemma LosesRecord(line: seq<char>)
    requires 0 < |line| < LARGE_BUFFER
    ensures var run := [Append(line), Stop, Test];
      Possible(run) && After(run).pc == Stopped && Kept(run) == line && After(run).output == []
  {
    var r1, r2, r3 := [Append(line)], [Append(line), Stop], [Append(line), Stop, Test];
    assert r1[..0] == [] && r2[..1] == r1 && r3[..2] == r2;
    assert After([]) == INIT && Possible(r1);
    assert After(r1) == Filled(INIT, line) && Possible(r2);
    assert Possible(r3);
    assert Kept([]) == [] && Kept(r1) == line && Kept(r2) == line;
  }
}
