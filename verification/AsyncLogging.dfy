/** AsyncLogging: front-end appends interleaved with a back end that takes the full buffers,
    writes them out and recycles them. Each method is one stretch that runs undisturbed. */
module AsyncLogging {
  import opened LogBuffers
  import opened PtrVectors
  import R = AsyncLoggingRuns

  // ----- who owns which buffer

  datatype Slot = Current | Next | Backup1 | Backup2 | Waiting(k: int) | BeingWritten(k: int) | Freed

  datatype Layout = Layout(current: LogBuffer?, next: LogBuffer?, waiting: seq<LogBuffer>,
                           backup1: LogBuffer?, backup2: LogBuffer?, writing: seq<LogBuffer>)

  function At(l: Layout, s: Slot): LogBuffer? {
    match s
    case Current => l.current
    case Next => l.next
    case Backup1 => l.backup1
    case Backup2 => l.backup2
    case Waiting(k) => if 0 <= k < |l.waiting| then l.waiting[k] else null
    case BeingWritten(k) => if 0 <= k < |l.writing| then l.writing[k] else null
    case Freed => null
  }

  // owner gives each buffer ever allocated the one place it is in; no place is missed.
  ghost predicate Owned(l: Layout, owner: map<LogBuffer, Slot>) {
    && (forall s :: At(l, s) != null ==> At(l, s) in owner && owner[At(l, s)] == s)
    && (forall b :: b in owner && owner[b] != Freed ==> At(l, owner[b]) == b)
  }

  // Each buffer has memory of its own.
  ghost predicate Backed(owner: map<LogBuffer, Slot>, memory: map<array<char>, LogBuffer>) {
    forall b :: b in owner ==> b.data in memory && memory[b.data] == b && b.data.Length == LARGE_BUFFER
  }

  // ----- what they hold

  function BuffersOf(l: Layout): set<LogBuffer> {
    (if l.current == null then {} else {l.current}) + (if l.next == null then {} else {l.next})
    + (if l.backup1 == null then {} else {l.backup1}) + (if l.backup2 == null then {} else {l.backup2})
    + (set b | b in l.waiting) + (set b | b in l.writing)
  }

  ghost predicate Holds(b: LogBuffer, t: seq<char>)
    reads b, b.data
  {
    b.Valid() && b.Contents() == t
  }

  // The text of each buffer, in its place; the spare buffers hold nothing.
  ghost predicate Others(next: LogBuffer?, waiting: seq<LogBuffer>, backup1: LogBuffer?, backup2: LogBuffer?,
                         writing: seq<LogBuffer>, wt: seq<seq<char>>, rt: seq<seq<char>>)
    reads next, backup1, backup2, waiting, writing
    reads (if next == null then {} else {next.data})
    reads (if backup1 == null then {} else {backup1.data}), (if backup2 == null then {} else {backup2.data})
    reads set b | b in waiting :: b.data, set b | b in writing :: b.data
  {
    && (next != null ==> Holds(next, []))
    && (backup1 != null ==> Holds(backup1, []))
    && (backup2 != null ==> Holds(backup2, []))
    && |waiting| == |wt| && (forall k :: 0 <= k < |wt| ==> Holds(waiting[k], wt[k]))
    && |writing| == |rt| && (forall k :: 0 <= k < |rt| ==> Holds(writing[k], rt[k]))
  }

  ghost predicate Texts(current: LogBuffer?, next: LogBuffer?, waiting: seq<LogBuffer>, backup1: LogBuffer?,
                        backup2: LogBuffer?, writing: seq<LogBuffer>,
                        ct: seq<char>, wt: seq<seq<char>>, rt: seq<seq<char>>)
    reads current, next, backup1, backup2, waiting, writing
    reads (if current == null then {} else {current.data}), (if next == null then {} else {next.data})
    reads (if backup1 == null then {} else {backup1.data}), (if backup2 == null then {} else {backup2.data})
    reads set b | b in waiting :: b.data, set b | b in writing :: b.data
  {
    current != null && Holds(current, ct) && Others(next, waiting, backup1, backup2, writing, wt, rt)
  }

  lemma FirstOwners(b0: LogBuffer, b1: LogBuffer, b2: LogBuffer, b3: LogBuffer)
    requires b0 != b1 && b0 != b2 && b0 != b3 && b1 != b2 && b1 != b3 && b2 != b3
    requires b0.data != b1.data && b0.data != b2.data && b0.data != b3.data
    requires b1.data != b2.data && b1.data != b3.data && b2.data != b3.data
    requires b0.data.Length == b1.data.Length == b2.data.Length == b3.data.Length == LARGE_BUFFER
    ensures var owner := map[b0 := Current, b1 := Next, b2 := Backup1, b3 := Backup2];
      Owned(Layout(b0, b1, [], b2, b3, []), owner) &&
      Backed(owner, map[b0.data := b0, b1.data := b1, b2.data := b2, b3.data := b3])
  {
  }

  lemma BackedAdd(owner: map<LogBuffer, Slot>, memory: map<array<char>, LogBuffer>,
                  b: LogBuffer, s: Slot, c: LogBuffer, t: Slot)
    requires Backed(owner, memory) && b in owner && c.data.Length == LARGE_BUFFER
    requires c.data in memory ==> memory[c.data] == c
    ensures Backed(owner[b := s][c := t], memory[c.data := c])
  {
  }

  lemma BackedSame(owner: map<LogBuffer, Slot>, owner': map<LogBuffer, Slot>, memory: map<array<char>, LogBuffer>)
    requires Backed(owner, memory) && owner.Keys == owner'.Keys
    ensures Backed(owner', memory)
  {
  }

  lemma OwnerOfCurrent(l: Layout, owner: map<LogBuffer, Slot>, memory: map<array<char>, LogBuffer>)
    requires Owned(l, owner) && Backed(owner, memory) && l.current != null
    ensures l.current in owner
    ensures l.next != null ==> l.next.data in memory && memory[l.next.data] == l.next && l.next.data.Length == LARGE_BUFFER
  {
    assert At(l, Current) == l.current && At(l, Next) == l.next;
  }

  // The buffers of the batch are apart from one another and from all others.
  lemma BatchApart(l: Layout, owner: map<LogBuffer, Slot>)
    requires Owned(l, owner)
    ensures forall j, k :: 0 <= j < k < |l.writing| ==> l.writing[j] != l.writing[k]
    ensures forall b :: b in l.writing ==>
      b != l.current && b != l.next && b != l.backup1 && b != l.backup2 && b !in l.waiting
  {
    assert At(l, Current) == l.current && At(l, Next) == l.next;
    assert At(l, Backup1) == l.backup1 && At(l, Backup2) == l.backup2;
    assert forall j :: 0 <= j < |l.waiting| ==> At(l, Waiting(j)) == l.waiting[j];
    assert forall j :: 0 <= j < |l.writing| ==> At(l, BeingWritten(j)) == l.writing[j];
  }

  lemma OwnersDiffer(l: Layout, owner: map<LogBuffer, Slot>, memory: map<array<char>, LogBuffer>)
    requires Owned(l, owner) && Backed(owner, memory) && l.current != null
    ensures l.current in owner && l.current.data.Length == LARGE_BUFFER
    ensures l.next != null ==> l.next.data in memory && memory[l.next.data] == l.next && l.next.data.Length == LARGE_BUFFER
    ensures forall b :: b in BuffersOf(l.(current := null)) ==> b != l.current && b.data != l.current.data
  {
    assert At(l, Current) == l.current && At(l, Next) == l.next;
    assert At(l, Backup1) == l.backup1 && At(l, Backup2) == l.backup2;
    assert forall k :: 0 <= k < |l.waiting| ==> At(l, Waiting(k)) == l.waiting[k];
    assert forall k :: 0 <= k < |l.writing| ==> At(l, BeingWritten(k)) == l.writing[k];
  }

  // The current buffer joins the waiting ones; b takes its place.
  function Rotated(l: Layout, b: LogBuffer): Layout {
    l.(current := b, next := null, waiting := if l.current == null then l.waiting else l.waiting + [l.current])
  }

  lemma FirstTexts(b0: LogBuffer, b1: LogBuffer, b2: LogBuffer, b3: LogBuffer)
    requires Holds(b0, []) && Holds(b1, []) && Holds(b2, []) && Holds(b3, [])
    ensures Texts(b0, b1, [], b2, b3, [], [], [], [])
  {
  }

  lemma TextsRotate(current: LogBuffer, next: LogBuffer?, waiting: seq<LogBuffer>, backup1: LogBuffer?,
                    backup2: LogBuffer?, writing: seq<LogBuffer>,
                    ct: seq<char>, wt: seq<seq<char>>, rt: seq<seq<char>>, b: LogBuffer)
    requires Texts(current, next, waiting, backup1, backup2, writing, ct, wt, rt) && Holds(b, [])
    ensures Texts(b, null, waiting + [current], backup1, backup2, writing, [], wt + [ct], rt)
  {
  }

  lemma TextsCollect(current: LogBuffer, next: LogBuffer?, waiting: seq<LogBuffer>, backup1: LogBuffer,
                     backup2: LogBuffer, ct: seq<char>, wt: seq<seq<char>>)
    requires Texts(current, next, waiting, backup1, backup2, [], ct, wt, [])
    ensures next == null ==> Texts(backup1, backup2, [], null, null, waiting + [current], [], [], wt + [ct])
    ensures next != null ==> Texts(backup1, next, [], null, backup2, waiting + [current], [], [], wt + [ct])
  {
  }

  lemma OwnedRotate(l: Layout, owner: map<LogBuffer, Slot>, b: LogBuffer)
    requires Owned(l, owner) && l.current != null && (if l.next != null then b == l.next else b !in owner)
    ensures Owned(Rotated(l, b), owner[l.current := Waiting(|l.waiting|)][b := Current])
  {
    var l' := Rotated(l, b);
    assert At(l, Current) == l.current && At(l, Next) == l.next;
    assert At(l', Waiting(|l.waiting|)) == l.current;
    assert forall s :: s != Current && s != Next && s != Waiting(|l.waiting|) ==> At(l', s) == At(l, s);
  }

  // Everything waiting, and the current buffer, is to be written; the spares move up.
  ghost function Collected(l: Layout): Layout {
    Layout(l.backup1, if l.next == null then l.backup2 else l.next, [], null,
           if l.next == null then null else l.backup2,
           if l.current == null then l.waiting else l.waiting + [l.current])
  }

  ghost function CollectedSlot(l: Layout, s: Slot): Slot {
    match s
    case Waiting(k) => BeingWritten(k)
    case Current => BeingWritten(|l.waiting|)
    case Backup1 => Current
    case Backup2 => if l.next == null then Next else Backup2
    case _ => s
  }

  lemma TextsDrop(current: LogBuffer, next: LogBuffer?, waiting: seq<LogBuffer>, backup2: LogBuffer?,
                  writing: seq<LogBuffer>, ct: seq<char>, wt: seq<seq<char>>, rt: seq<seq<char>>)
    requires Texts(current, next, waiting, null, backup2, writing, ct, wt, rt)
    ensures Texts(current, next, waiting, null, backup2, [], ct, wt, []) && |writing| == |rt|
  {
  }

  lemma TextsCount(current: LogBuffer?, next: LogBuffer?, waiting: seq<LogBuffer>, backup1: LogBuffer?,
                   backup2: LogBuffer?, writing: seq<LogBuffer>,
                   ct: seq<char>, wt: seq<seq<char>>, rt: seq<seq<char>>)
    requires Texts(current, next, waiting, backup1, backup2, writing, ct, wt, rt)
    ensures |writing| == |rt| && |waiting| == |wt|
  {
  }

  lemma TextsSpare(current: LogBuffer, next: LogBuffer?, waiting: seq<LogBuffer>, backup1: LogBuffer?,
                   backup2: LogBuffer?, spare: LogBuffer, ct: seq<char>, wt: seq<seq<char>>)
    requires Texts(current, next, waiting, backup1, backup2, [], ct, wt, []) && Holds(spare, [])
    ensures backup1 == null ==> Texts(current, next, waiting, spare, backup2, [], ct, wt, [])
    ensures backup2 == null ==> Texts(current, next, waiting, backup1, spare, [], ct, wt, [])
  {
  }

  lemma OwnedCollect(l: Layout, owner: map<LogBuffer, Slot>)
    requires Owned(l, owner) && l.current != null && l.writing == []
    ensures Owned(Collected(l), map b | b in owner :: CollectedSlot(l, owner[b]))
  {
    var l', owner' := Collected(l), map b | b in owner :: CollectedSlot(l, owner[b]);
    forall s | At(l', s) != null
      ensures At(l', s) in owner' && owner'[At(l', s)] == s
    {
      var s0 :=
        match s
        case BeingWritten(k) => if k == |l.waiting| then Current else Waiting(k)
        case Current => Backup1
        case Next => if l.next == null then Backup2 else Next
        case _ => s;
      assert At(l, s0) == At(l', s) && CollectedSlot(l, s0) == s;
    }
    forall b | b in owner' && owner'[b] != Freed
      ensures At(l', owner'[b]) == b
    {
      assert At(l, owner[b]) == b;
    }
  }

  // Of a batch that has been written, the last of the first two buffers becomes the first
  // spare, the one before it the second if that is missing, and the rest are deleted.
  function Kept(l: Layout): nat {
    if |l.writing| > 2 then 2 else |l.writing|
  }

  function Recycled(l: Layout): Layout
    requires |l.writing| >= if l.backup2 == null then 2 else 1
  {
    l.(backup1 := l.writing[Kept(l) - 1],
       backup2 := if l.backup2 == null then l.writing[Kept(l) - 2] else l.backup2,
       writing := [])
  }

  function RecycledSlot(l: Layout, s: Slot): Slot {
    match s
    case BeingWritten(k) =>
      if k == Kept(l) - 1 then Backup1 else if l.backup2 == null && k == Kept(l) - 2 then Backup2 else Freed
    case _ => s
  }

  lemma OwnedRecycle(l: Layout, owner: map<LogBuffer, Slot>)
    requires Owned(l, owner) && l.backup1 == null && |l.writing| >= if l.backup2 == null then 2 else 1
    ensures Owned(Recycled(l), map b | b in owner :: RecycledSlot(l, owner[b]))
  {
    var l', owner' := Recycled(l), map b | b in owner :: RecycledSlot(l, owner[b]);
    forall s | At(l', s) != null
      ensures At(l', s) in owner' && owner'[At(l', s)] == s
    {
      var s0 :=
        match s
        case Backup1 => BeingWritten(Kept(l) - 1)
        case Backup2 => if l.backup2 == null then BeingWritten(Kept(l) - 2) else s
        case _ => s;
      assert At(l, s0) == At(l', s) && RecycledSlot(l, s0) == s;
    }
    forall b | b in owner' && owner'[b] != Freed
      ensures At(l', owner'[b]) == b
    {
      assert At(l, owner[b]) == b;
    }
  }

  // What the two recycling pops rely on.
  ghost predicate Staged(l: Layout, pc: R.Pc, i: nat) {
    && (l.next == null ==> l.waiting != [])
    && (pc != R.Writing ==>
          l.backup1 != null && l.backup2 != null && l.writing == [] && i == 0)
    && (pc == R.Writing ==> l.backup1 == null && |l.writing| >= (if l.backup2 == null then 2 else 1) && i <= |l.writing|)
  }

  // What the proof keeps about a logger besides its fields.
  datatype Ledger = Ledger(
    pc: R.Pc,
    appended: seq<char>,
    mark: seq<char>,                 // what had been appended at the last collection
    waiting: seq<seq<char>>,         // the texts of the buffers in the vector,
    writing: seq<seq<char>>,         // of those in the batch,
    current: seq<char>,              // and of the current one
    owner: map<LogBuffer, Slot>,
    memory: map<array<char>, LogBuffer>
  )

  // Who has which buffer: each has one owner, and the spares are where they are needed.
  ghost predicate Accounted(l: Layout, g: Ledger, i: nat) {
    && Owned(l, g.owner) && Backed(g.owner, g.memory)
    && Staged(l, g.pc, i) && i <= |g.writing|
  }

  // A buffer once deleted stays deleted.
  ghost predicate StaysFreed(owner: map<LogBuffer, Slot>, owner': map<LogBuffer, Slot>) {
    forall b :: b in owner && owner[b] == Freed ==> b in owner' && owner'[b] == Freed
  }

  ghost function FirstLedger(b0: LogBuffer, b1: LogBuffer, b2: LogBuffer, b3: LogBuffer): Ledger {
    Ledger(R.Top, [], [], [], [], [], map[b0 := Current, b1 := Next, b2 := Backup1, b3 := Backup2],
           map[b0.data := b0, b1.data := b1, b2.data := b2, b3.data := b3])
  }

  lemma FirstAccounted(b0: LogBuffer, b1: LogBuffer, b2: LogBuffer, b3: LogBuffer)
    requires b0 != b1 && b0 != b2 && b0 != b3 && b1 != b2 && b1 != b3 && b2 != b3
    requires b0.data != b1.data && b0.data != b2.data && b0.data != b3.data
    requires b1.data != b2.data && b1.data != b3.data && b2.data != b3.data
    requires b0.data.Length == b1.data.Length == b2.data.Length == b3.data.Length == LARGE_BUFFER
    ensures var g := FirstLedger(b0, b1, b2, b3);
      && Accounted(Layout(b0, b1, [], b2, b3, []), g, 0)
      && g.pc == R.Top && g.appended == [] && g.mark == [] && g.current == [] && g.waiting == [] && g.writing == []
  {
    hide Owned, Backed;
    FirstOwners(b0, b1, b2, b3);
  }

  lemma PutAccounted(l: Layout, g: Ledger, i: nat, kept: seq<char>)
    requires Accounted(l, g, i)
    ensures Accounted(l, g.(current := g.current + kept, appended := g.appended + kept), i)
  {
  }

  ghost function RotatedLedger(g: Ledger, l: Layout, b: LogBuffer): Ledger
    requires l.current != null
  {
    g.(owner := g.owner[l.current := Waiting(|l.waiting|)][b := Current], memory := g.memory[b.data := b],
       waiting := g.waiting + [g.current], current := [])
  }

  lemma RotateAccounted(l: Layout, g: Ledger, i: nat, b: LogBuffer)
    requires Accounted(l, g, i) && l.current != null && b.data.Length == LARGE_BUFFER
    requires if l.next != null then b == l.next else b !in g.owner && b.data !in g.memory
    ensures Accounted(Rotated(l, b), RotatedLedger(g, l, b), i)
    ensures StaysFreed(g.owner, RotatedLedger(g, l, b).owner)
  {
    hide Backed;
    OwnerOfCurrent(l, g.owner, g.memory);
    OwnedRotate(l, g.owner, b);
    BackedAdd(g.owner, g.memory, l.current, Waiting(|l.waiting|), b, Current);
    assert At(l, Current) == l.current && At(l, Next) == l.next;
  }

  ghost function CollectedLedger(g: Ledger, l: Layout): Ledger {
    g.(pc := R.Writing, mark := g.appended, owner := map b | b in g.owner :: CollectedSlot(l, g.owner[b]),
       waiting := [], writing := g.waiting + [g.current], current := [])
  }

  lemma CollectAccounted(l: Layout, g: Ledger, i: nat)
    requires Accounted(l, g, i) && l.current != null && g.pc == R.Locking
    ensures Accounted(Collected(l), CollectedLedger(g, l), 0)
    ensures StaysFreed(g.owner, CollectedLedger(g, l).owner)
  {
    hide Owned, Backed;
    OwnedCollect(l, g.owner);
    BackedSame(g.owner, CollectedLedger(g, l).owner, g.memory);
  }

  ghost function RecycledLedger(g: Ledger, l: Layout): Ledger {
    g.(pc := R.Top, owner := map b | b in g.owner :: RecycledSlot(l, g.owner[b]), writing := [])
  }

  lemma RecycleAccounted(l: Layout, g: Ledger, i: nat)
    requires Accounted(l, g, i) && l.current != null && g.pc == R.Writing
    ensures l.backup1 == null && |l.writing| >= if l.backup2 == null then 2 else 1
    ensures Accounted(Recycled(l), RecycledLedger(g, l), 0)
    ensures StaysFreed(g.owner, RecycledLedger(g, l).owner)
  {
    hide Owned, Backed;
    OwnedRecycle(l, g.owner);
    BackedSame(g.owner, RecycledLedger(g, l).owner, g.memory);
  }

  class AsyncLogging {
    var isRunning: bool
    var current: LogBuffer?
    var next: LogBuffer?
    const buffers: PtrVector
    var backup1: LogBuffer?        // locals of threadRoutine
    var backup2: LogBuffer?
    const toWrite: PtrVector
    var i: nat
    var output: seq<char>
    ghost var g: Ledger

    ghost function Places(): Layout
      reads this, buffers, toWrite
    {
      Layout(current, next, buffers.items, backup1, backup2, toWrite.items)
    }

    ghost function View(): R.State
      reads this`isRunning, this`output, this`i, this`g
      requires i <= |g.writing|
    {
      R.State(g.pc, isRunning, output, g.writing[i..], g.waiting, g.current, g.appended, g.mark)
    }

    ghost predicate Valid()
      reads this, buffers, toWrite, current, next, backup1, backup2, buffers.items, toWrite.items
      reads (if current == null then {} else {current.data}), (if next == null then {} else {next.data})
      reads (if backup1 == null then {} else {backup1.data}), (if backup2 == null then {} else {backup2.data})
      reads set b | b in buffers.items :: b.data, set b | b in toWrite.items :: b.data
    {
      && buffers != toWrite
      && current != null
      && Accounted(Places(), g, i) && i <= |g.writing| && R.Inv(View())
      && Texts(current, next, buffers.items, backup1, backup2, toWrite.items, g.current, g.waiting, g.writing)
    }

    constructor ()
      ensures Valid() && View() == R.INIT
    {
      hide Accounted, FirstLedger, Texts, R.Inv;
      isRunning := true;
      var b0 := new LogBuffer(LARGE_BUFFER);
      var b1 := new LogBuffer(LARGE_BUFFER);
      var b2 := new LogBuffer(LARGE_BUFFER);
      var b3 := new LogBuffer(LARGE_BUFFER);
      current, next, backup1, backup2 := b0, b1, b2, b3;
      buffers := new PtrVector();
      toWrite := new PtrVector();
      i, output := 0, [];
      g := FirstLedger(b0, b1, b2, b3);
      new;
      FirstAccounted(b0, b1, b2, b3);
      FirstTexts(b0, b1, b2, b3);
      R.StartsWell();
    }

    // The end of append: the record goes into the current buffer, if it fits.
    method Put(line: seq<char>)
      requires Valid()
      modifies this`g, current, current.data
      ensures Valid() && g.owner == old(g.owner)
      ensures View() == R.Filled(old(View()), if |line| < LARGE_BUFFER - |old(g.current)| then line else [])
    {
      hide Accounted, Texts, BuffersOf, R.Inv;
      CurrentApart();
      ghost var kept := if |line| < LARGE_BUFFER - current.cur then line else [];
      PutAccounted(Places(), g, i, kept);
      R.FilledKeepsInv(View(), kept);
      PutText(line, g.current, g.waiting, g.writing);
      g := g.(current := g.current + kept, appended := g.appended + kept);
    }

    lemma CurrentApart()
      requires Valid()
      ensures current != null && current.data.Length == LARGE_BUFFER && current.cur == |g.current|
      ensures forall b :: b in BuffersOf(Places().(current := null)) ==> b != current && b.data != current.data
    {
      OwnersDiffer(Places(), g.owner, g.memory);
    }

    method PutText(line: seq<char>, ghost ct: seq<char>, ghost wt: seq<seq<char>>, ghost rt: seq<seq<char>>)
      requires current != null && Texts(current, next, buffers.items, backup1, backup2, toWrite.items, ct, wt, rt)
      requires current.data.Length == LARGE_BUFFER
      requires forall b :: b in BuffersOf(Places().(current := null)) ==> b != current && b.data != current.data
      modifies current, current.data
      ensures Texts(current, next, buffers.items, backup1, backup2, toWrite.items,
                    ct + if |line| < LARGE_BUFFER - old(current.cur) then line else [], wt, rt)
    {
      current.Append(line);
    }

    // An empty buffer for append: the next one, or a new one.
    method TakeNext() returns (b: LogBuffer)
      requires next != null ==> Holds(next, []) && next.data.Length == LARGE_BUFFER
      ensures Holds(b, []) && b.data.Length == LARGE_BUFFER
      ensures if next == null then fresh(b) && fresh(b.data) else b == next
    {
      if next != null {
        b := next;
      } else {
        b := new LogBuffer(LARGE_BUFFER);
      }
    }

    // The full buffer is handed over, and the empty buffer b is current.
    method HandOver(b: LogBuffer)
      requires Valid() && Holds(b, []) && b.data.Length == LARGE_BUFFER
      requires if next != null then b == next else b !in g.owner && b.data !in g.memory
      modifies this`current, this`next, this`g, buffers
      ensures Valid() && current == b && View() == R.Rotated(old(View()))
      ensures StaysFreed(old(g.owner), g.owner)
    {
      hide Accounted, Texts, Holds, RotatedLedger, StaysFreed, R.Inv;
      ghost var l := Places();
      RotateAccounted(l, g, i, b);
      R.RotatedKeepsInv(View());
      g := RotatedLedger(g, l, b);
      LedgerRotated(old(g), l, b);
      Replace(b, old(g).current, old(g).waiting, old(g).writing);
    }

    method Replace(b: LogBuffer, ghost ct: seq<char>, ghost wt: seq<seq<char>>, ghost rt: seq<seq<char>>)
      requires buffers != toWrite && current != null && Holds(b, [])
      requires Texts(current, next, buffers.items, backup1, backup2, toWrite.items, ct, wt, rt)
      modifies this`current, this`next, buffers
      ensures current == b && Places() == Rotated(old(Places()), b)
      ensures Texts(b, next, buffers.items, backup1, backup2, toWrite.items, [], wt + [ct], rt)
    {
      hide Texts, Holds;
      ghost var l := Places();
      buffers.PushBack(current);
      current, next := b, null;
      TextsRotate(l.current, l.next, l.waiting, l.backup1, l.backup2, l.writing, ct, wt, rt, b);
    }

    lemma LedgerRotated(g: Ledger, l: Layout, b: LogBuffer)
      requires l.current != null
      ensures var g' := RotatedLedger(g, l, b);
        && g'.current == [] && g'.waiting == g.waiting + [g.current] && g'.writing == g.writing
        && g'.appended == g.appended && g'.mark == g.mark && g'.pc == g.pc
    {
    }

    lemma CurrentIsThere()
      requires Valid()
      ensures current != null && current.Valid() && (next != null ==> Holds(next, []))
    {
    }

    // The other part of append: it makes an empty buffer current.
    method Rotate()
      requires Valid()
      modifies this`current, this`next, this`g, buffers
      ensures Valid() && current.cur == 0 && View() == R.Rotated(old(View()))
      ensures if old(next) == null then fresh(current) && fresh(current.data) else current == old(next)
      ensures StaysFreed(old(g.owner), g.owner)
    {
      hide Texts, StaysFreed, R.Inv;
      CurrentIsThere();
      OwnerOfCurrent(Places(), g.owner, g.memory);
      hide Accounted;
      var b := TakeNext();
      HandOver(b);
    }

    // append: a record is kept exactly when it is shorter than a buffer.
    method Append(line: seq<char>)
      requires Valid()
      modifies this`current, this`next, this`g, buffers
      modifies current, current.data, next, if next == null then {} else {next.data}
      ensures Valid() && View() == R.Next(old(View()), R.Append(line))
      ensures g.appended == old(g.appended) + if |line| < LARGE_BUFFER then line else []
      ensures StaysFreed(old(g.owner), g.owner)
    {
      hide Accounted, Texts, Holds, StaysFreed, BuffersOf, R.Inv;
      CurrentIsThere();
      CurrentApart();
      NoneRevived();
      if current.Avail() <= |line| {
        Rotate();
      }
      Put(line);
    }

    lemma NoneRevived()
      ensures StaysFreed(g.owner, g.owner)
    {
    }

    method Stop()
      requires Valid()
      modifies this`isRunning
      ensures Valid() && View() == R.Next(old(View()), R.Stop)
    {
      hide R.Inv;
      R.StepKeepsInv(View(), R.Stop);
      isRunning := false;
    }

    // The back end's while; out of it, nothing more is collected.
    method LoopTest() returns (goOn: bool)
      requires Valid() && g.pc == R.Top
      modifies this`g
      ensures Valid() && View() == R.Next(old(View()), R.Test)
      ensures (goOn <==> isRunning) && g.owner == old(g.owner)
    {
      hide Owned, Backed, Texts, R.Inv;
      R.StepKeepsInv(View(), R.Test);
      goOn := isRunning;
      g := g.(pc := if goOn then R.Locking else R.Stopped);
    }

    // The back end's stretch under the lock.
    method Collect()
      requires Valid() && g.pc == R.Locking
      modifies this`current, this`next, this`backup1, this`backup2, this`i, this`g, buffers, toWrite
      ensures Valid() && View() == R.Next(old(View()), R.Collect) && i == 0
      ensures toWrite.items == old(buffers.items) + [old(current)] && buffers.items == []
      ensures current == old(backup1) && current.Valid() && current.Contents() == []
      ensures g.appended == old(g.appended) && StaysFreed(old(g.owner), g.owner)
    {
      NothingBeingWritten();
      hide Accounted, Texts, Holds, CollectedLedger, Collected, StaysFreed, R.Inv;
      ghost var l := Places();
      CollectAccounted(l, g, i);
      R.StepKeepsInv(View(), R.Collect);
      TakeAll();
      g := CollectedLedger(g, l);
      LedgerCollected(old(g), l);
      CollectedIs(l);
      assert (g.waiting + [g.current])[0..] == g.waiting + [g.current];
      TextsCollect(l.current, l.next, l.waiting, l.backup1, l.backup2, old(g).current, old(g).waiting);
      CurrentIsEmpty();
    }

    lemma CurrentIsEmpty()
      requires current != null && Texts(current, next, buffers.items, backup1, backup2, toWrite.items, [], g.waiting, g.writing)
      ensures current.Valid() && current.Contents() == []
    {
    }

    // The moves of it.
    method TakeAll()
      requires current != null && toWrite.items == [] && buffers != toWrite
      modifies this`current, this`next, this`backup1, this`backup2, this`i, buffers, toWrite
      ensures Places() == Collected(old(Places())) && i == 0
    {
      buffers.PushBack(current);
      current, backup1 := backup1, null;
      buffers.Swap(toWrite);
      if next == null {
        next, backup2 := backup2, null;
      }
      i := 0;
    }

    lemma CollectedIs(l: Layout)
      ensures var l' := Collected(l);
        && l'.current == l.backup1 && l'.next == (if l.next == null then l.backup2 else l.next)
        && l'.waiting == [] && l'.backup1 == null && l'.backup2 == (if l.next == null then null else l.backup2)
        && l'.writing == if l.current == null then l.waiting else l.waiting + [l.current]
    {
    }

    lemma LedgerCollected(g: Ledger, l: Layout)
      ensures var g' := CollectedLedger(g, l);
        && g'.pc == R.Writing && g'.current == [] && g'.waiting == [] && g'.writing == g.waiting + [g.current]
        && g'.appended == g.appended == g'.mark
    {
    }

    lemma NothingBeingWritten()
      requires Valid() && g.pc != R.Writing
      ensures g.writing == [] && toWrite.items == [] && i == 0 && |g.waiting| == |buffers.items|
      ensures backup1 != null && backup2 != null
    {
    }

    // One turn of the loop that writes the batch out.
    method WriteNext()
      requires Valid() && g.pc == R.Writing && i < |toWrite.items|
      modifies this`output, this`i
      ensures Valid() && View() == R.Next(old(View()), R.Write) && i == old(i) + 1
      ensures output == old(output) + toWrite.items[old(i)].Contents()
    {
      hide Owned, Backed, R.Inv;
      assert View().writing[1..] == g.writing[i + 1..];
      R.StepKeepsInv(View(), R.Write);
      output := output + toWrite.items[i].Contents();
      i := i + 1;
    }

    // The other buffers' texts, as they stand when the batch is out of the way.
    ghost predicate Rest(ct: seq<char>, wt: seq<seq<char>>)
      reads this`current, this`next, this`backup1, this`backup2, buffers, current, next, backup1, backup2, buffers.items
      reads (if current == null then {} else {current.data}), (if next == null then {} else {next.data})
      reads (if backup1 == null then {} else {backup1.data}), (if backup2 == null then {} else {backup2.data})
      reads set b | b in buffers.items :: b.data
    {
      current != null && Texts(current, next, buffers.items, backup1, backup2, [], ct, wt, [])
    }

    ghost predicate Aside(b: LogBuffer)
      reads this`current, this`next, this`backup1, this`backup2, buffers
    {
      b != current && b != next && b != backup1 && b != backup2 && b !in buffers.items
    }

    method PopReset(ghost ct: seq<char>, ghost wt: seq<seq<char>>) returns (b: LogBuffer)
      requires toWrite.items != [] && buffers != toWrite && Rest(ct, wt) && Aside(toWrite.items[|toWrite.items| - 1])
      modifies toWrite, toWrite.items[|toWrite.items| - 1]
      ensures toWrite.items + [b] == old(toWrite.items) && Holds(b, []) && Rest(ct, wt)
    {
      hide Texts;
      b := toWrite.PopBack();
      b.Reset();
    }

    // The written batch is cut to two buffers,
    method CutToTwo()
      requires buffers != toWrite
      modifies toWrite
      ensures toWrite.items == old(toWrite.items)[..old(Kept(Places()))]
    {
      if |toWrite.items| > 2 {
        ghost var deleted := toWrite.Resize(2, LARGE_BUFFER);
      }
    }

    // and the last of them becomes the first spare.
    method TakeFirst(ghost ct: seq<char>, ghost wt: seq<seq<char>>)
      requires backup1 == null && toWrite.items != [] && buffers != toWrite && Rest(ct, wt)
      requires Aside(toWrite.items[Kept(Places()) - 1])
      modifies this`backup1, toWrite, toWrite.items
      ensures Rest(ct, wt) && backup1 == old(toWrite.items)[old(Kept(Places())) - 1]
      ensures toWrite.items == old(toWrite.items)[..old(Kept(Places())) - 1]
    {
      hide Texts, Holds;
      ghost var w, n := toWrite.items, Kept(Places());
      CutToTwo();
      hide Kept;
      assert toWrite.items[|toWrite.items| - 1] == w[n - 1] && w[n - 1] in w;
      var b := PopReset(ct, wt);
      TextsSpare(current, next, buffers.items, backup1, backup2, b, ct, wt);
      backup1 := b;
    }

    method TakeSecond(ghost ct: seq<char>, ghost wt: seq<seq<char>>)
      requires backup2 == null && toWrite.items != [] && buffers != toWrite && Rest(ct, wt)
      requires Aside(toWrite.items[|toWrite.items| - 1])
      modifies this`backup2, toWrite, toWrite.items
      ensures Rest(ct, wt) && backup2 == old(toWrite.items)[old(|toWrite.items|) - 1]
    {
      hide Texts, Holds;
      var b := PopReset(ct, wt);
      TextsSpare(current, next, buffers.items, backup1, backup2, b, ct, wt);
      backup2 := b;
    }

    method TakeSpares(ghost ct: seq<char>, ghost wt: seq<seq<char>>)
      requires backup1 == null && |toWrite.items| >= if backup2 == null then 2 else 1
      requires forall j, k :: 0 <= j < k < |toWrite.items| ==> toWrite.items[j] != toWrite.items[k]
      requires buffers != toWrite && Rest(ct, wt) && forall b :: b in toWrite.items ==> Aside(b)
      modifies this`backup1, this`backup2, toWrite, toWrite.items
      ensures Rest(ct, wt)
      ensures var l := old(Places());
        && backup1 == l.writing[Kept(l) - 1]
        && backup2 == if l.backup2 == null then l.writing[Kept(l) - 2] else l.backup2
    {
      hide Rest;
      ghost var w, n := toWrite.items, Kept(Places());
      assert w[n - 1] in w;
      TakeFirst(ct, wt);
      if backup2 == null {
        assert toWrite.items == w[..n - 1] && w[n - 2] in w && Aside(w[n - 2]);
        TakeSecond(ct, wt);
      }
    }

    // The end of the back end's turn.
    method Recycle()
      requires Valid() && g.pc == R.Writing && i == |toWrite.items|
      modifies this`backup1, this`backup2, this`i, this`g, toWrite, toWrite.items
      ensures Valid() && View() == R.Next(old(View()), R.Recycle)
      ensures g.appended == old(g.appended) && StaysFreed(old(g.owner), g.owner)
    {
      hide Texts, Holds, Accounted, RecycledLedger, Rest, Aside, Kept, StaysFreed, R.Inv;
      ghost var l := Places();
      BatchIsAside();
      RecycleAccounted(l, g, i);
      R.StepKeepsInv(View(), R.Recycle);
      LedgerRecycled(g, l);
      TakeAndClear(g.current, g.waiting);
      i := 0;
      g := RecycledLedger(g, l);
    }

    method TakeAndClear(ghost ct: seq<char>, ghost wt: seq<seq<char>>)
      requires backup1 == null && |toWrite.items| >= if backup2 == null then 2 else 1
      requires forall j, k :: 0 <= j < k < |toWrite.items| ==> toWrite.items[j] != toWrite.items[k]
      requires buffers != toWrite && Rest(ct, wt) && forall b :: b in toWrite.items ==> Aside(b)
      modifies this`backup1, this`backup2, toWrite, toWrite.items
      ensures current != null && Places() == Recycled(old(Places()))
      ensures Texts(current, next, buffers.items, backup1, backup2, toWrite.items, ct, wt, [])
    {
      hide Texts, Rest, Aside, Kept;
      TakeSpares(ct, wt);
      ghost var deleted := toWrite.Clear();
      RestIs(ct, wt);
    }

    lemma BatchIsAside()
      requires Valid()
      ensures |g.writing| == |toWrite.items|
      ensures forall j, k :: 0 <= j < k < |toWrite.items| ==> toWrite.items[j] != toWrite.items[k]
      ensures forall b :: b in toWrite.items ==> Aside(b)
      ensures g.pc == R.Writing ==> Rest(g.current, g.waiting)
    {
      hide Texts;
      TextsCount(current, next, buffers.items, backup1, backup2, toWrite.items, g.current, g.waiting, g.writing);
      BatchApart(Places(), g.owner);
      if g.pc == R.Writing {
        TextsDrop(current, next, buffers.items, backup2, toWrite.items, g.current, g.waiting, g.writing);
      }
    }

    lemma RestIs(ct: seq<char>, wt: seq<seq<char>>)
      ensures Rest(ct, wt) == (current != null && Texts(current, next, buffers.items, backup1, backup2, [], ct, wt, []))
    {
    }

    lemma LedgerRecycled(g: Ledger, l: Layout)
      ensures var g' := RecycledLedger(g, l);
        && g'.pc == R.Top && g'.current == g.current && g'.waiting == g.waiting && g'.writing == []
        && g'.appended == g.appended && g'.mark == g.mark
    {
    }

    // After stop() the back end has written exactly what had been appended when it last
    // collected: all there is if and only if nothing has been appended since.
    lemma StoppedLeavesTail()
      requires Valid() && g.pc == R.Stopped
      ensures output == g.mark && g.appended == g.mark + R.Flat(g.waiting) + g.current
      ensures output == g.appended <==> g.mark == g.appended
    {
      assert R.Flat([]) == [];
    }
  }
}
