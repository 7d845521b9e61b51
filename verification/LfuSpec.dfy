/** What the cache is for, on plain values: each key keeps a use count, and a full
    cache gives up the least used key, the least recently touched one among equals. */
module LfuSpec {

  // One cached key: its value and 1 plus its hits since it was inserted.
  datatype Cell = Cell(key: string, value: string, count: int)

  datatype Op = Get(key: string) | Set(key: string, value: string)

  function InsertAt<T>(s: seq<T>, i: nat, x: T): seq<T>
    requires i <= |s|
  {
    s[..i] + [x] + s[i..]
  }

  function RemoveAt<T>(s: seq<T>, i: nat): seq<T>
    requires i < |s|
  {
    s[..i] + s[i + 1..]
  }

  lemma InsertedAt<T>(s: seq<T>, i: nat, x: T)
    requires i <= |s|
    ensures var r := InsertAt(s, i, x);
      && |r| == |s| + 1
      && forall k :: 0 <= k < |r| ==> r[k] == if k < i then s[k] else if k == i then x else s[k - 1]
  {
  }

  // The position of key k, or |t| when it is absent.
  function IndexOf(t: seq<Cell>, k: string): (p: nat)
    ensures p <= |t|
    ensures p < |t| ==> t[p].key == k
    ensures forall q :: 0 <= q < p ==> t[q].key != k
  {
    if t == [] || t[0].key == k then 0 else 1 + IndexOf(t[1..], k)
  }

  predicate Has(t: seq<Cell>, k: string) {
    IndexOf(t, k) < |t|
  }

  function KeysOf(t: seq<Cell>): set<string> {
    set c | c in t :: c.key
  }

  // Cells are kept in the order of their last touch, the latest first.
  function Hit(t: seq<Cell>, p: nat): seq<Cell>
    requires p < |t|
  {
    [t[p].(count := t[p].count + 1)] + RemoveAt(t, p)
  }

  function Victim(t: seq<Cell>): (v: nat)
    requires t != []
    ensures v < |t|
    ensures forall q :: 0 <= q < |t| ==> t[v].count < t[q].count || (t[v].count == t[q].count && q <= v)
  {
    if |t| == 1 then 0
    else
      var v := 1 + Victim(t[1..]);
      if t[0].count < t[v].count then 0 else v
  }

  function Step(capacity: nat, t: seq<Cell>, op: Op): seq<Cell> {
    match op
    case Get(k) =>
      if Has(t, k) then Hit(t, IndexOf(t, k)) else t
    case Set(k, v) =>
      if capacity == 0 then t
      else [Cell(k, v, 1)] + if |t| == capacity then RemoveAt(t, Victim(t)) else t
  }

  function Replay(capacity: nat, h: seq<Op>): seq<Cell> {
    if h == [] then [] else Step(capacity, Replay(capacity, h[..|h| - 1]), h[|h| - 1])
  }

  // Storing k leaves it in the cache once.
  predicate Storable(capacity: nat, t: seq<Cell>, k: string) {
    capacity == 0 || !Has(t, k) || (|t| == capacity && t[Victim(t)].key == k)
  }

  // Every store is of such a key, as it is when it follows a miss.
  predicate Legal(capacity: nat, h: seq<Op>) {
    h == [] ||
    (Legal(capacity, h[..|h| - 1]) &&
     (h[|h| - 1].Set? ==> Storable(capacity, Replay(capacity, h[..|h| - 1]), h[|h| - 1].key)))
  }

  // ----- the same facts read off the history alone

  function LastTouch(h: seq<Op>, k: string): (i: int)
    ensures -1 <= i < |h|
  {
    if h == [] then -1
    else if h[|h| - 1].key == k then |h| - 1
    else LastTouch(h[..|h| - 1], k)
  }

  // What the latest Set of k stored, and 1 plus the number of Gets of k after it.
  function LastValue(h: seq<Op>, k: string): string {
    if h == [] then ""
    else if h[|h| - 1].Set? && h[|h| - 1].key == k then h[|h| - 1].value
    else LastValue(h[..|h| - 1], k)
  }

  function Uses(h: seq<Op>, k: string): nat {
    if h == [] then 0
    else if h[|h| - 1].key != k then Uses(h[..|h| - 1], k)
    else if h[|h| - 1].Set? then 1
    else 1 + Uses(h[..|h| - 1], k)
  }

  ghost predicate UniqueKeys(t: seq<Cell>) {
    forall p, q :: 0 <= p < q < |t| ==> t[p].key != t[q].key
  }

  ghost predicate MatchesHistory(t: seq<Cell>, h: seq<Op>) {
    && UniqueKeys(t)
    && (forall p :: 0 <= p < |t| ==>
          t[p].value == LastValue(h, t[p].key) && t[p].count == Uses(h, t[p].key))
    && (forall p, q :: 0 <= p < q < |t| ==> LastTouch(h, t[p].key) > LastTouch(h, t[q].key))
  }

  // What one more operation does to the facts about key k.
  lemma OneMoreOp(h: seq<Op>, op: Op, k: string)
    ensures var h' := h + [op];
            && LastTouch(h', k) == (if op.key == k then |h| else LastTouch(h, k))
            && LastValue(h', k) == (if op.Set? && op.key == k then op.value else LastValue(h, k))
            && Uses(h', k) == (if op.key != k then Uses(h, k) else if op.Set? then 1 else 1 + Uses(h, k))
  {
    assert (h + [op])[..|h|] == h;
  }

  lemma RemoveKeepsMatch(t: seq<Cell>, h: seq<Op>, i: nat)
    requires MatchesHistory(t, h) && i < |t|
    ensures MatchesHistory(RemoveAt(t, i), h)
    ensures forall c :: c in RemoveAt(t, i) ==> c.key != t[i].key
  {
    var r := RemoveAt(t, i);
    assert forall q :: 0 <= q < |r| ==> r[q] == t[if q < i then q else q + 1];
  }

  lemma OtherKeyKeepsMatch(t: seq<Cell>, h: seq<Op>, op: Op)
    requires MatchesHistory(t, h)
    requires forall c :: c in t ==> c.key != op.key
    ensures MatchesHistory(t, h + [op])
  {
    forall p | 0 <= p < |t|
      ensures LastTouch(h + [op], t[p].key) == LastTouch(h, t[p].key)
      ensures LastValue(h + [op], t[p].key) == LastValue(h, t[p].key)
      ensures Uses(h + [op], t[p].key) == Uses(h, t[p].key)
    {
      OneMoreOp(h, op, t[p].key);
    }
  }

  lemma PushKeepsMatch(t: seq<Cell>, h: seq<Op>, op: Op, c: Cell)
    requires MatchesHistory(t, h)
    requires c.key == op.key && forall d :: d in t ==> d.key != c.key
    requires c.value == LastValue(h + [op], c.key) && c.count == Uses(h + [op], c.key)
    ensures MatchesHistory([c] + t, h + [op])
  {
    OtherKeyKeepsMatch(t, h, op);
    OneMoreOp(h, op, c.key);
    forall p | 0 <= p < |t|
      ensures LastTouch(h + [op], t[p].key) < |h|
    {
      OneMoreOp(h, op, t[p].key);
    }
  }

  lemma MatchAt(t: seq<Cell>, h: seq<Op>, p: nat)
    requires MatchesHistory(t, h)
    ensures p < |t| ==> t[p].value == LastValue(h, t[p].key) && t[p].count == Uses(h, t[p].key)
  {
  }

  lemma HitKeepsMatch(t: seq<Cell>, h: seq<Op>, op: Op, p: nat)
    requires MatchesHistory(t, h) && op.Get? && p < |t| && t[p].key == op.key
    ensures MatchesHistory(Hit(t, p), h + [op]) && |Hit(t, p)| == |t|
  {
    OneMoreOp(h, op, op.key);
    MatchAt(t, h, p);
    RemoveKeepsMatch(t, h, p);
    hide MatchesHistory, Uses, LastValue, LastTouch;
    PushKeepsMatch(RemoveAt(t, p), h, op, t[p].(count := t[p].count + 1));
  }

  lemma StoreKeepsMatch(t: seq<Cell>, h: seq<Op>, op: Op)
    requires MatchesHistory(t, h) && op.Set? && forall c :: c in t ==> c.key != op.key
    ensures MatchesHistory([Cell(op.key, op.value, 1)] + t, h + [op])
  {
    OneMoreOp(h, op, op.key);
    hide MatchesHistory, Uses, LastValue, LastTouch;
    PushKeepsMatch(t, h, op, Cell(op.key, op.value, 1));
  }

  lemma Absent(t: seq<Cell>, k: string)
    requires !Has(t, k)
    ensures forall c :: c in t ==> c.key != k
  {
  }

  lemma StepKeepsMatch(capacity: nat, t: seq<Cell>, h: seq<Op>, op: Op)
    requires MatchesHistory(t, h) && |t| <= capacity
    requires op.Set? ==> Storable(capacity, t, op.key)
    ensures MatchesHistory(Step(capacity, t, op), h + [op]) && |Step(capacity, t, op)| <= capacity
  {
    hide MatchesHistory, IndexOf, Victim, Hit;
    if op.Get? && Has(t, op.key) {
      HitKeepsMatch(t, h, op, IndexOf(t, op.key));
    } else {
      if !Has(t, op.key) {
        Absent(t, op.key);
      }
      if op.Get? || capacity == 0 {
        OtherKeyKeepsMatch(t, h, op);
      } else if |t| == capacity {
        RemoveKeepsMatch(t, h, Victim(t));
        StoreKeepsMatch(RemoveAt(t, Victim(t)), h, op);
      } else {
        StoreKeepsMatch(t, h, op);
      }
    }
  }

  lemma {:induction false} ReplayMatchesHistory(capacity: nat, h: seq<Op>)
    requires Legal(capacity, h)
    ensures MatchesHistory(Replay(capacity, h), h)
    ensures |Replay(capacity, h)| <= capacity
  {
    if h != [] {
      var n := |h| - 1;
      ReplayMatchesHistory(capacity, h[..n]);
      StepKeepsMatch(capacity, Replay(capacity, h[..n]), h[..n], h[n]);
      assert h == h[..n] + [h[n]];
    }
  }

  // The key a full cache gives up has been used least since it was stored, and among
  // those used equally often it was touched longest ago.
  lemma VictimIsLeastUsed(capacity: nat, h: seq<Op>, other: string)
    requires Legal(capacity, h) && Has(Replay(capacity, h), other)
    requires other != Replay(capacity, h)[Victim(Replay(capacity, h))].key
    ensures var victim := Replay(capacity, h)[Victim(Replay(capacity, h))].key;
            || Uses(h, victim) < Uses(h, other)
            || (Uses(h, victim) == Uses(h, other) && LastTouch(h, victim) < LastTouch(h, other))
  {
    ReplayMatchesHistory(capacity, h);
    var t := Replay(capacity, h);
    var v, p := Victim(t), IndexOf(t, other);
    assert t[p].key == other && t[v].key != other;
  }

  // ----- keys as a set

  lemma KeysAndHas(t: seq<Cell>, k: string)
    ensures Has(t, k) <==> k in KeysOf(t)
  {
    var p := IndexOf(t, k);
    if p < |t| {
      assert t[p] in t;
    }
  }

  lemma UniquePosition(t: seq<Cell>, p: nat)
    requires UniqueKeys(t) && p < |t|
    ensures IndexOf(t, t[p].key) == p
  {
    var q := IndexOf(t, t[p].key);
    assert q <= p;
  }

  lemma KeysAfterPush(t: seq<Cell>, c: Cell)
    ensures KeysOf([c] + t) == {c.key} + KeysOf(t)
  {
    var u := [c] + t;
    assert u[1..] == t;
    assert u[0] in u && forall d :: d in t ==> d in u;
  }

  lemma KeysAfterRemove(t: seq<Cell>, p: nat)
    requires UniqueKeys(t) && p < |t|
    ensures KeysOf(RemoveAt(t, p)) == KeysOf(t) - {t[p].key} && UniqueKeys(RemoveAt(t, p))
  {
    var u := RemoveAt(t, p);
    assert forall q :: 0 <= q < |u| ==> u[q] == t[if q < p then q else q + 1];
    forall q | 0 <= q < |t| && q != p
      ensures t[q] in u
    {
      assert u[if q < p then q else q - 1] == t[q];
    }
  }

  lemma KeysAfterHit(t: seq<Cell>, p: nat)
    requires UniqueKeys(t) && p < |t|
    ensures KeysOf(Hit(t, p)) == KeysOf(t)
  {
    KeysAfterRemove(t, p);
    KeysAfterPush(RemoveAt(t, p), t[p].(count := t[p].count + 1));
    assert t[p] in t;
  }

  lemma {:induction false} KeyCount(t: seq<Cell>)
    requires UniqueKeys(t)
    ensures |KeysOf(t)| == |t|
  {
    if t != [] {
      KeyCount(t[1..]);
      KeysAfterPush(t[1..], t[0]);
      assert [t[0]] + t[1..] == t;
      assert t[0].key !in KeysOf(t[1..]);
    }
  }

  lemma ReplayOneMore(capacity: nat, h: seq<Op>, op: Op)
    ensures Replay(capacity, h + [op]) == Step(capacity, Replay(capacity, h), op)
    ensures Legal(capacity, h + [op]) <==>
      Legal(capacity, h) && (op.Set? ==> Storable(capacity, Replay(capacity, h), op.key))
  {
    assert (h + [op])[..|h|] == h;
  }

  lemma GetIsHit(capacity: nat, t: seq<Cell>, k: string)
    ensures Step(capacity, t, Get(k)) == if Has(t, k) then Hit(t, IndexOf(t, k)) else t
  {
  }

  // A store on a full cache changes the set of keys by exactly the victim and the new key.
  lemma SetReplacesVictim(t: seq<Cell>, k: string, v: string)
    requires UniqueKeys(t) && t != []
    ensures KeysOf(Step(|t|, t, Set(k, v))) == KeysOf(t) - {t[Victim(t)].key} + {k}
  {
    hide KeysOf, UniqueKeys;
    KeysAfterRemove(t, Victim(t));
    KeysAfterPush(RemoveAt(t, Victim(t)), Cell(k, v, 1));
  }

  // Why the caller must not store just any key: the keys stay apart exactly when nothing is
  // stored, the key is new, or the key is the one being given up.
  lemma SetKeepsKeysApart(capacity: nat, t: seq<Cell>, k: string, v: string)
    requires UniqueKeys(t) && |t| <= capacity
    ensures UniqueKeys(Step(capacity, t, Set(k, v))) <==> Storable(capacity, t, k)
  {
    if capacity > 0 {
      var r := if |t| == capacity then RemoveAt(t, Victim(t)) else t;
      if |t| == capacity {
        KeysAfterRemove(t, Victim(t));
      }
      PushKeepsKeysApart(r, Cell(k, v, 1));
      KeysAndHas(t, k);
    }
  }

  lemma PushKeepsKeysApart(t: seq<Cell>, c: Cell)
    requires UniqueKeys(t)
    ensures UniqueKeys([c] + t) <==> c.key !in KeysOf(t)
  {
    var u := [c] + t;
    if c.key in KeysOf(t) {
      var p :| 0 <= p < |t| && t[p].key == c.key;
      assert u[0].key == u[p + 1].key;
    } else {
      assert forall q :: 0 <= q < |t| ==> t[q] in t;
    }
  }

  lemma SetIsPush(capacity: nat, t: seq<Cell>, k: string, v: string)
    ensures Step(capacity, t, Set(k, v)) ==
      if capacity == 0 then t
      else [Cell(k, v, 1)] + if |t| == capacity then RemoveAt(t, Victim(t)) else t
  {
  }
}
