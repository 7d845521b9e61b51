/** The same cells grouped into buckets of equal use count, in increasing order of the
    count: the shape the linked structure keeps, and what its steps do to it. */
module LfuBuckets {
  import opened LfuSpec

  datatype Bucket = Bucket(freq: int, cells: seq<Cell>)

  // The cells used f times, still in the order of their last touch.
  function Select(t: seq<Cell>, f: int): seq<Cell> {
    if t == [] then []
    else (if t[0].count == f then [t[0]] else []) + Select(t[1..], f)
  }

  ghost predicate Increasing(bs: seq<Bucket>) {
    forall i, j :: 0 <= i < j < |bs| ==> bs[i].freq < bs[j].freq
  }

  // Bucket 0 is the sentinel with count 0. Each bucket holds the cells with its count,
  // and each cell has a bucket.
  ghost predicate Groups(bs: seq<Bucket>, t: seq<Cell>) {
    && bs != [] && bs[0] == Bucket(0, [])
    && Increasing(bs)
    && (forall i :: 0 <= i < |bs| ==> bs[i].cells == Select(t, bs[i].freq))
    && (forall p :: 0 <= p < |t| ==> HasFreq(bs, t[p].count))
  }

  ghost predicate HasFreq(bs: seq<Bucket>, f: int) {
    exists i :: 0 <= i < |bs| && bs[i].freq == f
  }

  // Nothing but the sentinel is empty.
  ghost predicate Tight(bs: seq<Bucket>) {
    forall i :: 1 <= i < |bs| ==> bs[i].cells != []
  }

  // ----- facts about Select

  lemma {:induction false} SelectHas(t: seq<Cell>, f: int, j: nat) returns (p: nat)
    requires j < |Select(t, f)|
    ensures p < |t| && t[p] == Select(t, f)[j] && t[p].count == f
    ensures Select(t[..p], f) == Select(t, f)[..j]
    ensures Select(RemoveAt(t, p), f) == RemoveAt(Select(t, f), j)
    ensures forall g :: g != f ==> Select(RemoveAt(t, p), g) == Select(t, g)
  {
    hide Select, RemoveAt;
    SelectOfNone(f);
    var c, rest := t[0], t[1..];
    assert t == [c] + rest;
    SelectMore(c, rest);
    if c.count == f && j == 0 {
      p := 0;
      RemoveFirst(c, rest);
      RemoveFirst(c, Select(rest, f));
      assert t[..0] == [] == Select(t, f)[..0];
    } else {
      var k := if c.count == f then j - 1 else j;
      var q := SelectHas(rest, f, k);
      p := q + 1;
      RemoveLater(c, rest, q);
      RemoveLater(c, Select(rest, f), k);
      assert t[..p] == [c] + rest[..q];
      SelectMore(c, RemoveAt(rest, q));
      SelectMore(c, rest[..q]);
    }
  }

  lemma RemoveFirst(c: Cell, t: seq<Cell>)
    ensures RemoveAt([c] + t, 0) == t
  {
  }

  lemma RemoveLater(c: Cell, t: seq<Cell>, k: nat)
    requires k < |t|
    ensures RemoveAt([c] + t, k + 1) == [c] + RemoveAt(t, k)
  {
  }

  lemma SelectOfNone(f: int)
    ensures Select([], f) == []
  {
  }

  lemma SelectMore(c: Cell, t: seq<Cell>)
    ensures forall f :: Select([c] + t, f) == (if c.count == f then [c] else []) + Select(t, f)
  {
  }

  lemma {:induction false} SelectNone(t: seq<Cell>, f: int)
    requires forall p :: 0 <= p < |t| ==> t[p].count != f
    ensures Select(t, f) == []
  {
    if t != [] {
      SelectNone(t[1..], f);
    }
  }

  lemma {:induction false} SelectSome(t: seq<Cell>, p: nat)
    requires p < |t|
    ensures t[p] in Select(t, t[p].count)
  {
    if p > 0 {
      SelectSome(t[1..], p - 1);
    }
  }

  // ----- the four steps on the bucket list

  lemma InsertKeepsIncreasing(bs: seq<Bucket>, i: nat, b: Bucket)
    requires Increasing(bs) && i < |bs| && bs[i].freq < b.freq
    requires i + 1 < |bs| ==> b.freq < bs[i + 1].freq
    ensures Increasing(InsertAt(bs, i + 1, b)) && !HasFreq(bs, b.freq)
    ensures forall k :: 0 <= k < |bs| ==> InsertAt(bs, i + 1, b)[if k <= i then k else k + 1] == bs[k]
  {
    var r := InsertAt(bs, i + 1, b);
    InsertedAt(bs, i + 1, b);
    forall k | 0 <= k < |bs|
      ensures if k <= i then bs[k].freq < b.freq else b.freq < bs[k].freq
    {
      UpTo(bs, k, i);
      UpTo(bs, i + 1, k);
    }
    hide InsertAt;
  }

  lemma UpTo(bs: seq<Bucket>, j: nat, k: nat)
    requires Increasing(bs)
    ensures j <= k < |bs| ==> bs[j].freq <= bs[k].freq
  {
  }

  lemma FreshBucket(bs: seq<Bucket>, t: seq<Cell>, i: nat, f: int)
    requires Groups(bs, t) && i < |bs| && bs[i].freq < f
    requires i + 1 < |bs| ==> f < bs[i + 1].freq
    ensures Groups(InsertAt(bs, i + 1, Bucket(f, [])), t)
  {
    var r := InsertAt(bs, i + 1, Bucket(f, []));
    InsertKeepsIncreasing(bs, i, Bucket(f, []));
    forall p | 0 <= p < |t|
      ensures t[p].count != f && HasFreq(r, t[p].count)
    {
      var k :| 0 <= k < |bs| && bs[k].freq == t[p].count;
      assert r[if k <= i then k else k + 1].freq == t[p].count;
    }
    SelectNone(t, f);
  }

  lemma RemoveCell(bs: seq<Bucket>, t: seq<Cell>, i: nat, j: nat) returns (p: nat)
    requires Groups(bs, t) && i < |bs| && j < |bs[i].cells|
    ensures p < |t| && t[p] == bs[i].cells[j] && t[p].count == bs[i].freq
    ensures Select(t[..p], bs[i].freq) == bs[i].cells[..j]
    ensures Groups(bs[i := Bucket(bs[i].freq, RemoveAt(bs[i].cells, j))], RemoveAt(t, p))
  {
    hide Select;
    p := SelectHas(t, bs[i].freq, j);
    var r := bs[i := Bucket(bs[i].freq, RemoveAt(bs[i].cells, j))];
    var u := RemoveAt(t, p);
    forall q | 0 <= q < |u|
      ensures HasFreq(r, u[q].count)
    {
      assert u[q] == t[if q < p then q else q + 1];
      var k :| 0 <= k < |bs| && bs[k].freq == u[q].count;
      assert r[k].freq == u[q].count;
    }
  }

  lemma AddCell(bs: seq<Bucket>, t: seq<Cell>, i: nat, c: Cell)
    requires Groups(bs, t) && 0 < i < |bs| && c.count == bs[i].freq
    ensures Groups(bs[i := Bucket(bs[i].freq, [c] + bs[i].cells)], [c] + t)
  {
    var r := bs[i := Bucket(bs[i].freq, [c] + bs[i].cells)];
    var u := [c] + t;
    assert u[1..] == t;
    forall q | 0 <= q < |u|
      ensures HasFreq(r, u[q].count)
    {
      if q == 0 {
        assert r[i].freq == c.count;
      } else {
        assert HasFreq(bs, t[q - 1].count);
        var k :| 0 <= k < |bs| && bs[k].freq == u[q].count;
        assert r[k].freq == u[q].count;
      }
    }
  }

  lemma DropBucket(bs: seq<Bucket>, t: seq<Cell>, i: nat)
    requires Groups(bs, t) && 0 < i < |bs| && bs[i].cells == []
    ensures Groups(RemoveAt(bs, i), t)
  {
    hide Select;
    var r := RemoveAt(bs, i);
    assert forall k :: 0 <= k < |r| ==> r[k] == bs[if k < i then k else k + 1];
    forall p | 0 <= p < |t|
      ensures HasFreq(r, t[p].count)
    {
      SelectSome(t, p);
      HasOther(bs, i, t[p].count);
    }
  }

  lemma HasOther(bs: seq<Bucket>, i: nat, f: int)
    requires i < |bs| && HasFreq(bs, f) && bs[i].freq != f
    ensures HasFreq(RemoveAt(bs, i), f)
  {
    var k :| 0 <= k < |bs| && bs[k].freq == f;
    assert RemoveAt(bs, i)[if k < i then k else k - 1].freq == f;
  }

  lemma {:induction false} SelectSplit(t: seq<Cell>, k: nat, f: int)
    requires k <= |t|
    ensures Select(t, f) == Select(t[..k], f) + Select(t[k..], f)
  {
    if k == 0 {
      assert t[0..] == t;
    } else {
      SelectSplit(t[1..], k - 1, f);
      assert t[..k][1..] == t[1..][..k - 1];
    }
  }

  // Nothing after position p has count f when p holds the last cell with that count.
  lemma NothingAfterLast(t: seq<Cell>, f: int, p: nat)
    requires p < |t| && t[p].count == f
    requires |Select(t, f)| == |Select(t[..p], f)| + 1
    ensures forall q :: p < q < |t| ==> t[q].count != f
  {
    SelectSplit(t, p, f);
    assert t[p..][1..] == t[p + 1..];
    assert Select(t[p + 1..], f) == [];
    forall q | p < q < |t|
      ensures t[q].count != f
    {
      if t[q].count == f {
        SelectSome(t[p + 1..], q - p - 1);
      }
    }
  }

  // The last cell of the first real bucket is the one to give up.
  lemma LastOfFirstIsVictim(bs: seq<Bucket>, t: seq<Cell>, p: nat)
    requires Groups(bs, t) && Tight(bs) && |bs| > 1
    requires p < |t| && t[p].count == bs[1].freq
    requires |Select(t[..p], bs[1].freq)| == |bs[1].cells| - 1
    ensures p == Victim(t)
  {
    NothingAfterLast(t, bs[1].freq, p);
    forall q | 0 <= q < |t|
      ensures t[p].count <= t[q].count
    {
      assert HasFreq(bs, t[q].count);
      SelectSome(t, q);
    }
  }
}
