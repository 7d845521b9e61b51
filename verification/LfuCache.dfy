/** LFUCache: frequency buckets in a doubly linked list, each with a doubly linked list of
    keys, and two maps into them. The ghost fields follow the lists from their heads. */
module LfuCache {
  import opened LfuSpec
  import opened LfuBuckets
  import opened LfuNodes

  ghost function CellsOf(nodes: seq<KeyNode>, f: int): seq<Cell> {
    if nodes == [] then []
    else seq(|nodes| - 1, j requires 0 <= j < |nodes| - 1 => Cell(nodes[j + 1].key, nodes[j + 1].value, f))
  }

  ghost function Buckets(fs: seq<FreqNode>, ls: seq<seq<KeyNode>>): seq<Bucket>
    requires |fs| == |ls|
  {
    seq(|fs|, i requires 0 <= i < |fs| => Bucket(fs[i].list.freq, CellsOf(ls[i], fs[i].list.freq)))
  }

  lemma BucketsInsert(fs: seq<FreqNode>, ls: seq<seq<KeyNode>>, i: nat, f: FreqNode, l: seq<KeyNode>)
    requires |fs| == |ls| && i <= |fs|
    ensures Buckets(InsertAt(fs, i, f), InsertAt(ls, i, l))
         == InsertAt(Buckets(fs, ls), i, Bucket(f.list.freq, CellsOf(l, f.list.freq)))
  {
  }

  lemma BucketsRemove(fs: seq<FreqNode>, ls: seq<seq<KeyNode>>, i: nat)
    requires |fs| == |ls| && i < |fs|
    ensures Buckets(RemoveAt(fs, i), RemoveAt(ls, i)) == RemoveAt(Buckets(fs, ls), i)
  {
  }

  lemma BucketsUpdate(fs: seq<FreqNode>, ls: seq<seq<KeyNode>>, i: nat, l: seq<KeyNode>)
    requires |fs| == |ls| && i < |fs|
    ensures Buckets(fs, ls[i := l]) == Buckets(fs, ls)[i := Bucket(fs[i].list.freq, CellsOf(l, fs[i].list.freq))]
  {
  }

  lemma CellsRemove(l: seq<KeyNode>, j: nat, f: int)
    requires 1 <= j < |l|
    ensures CellsOf(RemoveAt(l, j), f) == RemoveAt(CellsOf(l, f), j - 1)
  {
  }

  lemma CellsInsert(l: seq<KeyNode>, n: KeyNode, f: int)
    requires 1 <= |l|
    ensures CellsOf(InsertAt(l, 1, n), f) == [Cell(n.key, n.value, f)] + CellsOf(l, f)
  {
  }

  // Every listed key node, apart from one that is on the move, is found through both maps.
  ghost predicate Indexed(fs: seq<FreqNode>, ls: seq<seq<KeyNode>>, kmap: map<string, KeyNode>,
                          fmap: map<string, FreqNode>, moving: KeyNode?)
    requires |fs| == |ls|
  {
    forall i, j :: 1 <= i < |fs| && 1 <= j < |ls[i]| && ls[i][j] != moving ==>
      && ls[i][j].key in kmap && kmap[ls[i][j].key] == ls[i][j]
      && ls[i][j].key in fmap && fmap[ls[i][j].key] == fs[i]
  }

  lemma IndexedInsert(fs: seq<FreqNode>, ls: seq<seq<KeyNode>>, kmap: map<string, KeyNode>,
                      fmap: map<string, FreqNode>, i: nat, f: FreqNode, l: seq<KeyNode>)
    requires |fs| == |ls| && 0 < i <= |fs| && Indexed(fs, ls, kmap, fmap, null) && |l| == 1
    ensures Indexed(InsertAt(fs, i, f), InsertAt(ls, i, l), kmap, fmap, null)
  {
    var gs, ms := InsertAt(fs, i, f), InsertAt(ls, i, l);
    assert forall k :: 0 <= k < |gs| && k != i ==>
      gs[k] == fs[if k < i then k else k - 1] && ms[k] == ls[if k < i then k else k - 1];
  }

  lemma IndexedRemove(fs: seq<FreqNode>, ls: seq<seq<KeyNode>>, kmap: map<string, KeyNode>,
                      fmap: map<string, FreqNode>, i: nat)
    requires |fs| == |ls| && 0 < i < |fs| && Indexed(fs, ls, kmap, fmap, null)
    ensures Indexed(RemoveAt(fs, i), RemoveAt(ls, i), kmap, fmap, null)
  {
    var gs, ms := RemoveAt(fs, i), RemoveAt(ls, i);
    assert forall k :: 0 <= k < |gs| ==>
      gs[k] == fs[if k < i then k else k + 1] && ms[k] == ls[if k < i then k else k + 1];
  }

  lemma IndexedTake(fs: seq<FreqNode>, ls: seq<seq<KeyNode>>, kmap: map<string, KeyNode>,
                    fmap: map<string, FreqNode>, n: KeyNode?, i: nat, j: nat)
    requires |fs| == |ls| && i < |fs| && 1 <= j < |ls[i]| && Indexed(fs, ls, kmap, fmap, n)
    ensures Indexed(fs, ls[i := RemoveAt(ls[i], j)], kmap, fmap, n)
  {
    var l := RemoveAt(ls[i], j);
    assert forall k :: 0 <= k < |l| ==> l[k] == ls[i][if k < j then k else k + 1];
  }

  // n takes the place of m in the maps; m, if it is another node, may stay where it is listed.
  lemma IndexedPut(fs: seq<FreqNode>, ls: seq<seq<KeyNode>>, kmap: map<string, KeyNode>,
                   fmap: map<string, FreqNode>, m: KeyNode, n: KeyNode, i: nat)
    requires |fs| == |ls| && 0 < i < |fs| && |ls[i]| > 0 && Indexed(fs, ls, kmap, fmap, m)
    requires m.key == n.key && (n.key in kmap ==> kmap[n.key] == m)
    requires n.key in fmap && fmap[n.key] == fs[i]
    requires forall k :: 0 <= k < |ls| ==> n !in ls[k]
    ensures Indexed(fs, ls[i := InsertAt(ls[i], 1, n)], kmap[n.key := n], fmap, if m == n then null else m)
  {
    var l := InsertAt(ls[i], 1, n);
    assert forall k :: 0 <= k < |l| ==> l[k] == if k < 1 then ls[i][k] else if k == 1 then n else ls[i][k - 1];
  }

  // Nothing but the sentinel bucket, and bucket b perhaps, is empty.
  ghost predicate Full(ls: seq<seq<KeyNode>>, b: nat) {
    forall k :: 1 <= k < |ls| && k != b ==> |ls[k]| > 1
  }

  // The linked nodes fs and ls, read bucket by bucket, are the cells grouped by count.
  ghost predicate Faithful(fs: seq<FreqNode>, ls: seq<seq<KeyNode>>, kmap: map<string, KeyNode>,
                           fmap: map<string, FreqNode>, moving: KeyNode?, cells: seq<Cell>)
    requires |fs| == |ls|
  {
    Groups(Buckets(fs, ls), cells) && Indexed(fs, ls, kmap, fmap, moving)
  }

  lemma FaithfulInsert(fs: seq<FreqNode>, ls: seq<seq<KeyNode>>, kmap: map<string, KeyNode>,
                       fmap: map<string, FreqNode>, cells: seq<Cell>, i: nat, f: FreqNode, l: seq<KeyNode>)
    requires |fs| == |ls| && Faithful(fs, ls, kmap, fmap, null, cells)
    requires i < |fs| && f.list.freq == fs[i].list.freq + 1 && |l| == 1
    requires i + 1 < |fs| ==> f.list.freq != fs[i + 1].list.freq
    ensures Faithful(InsertAt(fs, i + 1, f), InsertAt(ls, i + 1, l), kmap, fmap, null, cells)
  {
    hide Indexed;
    assert i + 1 < |fs| ==> Buckets(fs, ls)[i].freq < Buckets(fs, ls)[i + 1].freq;
    FreshBucket(Buckets(fs, ls), cells, i, f.list.freq);
    BucketsInsert(fs, ls, i + 1, f, l);
    IndexedInsert(fs, ls, kmap, fmap, i + 1, f, l);
    assert CellsOf(l, f.list.freq) == [];
  }

  lemma FaithfulRemove(fs: seq<FreqNode>, ls: seq<seq<KeyNode>>, kmap: map<string, KeyNode>,
                       fmap: map<string, FreqNode>, cells: seq<Cell>, i: nat)
    requires |fs| == |ls| && Faithful(fs, ls, kmap, fmap, null, cells)
    requires 0 < i < |fs| && |ls[i]| == 1
    ensures Faithful(RemoveAt(fs, i), RemoveAt(ls, i), kmap, fmap, null, cells)
  {
    hide Indexed, Groups;
    DropBucket(Buckets(fs, ls), cells, i);
    BucketsRemove(fs, ls, i);
    IndexedRemove(fs, ls, kmap, fmap, i);
  }

  lemma FaithfulMoving(fs: seq<FreqNode>, ls: seq<seq<KeyNode>>, kmap: map<string, KeyNode>,
                       fmap: map<string, FreqNode>, cells: seq<Cell>, n: KeyNode, f: FreqNode)
    requires |fs| == |ls| && Faithful(fs, ls, kmap, fmap, null, cells)
    requires n.key in kmap ==> kmap[n.key] == n
    ensures Faithful(fs, ls, kmap, fmap[n.key := f], n, cells)
  {
    hide Groups;
  }

  lemma FaithfulWeaken(fs: seq<FreqNode>, ls: seq<seq<KeyNode>>, kmap: map<string, KeyNode>,
                       fmap: map<string, FreqNode>, cells: seq<Cell>, n: KeyNode)
    requires |fs| == |ls| && Faithful(fs, ls, kmap, fmap, null, cells)
    ensures Faithful(fs, ls, kmap, fmap, n, cells)
  {
    hide Groups;
  }

  lemma FaithfulAt(fs: seq<FreqNode>, ls: seq<seq<KeyNode>>, kmap: map<string, KeyNode>,
                   fmap: map<string, FreqNode>, cells: seq<Cell>, i: nat, j: nat)
    requires |fs| == |ls| && Faithful(fs, ls, kmap, fmap, null, cells)
    requires 1 <= i < |fs| && 1 <= j < |ls[i]|
    ensures ls[i][j].key in kmap && kmap[ls[i][j].key] == ls[i][j]
    ensures ls[i][j].key in fmap && fmap[ls[i][j].key] == fs[i]
  {
    hide Groups;
  }

  lemma FaithfulErase(fs: seq<FreqNode>, ls: seq<seq<KeyNode>>, kmap: map<string, KeyNode>,
                      fmap: map<string, FreqNode>, cells: seq<Cell>, n: KeyNode)
    requires |fs| == |ls| && Faithful(fs, ls, kmap, fmap, n, cells)
    requires n.key in kmap && kmap[n.key] == n && forall k :: 0 <= k < |ls| ==> n !in ls[k]
    ensures Faithful(fs, ls, kmap - {n.key}, fmap - {n.key}, null, cells)
  {
    hide Groups;
  }

  // The tail of the first real bucket is the cell the specification gives up.
  lemma FaithfulVictim(fs: seq<FreqNode>, ls: seq<seq<KeyNode>>, kmap: map<string, KeyNode>,
                       fmap: map<string, FreqNode>, cells: seq<Cell>, p: nat)
    requires |fs| == |ls| > 1 && Faithful(fs, ls, kmap, fmap, null, cells) && Full(ls, 0)
    requires p < |cells| && cells[p].count == fs[1].list.freq
    requires |Select(cells[..p], fs[1].list.freq)| == |ls[1]| - 2
    ensures p == Victim(cells)
  {
    hide Indexed, Groups;
    var bs := Buckets(fs, ls);
    assert bs[1].freq == fs[1].list.freq && |bs[1].cells| == |ls[1]| - 1;
    assert Tight(bs);
    LastOfFirstIsVictim(bs, cells, p);
  }

  // Where the structure keeps the cell at position p.
  lemma Locate(fs: seq<FreqNode>, ls: seq<seq<KeyNode>>, kmap: map<string, KeyNode>,
               fmap: map<string, FreqNode>, cells: seq<Cell>, p: nat) returns (i: nat, j: nat)
    requires |fs| == |ls| && Faithful(fs, ls, kmap, fmap, null, cells) && p < |cells|
    ensures 1 <= i < |fs| && 1 <= j < |ls[i]|
    ensures ls[i][j].key == cells[p].key && ls[i][j].value == cells[p].value
    ensures cells[p].key in kmap && kmap[cells[p].key] == ls[i][j]
    ensures cells[p].key in fmap && fmap[cells[p].key] == fs[i]
  {
    hide Select;
    var bs := Buckets(fs, ls);
    assert HasFreq(bs, cells[p].count);
    i :| 0 <= i < |bs| && bs[i].freq == cells[p].count;
    SelectSome(cells, p);
    var j' :| 0 <= j' < |bs[i].cells| && bs[i].cells[j'] == cells[p];
    j := j' + 1;
  }

  lemma FaithfulTake(fs: seq<FreqNode>, ls: seq<seq<KeyNode>>, kmap: map<string, KeyNode>,
                     fmap: map<string, FreqNode>, cells: seq<Cell>, i: nat, j: nat, moving: KeyNode?) returns (p: nat)
    requires |fs| == |ls| && Faithful(fs, ls, kmap, fmap, moving, cells)
    requires i < |fs| && 1 <= j < |ls[i]|
    ensures p < |cells| && cells[p] == Cell(ls[i][j].key, ls[i][j].value, fs[i].list.freq)
    ensures |Select(cells[..p], fs[i].list.freq)| == j - 1
    ensures Faithful(fs, ls[i := RemoveAt(ls[i], j)], kmap, fmap, moving, RemoveAt(cells, p))
  {
    hide Indexed, Groups;
    p := RemoveCell(Buckets(fs, ls), cells, i, j - 1);
    CellsRemove(ls[i], j, fs[i].list.freq);
    BucketsUpdate(fs, ls, i, RemoveAt(ls[i], j));
    IndexedTake(fs, ls, kmap, fmap, moving, i, j);
  }

  lemma FaithfulPut(fs: seq<FreqNode>, ls: seq<seq<KeyNode>>, kmap: map<string, KeyNode>,
                    fmap: map<string, FreqNode>, cells: seq<Cell>, i: nat, m: KeyNode, n: KeyNode)
    requires |fs| == |ls| && Faithful(fs, ls, kmap, fmap, m, cells)
    requires 0 < i < |fs| && |ls[i]| > 0
    requires m.key == n.key && n.key in fmap && fmap[n.key] == fs[i] && (n.key in kmap ==> kmap[n.key] == m)
    requires forall k :: 0 <= k < |ls| ==> n !in ls[k]
    ensures Faithful(fs, ls[i := InsertAt(ls[i], 1, n)], kmap[n.key := n], fmap, if m == n then null else m,
                     [Cell(n.key, n.value, fs[i].list.freq)] + cells)
  {
    hide Indexed, Groups;
    AddCell(Buckets(fs, ls), cells, i, Cell(n.key, n.value, fs[i].list.freq));
    CellsInsert(ls[i], n, fs[i].list.freq);
    BucketsUpdate(fs, ls, i, InsertAt(ls[i], 1, n));
    IndexedPut(fs, ls, kmap, fmap, m, n, i);
  }

  // Key node n, in a bucket with count f before (or in none, for the sentinel's count 0),
  // has become the latest cell, used once more.
  ghost predicate Touched(t: seq<Cell>, t': seq<Cell>, n: KeyNode, f: int, listed: bool, p: nat) {
    && (listed ==> p < |t| && t[p] == Cell(n.key, n.value, f))
    && t' == [Cell(n.key, n.value, f + 1)] + if listed && p < |t| then RemoveAt(t, p) else t
  }

  lemma TouchedHit(t: seq<Cell>, t': seq<Cell>, n: KeyNode, f: int, p: nat)
    requires UniqueKeys(t) && Touched(t, t', n, f, true, p)
    ensures IndexOf(t, n.key) < |t| && t' == Hit(t, IndexOf(t, n.key)) && KeysOf(t') == KeysOf(t)
  {
    TouchedIsHit(t, t', n, f, p);
    hide *;
    UniquePosition(t, p);
    KeysAfterHit(t, p);
  }

  lemma TouchedIsHit(t: seq<Cell>, t': seq<Cell>, n: KeyNode, f: int, p: nat)
    requires Touched(t, t', n, f, true, p)
    ensures p < |t| && t[p].key == n.key && t' == Hit(t, p)
  {
  }

  lemma TouchedNew(t: seq<Cell>, t': seq<Cell>, n: KeyNode, p: nat)
    requires Touched(t, t', n, 0, false, p)
    ensures t' == [Cell(n.key, n.value, 1)] + t && KeysOf(t') == KeysOf(t) + {n.key}
  {
    hide KeysOf;
    KeysAfterPush(t, Cell(n.key, n.value, 1));
  }

  class LFUCache {
    var head: FreqNode
    const capacity: nat
    var kmap: map<string, KeyNode>
    var fmap: map<string, FreqNode>
    ghost var fs: seq<FreqNode>
    ghost var ls: seq<seq<KeyNode>>
    ghost var fns: set<FreqNode>
    ghost var kls: set<KeyList>
    ghost var kns: set<KeyNode>
    ghost var cells: seq<Cell>
    ghost var history: seq<Op>

    ghost predicate Valid()
      reads this, fns, kls, kns
    {
      Settled() && Legal(capacity, history) && cells == Replay(capacity, history)
    }

    // What holds between operations, the history aside.
    ghost predicate Settled()
      reads this`head, this`kmap, this`fmap, this`fs, this`ls, this`fns, this`kls, this`kns, this`cells, fns, kls, kns
    {
      && Consistent(kmap, null) && Full(ls, 0)
      && kmap.Keys == fmap.Keys == KeysOf(cells)
    }

    ghost predicate Links()
      reads this`head, this`fs, this`ls, this`fns, this`kls, this`kns, fns, kls, kns
    {
      && fs != [] && |ls| == |fs| && fs[0] == head && Within(fs, fns)
      && AllHold(fs, ls, kls, kns)
      && Chain(fs)
    }

    ghost predicate Consistent(km: map<string, KeyNode>, moving: KeyNode?)
      reads this`head, this`fmap, this`fs, this`ls, this`fns, this`kls, this`kns, this`cells, fns, kls, kns
    {
      |fs| == |ls| && Links() && Faithful(fs, ls, km, fmap, moving, cells)
    }

    constructor (capacity: nat)
      ensures Valid() && this.capacity == capacity && history == []
    {
      this.capacity := capacity;
      var sentinel := new FreqNode(0);
      head := sentinel;
      kmap, fmap := map[], map[];
      fs, ls := [sentinel], [sentinel.list.nodes];
      fns, kls, kns := {sentinel}, {sentinel.list}, {sentinel.list.nodes[0]};
      cells, history := [], [];
    }

    method InsertBucket(nowf: FreqNode, ghost i: nat) returns (nxt: FreqNode)
      requires Consistent(kmap, null) && i < |fs| && fs[i] == nowf
      requires i + 1 < |fs| ==> fs[i + 1].list.freq != nowf.list.freq + 1
      modifies this`fs, this`ls, this`fns, this`kls, this`kns, fns`pre, fns`next
      ensures Consistent(kmap, null)
      ensures |nxt.list.nodes| == 1 && nxt.list.freq == nowf.list.freq + 1
      ensures fs == InsertAt(old(fs), i + 1, nxt) && ls == InsertAt(old(ls), i + 1, nxt.list.nodes)
      ensures fresh(fns - old(fns)) && fresh(kls - old(kls)) && fresh(kns - old(kns))
    {
      hide Faithful, Links;
      nxt := LinkBucket(nowf, i);
      FaithfulInsert(old(fs), old(ls), kmap, fmap, cells, i, nxt, nxt.list.nodes);
    }

    method LinkBucket(nowf: FreqNode, ghost i: nat) returns (nxt: FreqNode)
      requires Links() && i < |fs| && fs[i] == nowf
      modifies this`fs, this`ls, this`fns, this`kls, this`kns, fns`pre, fns`next
      ensures Links() && |nxt.list.nodes| == 1 && nxt.list.freq == nowf.list.freq + 1
      ensures fs == InsertAt(old(fs), i + 1, nxt) && ls == InsertAt(old(ls), i + 1, nxt.list.nodes)
      ensures fresh(fns - old(fns)) && fresh(kls - old(kls)) && fresh(kns - old(kns))
    {
      hide AllHold, Chain, Holds, Within;
      nxt := LinkAfter(nowf, fs, fns, i);
      ghost var l := nxt.list.nodes;
      InsertHolds(fs, ls, kls, kns, i + 1, nxt, l, kls + {nxt.list}, kns + {l[0]});
      WithinInsert(fs, fns, i + 1, nxt);
      fs, ls := InsertAt(fs, i + 1, nxt), InsertAt(ls, i + 1, l);
      fns, kls, kns := fns + {nxt}, kls + {nxt.list}, kns + {l[0]};
    }

    // LFUCache::del
    method RemoveBucket(node: FreqNode, ghost i: nat)
      requires Consistent(kmap, null) && 0 < i < |fs| && fs[i] == node && |ls[i]| == 1
      modifies this`fs, this`ls, fns`pre, fns`next
      ensures Consistent(kmap, null)
      ensures fs == RemoveAt(old(fs), i) && ls == RemoveAt(old(ls), i)
    {
      hide Faithful, AllHold, Chain, Holds, Within;
      Unlink(node, fs, fns, i);
      RemoveHolds(fs, ls, kls, kns, i);
      FaithfulRemove(fs, ls, kmap, fmap, cells, i);
      WithinRemove(fs, fns, i);
      fs, ls := RemoveAt(fs, i), RemoveAt(ls, i);
    }

    method TakeKey(nowf: FreqNode, nowk: KeyNode, ghost i: nat, ghost j: nat) returns (ghost p: nat)
      requires Consistent(kmap, nowk) && 0 < i < |fs| && fs[i] == nowf && 1 <= j < |ls[i]| && ls[i][j] == nowk
      requires nowf.list.nodes == ls[i]
      modifies this`ls, this`cells, nowf.list`last, nowf.list`nodes, ls[i]`pre, ls[i]`next, nowk`owner
      ensures Consistent(kmap, nowk) && nowk.owner == null
      ensures ls == old(ls)[i := RemoveAt(old(ls)[i], j)]
      ensures p < |old(cells)| && old(cells)[p] == Cell(nowk.key, nowk.value, nowf.list.freq)
      ensures cells == RemoveAt(old(cells), p)
      ensures |Select(old(cells)[..p], nowf.list.freq)| == j - 1
    {
      hide Faithful, AllHold, Holds;
      p := FaithfulTake(fs, ls, kmap, fmap, cells, i, j, nowk);
      DelKey(nowf, nowk, fs, ls, kls, kns, i, j);
      ls := ls[i := RemoveAt(ls[i], j)];
      cells := RemoveAt(cells, p);
    }

    method PutKey(nxt: FreqNode, nowk: KeyNode, ghost i: nat, ghost m: KeyNode)
      requires Consistent(kmap, m) && 0 < i < |fs| && fs[i] == nxt && nowk.owner == null
      requires nowk.key in fmap && fmap[nowk.key] == nxt
      requires m.key == nowk.key && (nowk.key in kmap ==> kmap[nowk.key] == m)
      requires nxt.list.nodes == ls[i] && |ls[i]| > 0 && forall k :: 0 <= k < |ls| ==> nowk !in ls[k]
      modifies this`ls, this`cells, this`kns
      modifies nxt.list`last, nxt.list`nodes, ls[i]`pre, ls[i]`next, nowk`pre, nowk`next, nowk`owner
      ensures Consistent(kmap[nowk.key := nowk], if m == nowk then null else m)
      ensures ls == old(ls)[i := InsertAt(old(ls)[i], 1, nowk)] && kns == old(kns) + {nowk}
      ensures cells == [Cell(nowk.key, nowk.value, nxt.list.freq)] + old(cells)
    {
      hide Faithful, AllHold, Holds;
      FaithfulPut(fs, ls, kmap, fmap, cells, i, m, nowk);
      AddKey(nxt, nowk, fs, ls, kls, kns, i);
      ls := ls[i := InsertAt(ls[i], 1, nowk)];
      kns := kns + {nowk};
      cells := [Cell(nowk.key, nowk.value, nxt.list.freq)] + cells;
    }

    // What the hidden invariant says of bucket i.
    lemma BucketAt(i: nat)
      requires Links() && i < |fs|
      ensures fs[i].list in kls && fs[i].list.nodes == ls[i] && fs[i].list.Valid() && |ls[i]| > 0
      ensures forall x :: x in ls[i] ==> x in kns && x.owner == fs[i].list
    {
      assert Holds(fs[i], ls[i]);
    }

    lemma HeadIsFirst(i: nat)
      requires Consistent(kmap, null)
      ensures |fs| > 0 && |ls| == |fs| && fs[0] == head
      ensures i < |fs| ==> (fs[i] == head <==> i == 0)
      ensures head.list.freq == 0
    {
      assert Buckets(fs, ls)[0].freq == 0;
    }

    lemma FirstBucket()
      requires Links() && |fs| > 1
      ensures |ls| == |fs| && head in fns && head.next == fs[1] && fs[1].list.last == ls[1][|ls[1]| - 1]
    {
      BucketAt(1);
      assert fs[0].next == fs[1];
    }

    lemma NodeAt(i: nat, j: nat)
      requires Consistent(kmap, null) && 1 <= i < |fs| && 1 <= j < |ls[i]|
      ensures ls[i][j].key in kmap && kmap[ls[i][j].key] == ls[i][j]
    {
      FaithfulAt(fs, ls, kmap, fmap, cells, i, j);
    }

    lemma NowhereListed(n: KeyNode)
      requires Links() && n.owner == null
      ensures forall k :: 0 <= k < |ls| ==> n !in ls[k]
    {
      forall k | 0 <= k < |ls|
        ensures n !in ls[k]
      {
        BucketAt(k);
      }
    }

    lemma NextIs(i: nat)
      requires Links() && i < |fs|
      ensures |ls| == |fs| && fs[i] in fns
      ensures fs[i].next == if i + 1 < |fs| then fs[i + 1] else null
    {
    }

    // The first part of LFUCache::addfreq: finds the bucket for the next count, or puts a
    // new one in its place, and enters it for nowk's key, which leads to node m so far if
    // it leads anywhere.
    method NextBucket(nowk: KeyNode, nowf: FreqNode, ghost i: nat, ghost m: KeyNode) returns (nxt: FreqNode)
      requires Consistent(kmap, null) && Full(ls, 0) && i < |fs| && fs[i] == nowf
      requires m.key == nowk.key && (nowk.key in kmap ==> kmap[nowk.key] == m)
      modifies this`fmap, this`fs, this`ls, this`fns, this`kls, this`kns, fns`pre, fns`next
      ensures Consistent(kmap, m) && fmap == old(fmap)[nowk.key := nxt]
      ensures i + 1 < |fs| && fs[i] == nowf && fs[i + 1] == nxt && nxt.list.freq == nowf.list.freq + 1
      ensures ls[i] == old(ls)[i] && Full(ls, i + 1)
      ensures fresh(fns - old(fns)) && fresh(kls - old(kls)) && fresh(kns - old(kns))
    {
      hide Faithful, Links;
      NextIs(i);
      if nowf.next == null || nowf.next.list.freq != nowf.list.freq + 1 {
        nxt := InsertBucket(nowf, i);
      } else {
        nxt := nowf.next;
      }
      FaithfulMoving(fs, ls, kmap, fmap, cells, m, nxt);
      fmap := fmap[nowk.key := nxt];
    }

    method DropIfEmpty(nowf: FreqNode, ghost i: nat)
      requires Consistent(kmap, null) && 0 < i < |fs| && fs[i] == nowf
      requires Full(ls, i)
      modifies this`fs, this`ls, fns`pre, fns`next
      ensures Consistent(kmap, null) && Full(ls, 0)
    {
      hide Faithful, AllHold, Chain, Holds;
      BucketAt(i);
      if nowf.list.IsEmpty() {
        RemoveBucket(nowf, i);
      }
    }

    // The key node leaves its list, if it is in one, and heads the list of bucket i + 1.
    method Rehome(nowk: KeyNode, nowf: FreqNode, nxt: FreqNode, ghost i: nat, ghost j: nat, ghost m: KeyNode)
      returns (ghost p: nat)
      requires Consistent(kmap, m) && i + 1 < |fs| && fs[i] == nowf && fs[i + 1] == nxt && (nowf == head <==> i == 0)
      requires nowk.key in fmap && fmap[nowk.key] == nxt && nxt.list.freq == nowf.list.freq + 1
      requires i > 0 ==> 1 <= j < |ls[i]| && ls[i][j] == nowk && m == nowk && nowk.key in kmap
      requires m.key == nowk.key && (nowk.key in kmap ==> kmap[nowk.key] == m)
      requires i == 0 ==> nowk.owner == null
      requires Full(ls, i + 1)
      modifies this`ls, this`cells, this`kns, kls, kns, nowk
      ensures Consistent(kmap[nowk.key := nowk], if m == nowk then null else m)
      ensures Full(ls, i) && kns == old(kns) + {nowk}
      ensures Touched(old(cells), cells, nowk, nowf.list.freq, i > 0, p)
    {
      hide Faithful, AllHold, Chain, Holds;
      p := 0;
      BucketAt(i);
      if nowf != head {
        p := TakeKey(nowf, nowk, i, j);
      }
      BucketAt(i + 1);
      NowhereListed(nowk);
      PutKey(nxt, nowk, i + 1, m);
    }

    // The second part of addfreq: the key node moves, and a bucket it leaves empty goes.
    method Move(nowk: KeyNode, nowf: FreqNode, nxt: FreqNode, ghost i: nat, ghost j: nat, ghost m: KeyNode)
      returns (ghost p: nat)
      requires Consistent(kmap, m) && i + 1 < |fs| && fs[i] == nowf && fs[i + 1] == nxt && (nowf == head <==> i == 0)
      requires nowk.key in fmap && fmap[nowk.key] == nxt && nxt.list.freq == nowf.list.freq + 1
      requires i > 0 ==> 1 <= j < |ls[i]| && ls[i][j] == nowk && m == nowk && nowk.key in kmap
      requires m.key == nowk.key && (nowk.key in kmap ==> kmap[nowk.key] == m)
      requires i == 0 ==> nowk.owner == null
      requires i > 0 ==> kmap == kmap[nowk.key := nowk]
      requires Full(ls, i + 1)
      modifies this`fs, this`ls, this`cells, this`kns, fns`pre, fns`next, kls, kns, nowk
      ensures Consistent(kmap[nowk.key := nowk], if m == nowk then null else m) && Full(ls, 0)
      ensures kns == old(kns) + {nowk}
      ensures Touched(old(cells), cells, nowk, nowf.list.freq, i > 0, p)
    {
      hide *;
      p := Rehome(nowk, nowf, nxt, i, j, m);
      if nowf != head {
        DropIfEmpty(nowf, i);
      }
    }

    lemma WhereItIs(nowk: KeyNode, i: nat, j: nat, m: KeyNode)
      requires Consistent(kmap, null) && i < |fs|
      requires i > 0 ==> 1 <= j < |ls[i]| && ls[i][j] == nowk && m == nowk
      requires i == 0 ==> m.key == nowk.key && (nowk.key in kmap ==> kmap[nowk.key] == m)
      ensures fs[i] == head <==> i == 0
      ensures m.key == nowk.key && (nowk.key in kmap ==> kmap[nowk.key] == m)
      ensures i > 0 ==> nowk.key in kmap && kmap == kmap[nowk.key := nowk]
    {
      hide *;
      HeadIsFirst(i);
      if i > 0 {
        NodeAt(i, j);
      }
    }

    // LFUCache::addfreq: key node nowk leaves bucket i for the one with the next count.
    method AddFreq(nowk: KeyNode, nowf: FreqNode, ghost i: nat, ghost j: nat, ghost m: KeyNode) returns (ghost p: nat)
      requires Consistent(kmap, null) && Full(ls, 0) && i < |fs| && fs[i] == nowf
      requires i > 0 ==> 1 <= j < |ls[i]| && ls[i][j] == nowk && m == nowk
      requires i == 0 ==> nowk.owner == null && m.key == nowk.key && (nowk.key in kmap ==> kmap[nowk.key] == m)
      modifies this`fmap, this`fs, this`ls, this`fns, this`kls, this`kns, this`cells, fns, kls, kns, nowk
      ensures Consistent(kmap[nowk.key := nowk], if m == nowk then null else m) && Full(ls, 0)
      ensures fmap.Keys == old(fmap.Keys) + {nowk.key}
      ensures Touched(old(cells), cells, nowk, nowf.list.freq, i > 0, p)
      ensures fresh(fns - old(fns)) && fresh(kls - old(kls)) && fresh(kns - old(kns) - {nowk})
    {
      hide *;
      WhereItIs(nowk, i, j, m);
      var nxt := NextBucket(nowk, nowf, i, m);
      p := Move(nowk, nowf, nxt, i, j, m);
    }

    // What Valid says about key k, and where its nodes are.
    lemma Find(k: string) returns (i: nat, j: nat)
      requires Valid()
      ensures UniqueKeys(cells) && |cells| == |kmap| && |cells| <= capacity
      ensures k in kmap <==> Has(cells, k)
      ensures k in kmap <==> k in fmap
      ensures k in kmap ==>
        && 1 <= i < |fs| && 1 <= j < |ls[i]| && fs[i] == fmap[k] && ls[i][j] == kmap[k] && ls[i][j].key == k
        && ls[i][j].value == cells[IndexOf(cells, k)].value && ls[i][j] in kns
    {
      ReplayMatchesHistory(capacity, history);
      KeyCount(cells);
      KeysAndHas(cells, k);
      i, j := 0, 0;
      if k in kmap {
        i, j := Locate(fs, ls, kmap, fmap, cells, IndexOf(cells, k));
        BucketAt(i);
      }
    }

    method Promote(key: string, ghost i: nat, ghost j: nat)
      requires Settled() && UniqueKeys(cells) && key in kmap
      requires 1 <= i < |fs| && 1 <= j < |ls[i]| && fs[i] == fmap[key] && ls[i][j] == kmap[key]
      requires kmap[key] in kns && kmap[key].key == key
      modifies this`fmap, this`fs, this`ls, this`fns, this`kls, this`kns, this`cells, fns, kls, kns
      ensures Settled() && IndexOf(old(cells), key) < |old(cells)|
      ensures cells == Hit(old(cells), IndexOf(old(cells), key))
      ensures fresh(fns - old(fns)) && fresh(kls - old(kls)) && fresh(kns - old(kns))
    {
      SettledIs();
      hide *;
      var nowk, nowf := kmap[key], fmap[key];
      ghost var p := AddFreq(nowk, nowf, i, j, nowk);
      assert kmap == kmap[key := nowk];
      TouchedHit(old(cells), cells, nowk, nowf.list.freq, p);
      SettledIs();
    }

    lemma SettledIs()
      ensures Settled() <==> Consistent(kmap, null) && Full(ls, 0) && kmap.Keys == fmap.Keys == KeysOf(cells)
    {
    }

    lemma GetReplayed(key: string)
      requires Valid()
      ensures Legal(capacity, history + [Op.Get(key)])
      ensures Replay(capacity, history + [Op.Get(key)]) == if Has(cells, key) then Hit(cells, IndexOf(cells, key)) else cells
    {
      hide Settled, Step, Replay, Legal;
      ReplayOneMore(capacity, history, Op.Get(key));
      GetIsHit(capacity, cells, key);
    }

    method Get(key: string, v: string) returns (hit: bool, v': string)
      requires Valid()
      modifies this, fns, kls, kns
      ensures Valid() && history == old(history) + [Op.Get(key)] && kmap == old(kmap)
      ensures hit <==> Has(old(cells), key)
      ensures v' == if hit then v + old(cells)[IndexOf(old(cells), key)].value else v
      ensures fresh(fns - old(fns)) && fresh(kls - old(kls)) && fresh(kns - old(kns))
    {
      hide Settled, Step, Replay, Legal, IndexOf, UniqueKeys, Hit;
      ghost var i, j := Find(key);
      GetReplayed(key);
      hit, v' := false, v;
      if capacity != 0 && key in fmap {
        hit, v' := true, v + kmap[key].value;
        Promote(key, i, j);
      }
      history := history + [Op.Get(key)];
    }

    // The tail of the first bucket.
    lemma LastOfFirst()
      requires Settled() && cells != []
      ensures |ls| == |fs| > 1 && |ls[1]| > 1 && head in fns && head.next == fs[1] && fs[1].list.nodes == ls[1]
      ensures var last := ls[1][|ls[1]| - 1];
        fs[1].list.last == last && last.key in kmap && kmap[last.key] == last && Consistent(kmap, last)
    {
      hide Links, Faithful, KeysOf;
      var i, j := Locate(fs, ls, kmap, fmap, cells, 0);
      BucketAt(1);
      FirstBucket();
      j := |ls[1]| - 1;
      FaithfulAt(fs, ls, kmap, fmap, cells, 1, j);
      FaithfulWeaken(fs, ls, kmap, fmap, cells, ls[1][j]);
    }

    lemma OnlyVictim()
      requires Settled() && |fs| == |ls| > 1
      ensures forall p :: 0 <= p < |cells| && cells[p].count == fs[1].list.freq ==>
        |Select(cells[..p], fs[1].list.freq)| == |ls[1]| - 2 ==> p == Victim(cells)
    {
      hide Links, Faithful, KeysOf, Victim, Select;
      forall p | 0 <= p < |cells| && cells[p].count == fs[1].list.freq
        && |Select(cells[..p], fs[1].list.freq)| == |ls[1]| - 2
        ensures p == Victim(cells)
      {
        FaithfulVictim(fs, ls, kmap, fmap, cells, p);
      }
    }

    // A node that is in no list leaves the maps.
    lemma EraseNode(n: KeyNode)
      requires Consistent(kmap, n) && n.owner == null && n.key in kmap && kmap[n.key] == n
      ensures |fs| == |ls| && Faithful(fs, ls, kmap - {n.key}, fmap - {n.key}, null, cells)
    {
      hide Links, Faithful;
      NowhereListed(n);
      FaithfulErase(fs, ls, kmap, fmap, cells, n);
    }

    method TakeVictim() returns (headnxt: FreqNode)
      requires Settled() && UniqueKeys(cells) && cells != []
      modifies this`kmap, this`fmap, this`ls, this`cells, kls, kns
      ensures Consistent(kmap, null) && |fs| > 1 && fs[1] == headnxt && Full(ls, 1)
      ensures kmap.Keys == fmap.Keys == KeysOf(cells) && cells == RemoveAt(old(cells), Victim(old(cells)))
      ensures kmap == old(kmap) - {old(cells)[Victim(old(cells))].key}
    {
      hide Links, Faithful, KeysOf, UniqueKeys, RemoveAt, Victim, Select;
      LastOfFirst();
      OnlyVictim();
      BucketAt(1);
      hide Consistent;
      headnxt := head.next;
      var last := headnxt.list.last;
      ghost var p := TakeKey(headnxt, last, 1, |ls[1]| - 1);
      KeysAfterRemove(old(cells), p);
      Erase(last);
    }

    method Erase(n: KeyNode)
      requires Consistent(kmap, n) && n.owner == null && n.key in kmap && kmap[n.key] == n
      modifies this`kmap, this`fmap
      ensures Consistent(kmap, null) && kmap == old(kmap) - {n.key} && fmap == old(fmap) - {n.key}
    {
      hide Links, Faithful;
      EraseNode(n);
      kmap := kmap - {n.key};
      fmap := fmap - {n.key};
    }

    // The part of LFUCache::set that makes room.
    method Evict()
      requires Settled() && UniqueKeys(cells) && cells != []
      modifies this`kmap, this`fmap, this`fs, this`ls, this`cells, fns, kls, kns
      ensures Settled() && cells == RemoveAt(old(cells), Victim(old(cells)))
      ensures kmap == old(kmap) - {old(cells)[Victim(old(cells))].key}
    {
      hide Consistent, Full, KeysOf, UniqueKeys, RemoveAt, Victim;
      var headnxt := TakeVictim();
      DropIfEmpty(headnxt, 1);
    }

    // A store of a key that was there: its old node, stray, is still listed, but both maps
    // lead to the new one. The lists still are the cells grouped by count.
    ghost predicate Doubled(stray: KeyNode)
      reads this`head, this`kmap, this`fmap, this`fs, this`ls, this`fns, this`kls, this`kns, this`cells, fns, kls, kns
    {
      && Consistent(kmap, stray) && Full(ls, 0)
      && kmap.Keys == fmap.Keys == KeysOf(cells)
      && stray.key in kmap && kmap[stray.key] != stray
    }

    lemma KeyOfNode(key: string)
      requires Settled()
      ensures key in kmap ==> kmap[key].key == key
    {
      hide Faithful, Links, Full;
      KeysAndHas(cells, key);
      if key in kmap {
        var i, j := Locate(fs, ls, kmap, fmap, cells, IndexOf(cells, key));
      }
    }

    lemma KeysWith(km: map<string, KeyNode>, key: string, n: KeyNode)
      ensures km[key := n].Keys == km.Keys + {key}
    {
    }

    // How a store leaves the structure when the key led to m before.
    lemma StoredIs(key: string, nowk: KeyNode, m: KeyNode)
      requires Consistent(kmap, if m == nowk then null else m) && Full(ls, 0)
      requires kmap.Keys == fmap.Keys == KeysOf(cells) && m.key == key && key in kmap && kmap[key] == nowk
      ensures if m == nowk then Settled() else Doubled(m)
    {
    }

    method Insert(key: string, v: string) returns (nowk: KeyNode)
      requires Settled()
      modifies this`kmap, this`fmap, this`fs, this`ls, this`fns, this`kls, this`kns, this`cells, fns, kls, kns
      ensures cells == [Cell(key, v, 1)] + old(cells)
      ensures fresh(nowk) && nowk.key == key && nowk.value == v && kmap == old(kmap)[key := nowk]
      ensures if key in old(kmap) then Doubled(old(kmap)[key]) else Settled()
      ensures fresh(fns - old(fns)) && fresh(kls - old(kls)) && fresh(kns - old(kns))
    {
      hide *;
      KeyOfNode(key);
      nowk := new KeyNode(key, v);
      ghost var m := if key in kmap then kmap[key] else nowk;
      Enter(nowk, m);
    }

    // The end of it: addfreq from the sentinel, and the entry in kmap. m is where the key
    // led before.
    method Enter(nowk: KeyNode, ghost m: KeyNode)
      requires Settled() && nowk.owner == null && m.key == nowk.key
      requires if nowk.key in kmap then kmap[nowk.key] == m && m != nowk else m == nowk
      modifies this`kmap, this`fmap, this`fs, this`ls, this`fns, this`kls, this`kns, this`cells, fns, kls, kns, nowk
      ensures cells == [Cell(nowk.key, nowk.value, 1)] + old(cells) && kmap == old(kmap)[nowk.key := nowk]
      ensures if m == nowk then Settled() else Doubled(m)
      ensures fresh(fns - old(fns)) && fresh(kls - old(kls)) && fresh(kns - old(kns) - {nowk})
    {
      hide *;
      SettledIs();
      HeadIsFirst(0);
      KeysWith(kmap, nowk.key, nowk);
      ghost var p := AddFreq(nowk, head, 0, 0, m);
      TouchedNew(old(cells), cells, nowk, p);
      Record(nowk, m);
    }

    method Record(nowk: KeyNode, ghost m: KeyNode)
      requires Consistent(kmap[nowk.key := nowk], if m == nowk then null else m) && Full(ls, 0)
      requires kmap[nowk.key := nowk].Keys == fmap.Keys == KeysOf(cells) && m.key == nowk.key
      modifies this`kmap
      ensures kmap == old(kmap)[nowk.key := nowk] && if m == nowk then Settled() else Doubled(m)
    {
      hide *;
      kmap := kmap[nowk.key := nowk];
      StoredIs(nowk.key, nowk, m);
    }

    lemma SizeOfMap()
      requires Settled() && UniqueKeys(cells)
      ensures |kmap| == |cells|
    {
      KeyCount(cells);
      assert |kmap| == |kmap.Keys|;
    }

    // The first part of set: a full cache gives up its victim.
    method MakeRoom(ghost key: string)
      requires Settled() && UniqueKeys(cells) && 0 < capacity && |cells| <= capacity
      modifies this`kmap, this`fmap, this`fs, this`ls, this`cells, fns, kls, kns
      ensures Settled() && |kmap| == |cells|
      ensures cells == if |old(cells)| == capacity then RemoveAt(old(cells), Victim(old(cells))) else old(cells)
      ensures key in kmap <==> !Storable(capacity, old(cells), key)
      ensures key in kmap ==> key in old(kmap) && kmap[key] == old(kmap)[key]
    {
      SizeOfMap();
      KeyIsThere(key);
      hide Settled, Has, IndexOf, UniqueKeys, Victim, RemoveAt, KeysOf;
      if |kmap| == capacity {
        KeysAfterRemove(cells, Victim(cells));
        Evict();
        SizeOfMap();
      }
    }

    // What set does to the lists and the maps.
    method Store(key: string, v: string)
      requires Settled() && UniqueKeys(cells) && |cells| <= capacity
      modifies this`kmap, this`fmap, this`fs, this`ls, this`fns, this`kls, this`kns, this`cells, fns, kls, kns
      ensures cells == Step(capacity, old(cells), Op.Set(key, v))
      ensures if Storable(capacity, old(cells), key) then Settled()
        else key in old(kmap) && Doubled(old(kmap)[key]) && |cells| == |kmap| + 1 && kmap[key].value == v
      ensures fresh(fns - old(fns)) && fresh(kls - old(kls)) && fresh(kns - old(kns))
    {
      hide *;
      SetIsPush(capacity, cells, key, v);
      NoRoomAtAll(capacity, cells, key);
      if capacity != 0 {
        MakeRoom(key);
        var nowk := Insert(key, v);
      }
    }

    lemma NoRoomAtAll(capacity: nat, t: seq<Cell>, key: string)
      ensures capacity == 0 ==> Storable(capacity, t, key)
    {
    }

    lemma KeyIsThere(key: string)
      requires Settled()
      ensures key in kmap <==> Has(cells, key)
    {
      KeysAndHas(cells, key);
    }

    // Any key may be stored. The cache is then as it should be if and only if nothing is
    // stored, the key is new, or it is the one given up; otherwise the key is there twice.
    method Set(key: string, v: string)
      requires Valid()
      modifies this, fns, kls, kns
      ensures cells == Step(capacity, old(cells), Op.Set(key, v)) && history == old(history) + [Op.Set(key, v)]
      ensures Settled() && UniqueKeys(cells) <==> Storable(capacity, old(cells), key)
      ensures Valid() <==> Storable(capacity, old(cells), key)
      ensures !Storable(capacity, old(cells), key) ==>
        && key in old(kmap) && Doubled(old(kmap)[key]) && !UniqueKeys(cells)
        && |cells| == |kmap| + 1 && kmap[key].value == v
      ensures fresh(fns - old(fns)) && fresh(kls - old(kls)) && fresh(kns - old(kns))
    {
      hide Settled, Replay, Legal, Step, UniqueKeys, Storable, Doubled;
      ghost var i, j := Find(key);
      SetKeepsKeysApart(capacity, cells, key, v);
      ReplayOneMore(capacity, history, Op.Set(key, v));
      Store(key, v);
      history := history + [Op.Set(key, v)];
    }
  }
}
