/** The nodes of the two list levels, and what one relinking does to each level. */
module LfuNodes {
  import opened LfuSpec

  class KeyNode {
    const key: string
    const value: string
    var pre: KeyNode?
    var next: KeyNode?
    ghost var owner: KeyList?

    constructor (key: string, value: string)
      ensures this.key == key && this.value == value
      ensures pre == null && next == null && owner == null
    {
      this.key, this.value := key, value;
      pre, next, owner := null, null, null;
    }
  }

  ghost predicate Distinct<T>(s: seq<T>) {
    forall i, j :: 0 <= i < j < |s| ==> s[i] != s[j]
  }

  class KeyList {
    const freq: int
    var head: KeyNode
    var last: KeyNode
    ghost var nodes: seq<KeyNode>
    ghost var home: object?

    ghost predicate Valid()
      reads this, nodes
    {
      && |nodes| > 0 && head == nodes[0] && last == nodes[|nodes| - 1]
      && Distinct(nodes) && (forall x :: x in nodes ==> x.owner == this)
      && (forall i {:trigger nodes[i].next} :: 0 <= i < |nodes| ==>
            nodes[i].next == if i + 1 < |nodes| then nodes[i + 1] else null)
      && (forall i {:trigger nodes[i].pre} :: 1 <= i < |nodes| ==> nodes[i].pre == nodes[i - 1])
    }

    constructor (fq: int)
      ensures Valid() && freq == fq && |nodes| == 1 && fresh(nodes[0])
    {
      freq := fq;
      var sentinel := new KeyNode("", "");
      head, last := sentinel, sentinel;
      nodes := [sentinel];
      home := null;
      new;
      sentinel.owner := this;
    }

    method Add(node: KeyNode)
      requires Valid() && node !in nodes
      modifies this`last, this`nodes, nodes`pre, nodes`next, node`pre, node`next, node`owner
      ensures Valid()
      ensures nodes == InsertAt(old(nodes), 1, node)
    {
      if head.next != null {
        assert head.next == nodes[1];
        head.next.pre := node;
      } else {
        last := node;
      }
      node.next := head.next;
      node.pre := head;
      head.next := node;
      node.owner := this;
      nodes := InsertAt(nodes, 1, node);
    }

    method Del(node: KeyNode, ghost k: nat)
      requires Valid() && 1 <= k < |nodes| && nodes[k] == node
      modifies this`last, this`nodes, nodes`pre, nodes`next, node`owner
      ensures Valid() && node.owner == null
      ensures nodes == RemoveAt(old(nodes), k)
    {
      assert node.pre == nodes[k - 1];
      node.pre.next := node.next;
      if node.next != null {
        assert node.next == nodes[k + 1];
        node.next.pre := node.pre;
      } else {
        last := node.pre;
      }
      node.owner := null;
      nodes := RemoveAt(nodes, k);
    }

    predicate IsEmpty()
      requires Valid()
      reads this, nodes
      ensures IsEmpty() <==> |nodes| == 1
    {
      head == last
    }
  }

  class FreqNode {
    const list: KeyList
    var pre: FreqNode?
    var next: FreqNode?

    constructor (fq: int)
      ensures pre == null && next == null
      ensures list.home == this && fresh(list) && list.Valid() && list.freq == fq && |list.nodes| == 1 && fresh(list.nodes[0])
    {
      list := new KeyList(fq);
      pre, next := null, null;
      new;
      list.home := this;
    }
  }

  ghost predicate Within(fs: seq<FreqNode>, fns: set<FreqNode>) {
    forall f :: f in fs ==> f in fns
  }

  lemma WithinInsert(fs: seq<FreqNode>, fns: set<FreqNode>, i: nat, f: FreqNode)
    requires Within(fs, fns) && i <= |fs|
    ensures Within(InsertAt(fs, i, f), fns + {f})
  {
  }

  lemma WithinRemove(fs: seq<FreqNode>, fns: set<FreqNode>, i: nat)
    requires Within(fs, fns) && i < |fs|
    ensures Within(RemoveAt(fs, i), fns)
  {
  }

  ghost predicate Chain(fs: seq<FreqNode>)
    reads fs
  {
    && Distinct(fs)
    && (forall i {:trigger fs[i].next} :: 0 <= i < |fs| ==>
          fs[i].next == if i + 1 < |fs| then fs[i + 1] else null)
    && (forall i {:trigger fs[i].pre} :: 1 <= i < |fs| ==> fs[i].pre == fs[i - 1])
  }

  lemma DistinctInsert(fs: seq<FreqNode>, i: nat, f: FreqNode)
    requires Distinct(fs) && i <= |fs| && f !in fs
    ensures Distinct(InsertAt(fs, i, f))
  {
    InsertedAt(fs, i, f);
    hide InsertAt;
  }

  lemma OnlyAt(fs: seq<FreqNode>, i: nat)
    requires Distinct(fs)
    ensures forall k :: 0 <= k < |fs| && i < |fs| && fs[k] == fs[i] ==> k == i
  {
  }

  method LinkAfter(nowf: FreqNode, ghost fs: seq<FreqNode>, ghost fns: set<FreqNode>, ghost i: nat)
    returns (nxt: FreqNode)
    requires Chain(fs) && i < |fs| && fs[i] == nowf && Within(fs, fns)
    modifies fns`pre, fns`next
    ensures Chain(InsertAt(fs, i + 1, nxt))
    ensures fresh(nxt) && nxt.list.freq == nowf.list.freq + 1
    ensures fresh(nxt.list) && |nxt.list.nodes| == 1 && fresh(nxt.list.nodes[0])
    ensures Holds(nxt, nxt.list.nodes)
  {
    nxt := new FreqNode(nowf.list.freq + 1);
    DistinctInsert(fs, i + 1, nxt);
    OnlyAt(fs, i);
    OnlyAt(fs, i + 1);
    InsertedAt(fs, i + 1, nxt);
    hide InsertAt, Distinct, Holds;
    if nowf.next != null {
      assert nowf.next == fs[i + 1];
      nowf.next.pre := nxt;
    }
    nxt.next := nowf.next;
    nowf.next := nxt;
    nxt.pre := nowf;
    ghost var gs := InsertAt(fs, i + 1, nxt);
    forall k | 0 <= k < |gs|
      ensures gs[k].next == if k + 1 < |gs| then gs[k + 1] else null
      ensures k > 0 ==> gs[k].pre == gs[k - 1]
    {
      if k <= i {
        assert gs[k] == fs[k] && fs[k] != nxt;
      } else if k > i + 1 {
        assert gs[k] == fs[k - 1] && fs[k - 1] != nxt;
      }
    }
  }

  method Unlink(node: FreqNode, ghost fs: seq<FreqNode>, ghost fns: set<FreqNode>, ghost i: nat)
    requires Chain(fs) && 0 < i < |fs| && fs[i] == node && Within(fs, fns)
    modifies fns`pre, fns`next
    ensures Chain(RemoveAt(fs, i))
  {
    assert node.pre == fs[i - 1];
    node.pre.next := node.next;
    if node.next != null {
      assert node.next == fs[i + 1];
      node.next.pre := node.pre;
    }
  }

  // Bucket f holds exactly the key nodes l, sentinel first.
  ghost predicate Holds(f: FreqNode, l: seq<KeyNode>)
    reads f.list, f.list.nodes
  {
    f.list.nodes == l && f.list.home == f && f.list.Valid()
  }

  ghost predicate AllHold(fs: seq<FreqNode>, ls: seq<seq<KeyNode>>, kls: set<KeyList>, kns: set<KeyNode>)
    reads kls, kns
  {
    && |fs| == |ls|
    && (forall i :: 0 <= i < |fs| ==> fs[i].list in kls)
    && (forall i, x :: 0 <= i < |fs| && x in fs[i].list.nodes ==> x in kns)
    && (forall i :: 0 <= i < |fs| ==> Holds(fs[i], ls[i]))
  }

  lemma InsertHolds(fs: seq<FreqNode>, ls: seq<seq<KeyNode>>, kls: set<KeyList>, kns: set<KeyNode>,
                    i: nat, f: FreqNode, l: seq<KeyNode>, kls': set<KeyList>, kns': set<KeyNode>)
    requires AllHold(fs, ls, kls, kns) && i <= |fs| && kls <= kls' && kns <= kns'
    requires f.list in kls' && Holds(f, l) && forall x :: x in l ==> x in kns'
    ensures AllHold(InsertAt(fs, i, f), InsertAt(ls, i, l), kls', kns')
  {
    var gs, ms := InsertAt(fs, i, f), InsertAt(ls, i, l);
    assert forall k :: 0 <= k < |gs| ==> gs[k] == (if k < i then fs[k] else if k == i then f else fs[k - 1]);
    assert forall k :: 0 <= k < |gs| ==> ms[k] == (if k < i then ls[k] else if k == i then l else ls[k - 1]);
  }

  lemma RemoveHolds(fs: seq<FreqNode>, ls: seq<seq<KeyNode>>, kls: set<KeyList>, kns: set<KeyNode>, i: nat)
    requires AllHold(fs, ls, kls, kns) && i < |fs|
    ensures AllHold(RemoveAt(fs, i), RemoveAt(ls, i), kls, kns)
  {
    var gs, ms := RemoveAt(fs, i), RemoveAt(ls, i);
    assert forall k :: 0 <= k < |gs| ==> gs[k] == fs[if k < i then k else k + 1];
    assert forall k :: 0 <= k < |gs| ==> ms[k] == ls[if k < i then k else k + 1];
  }

  // Bucket i set aside: what the other buckets hold is apart from its list and its nodes.
  lemma SetAside(fs: seq<FreqNode>, ls: seq<seq<KeyNode>>, kls: set<KeyList>, kns: set<KeyNode>, i: nat)
    returns (kls': set<KeyList>, kns': set<KeyNode>)
    requires AllHold(fs, ls, kls, kns) && Distinct(fs) && i < |fs|
    ensures AllHold(RemoveAt(fs, i), RemoveAt(ls, i), kls', kns')
    ensures fs[i].list !in kls' && kls' <= kls && kns' <= kns
    ensures forall x :: x in ls[i] ==> x !in kns' && x.owner == fs[i].list
    ensures forall x :: x in kns' ==> x.owner != null && x.owner != fs[i].list
  {
    kls' := kls - {fs[i].list};
    kns' := set x | x in kns && x.owner != null && x.owner != fs[i].list;
    var gs, ms := RemoveAt(fs, i), RemoveAt(ls, i);
    forall k | 0 <= k < |gs|
      ensures gs[k].list in kls' && Holds(gs[k], ms[k])
      ensures forall x :: x in ms[k] ==> x in kns'
    {
      var k' := if k < i then k else k + 1;
      assert gs[k] == fs[k'] && ms[k] == ls[k'] && Holds(fs[k'], ls[k']) && Holds(fs[i], ls[i]);
    }
  }

  lemma PutBack(fs: seq<FreqNode>, ls: seq<seq<KeyNode>>, kls: set<KeyList>, kns: set<KeyNode>, i: nat,
                l: seq<KeyNode>, kls': set<KeyList>, kns': set<KeyNode>)
    requires |fs| == |ls| && i < |fs|
    requires AllHold(RemoveAt(fs, i), RemoveAt(ls, i), kls', kns') && kls' <= kls && kns' <= kns
    requires fs[i].list in kls && Holds(fs[i], l) && forall x :: x in l ==> x in kns
    ensures AllHold(fs, ls[i := l], kls, kns)
  {
    InsertHolds(RemoveAt(fs, i), RemoveAt(ls, i), kls', kns', i, fs[i], l, kls, kns);
    assert InsertAt(RemoveAt(fs, i), i, fs[i]) == fs;
    assert InsertAt(RemoveAt(ls, i), i, l) == ls[i := l];
  }

  // KeyList::del and KeyList::add on one bucket of the cache.
  method DelKey(f: FreqNode, node: KeyNode, ghost fs: seq<FreqNode>, ghost ls: seq<seq<KeyNode>>,
                ghost kls: set<KeyList>, ghost kns: set<KeyNode>, ghost i: nat, ghost j: nat)
    requires AllHold(fs, ls, kls, kns) && Distinct(fs)
    requires i < |fs| && fs[i] == f && 1 <= j < |ls[i]| && ls[i][j] == node
    modifies f.list`last, f.list`nodes, f.list.nodes`pre, f.list.nodes`next, node`owner
    ensures AllHold(fs, ls[i := RemoveAt(ls[i], j)], kls, kns) && node.owner == null
  {
    ghost var kls', kns' := SetAside(fs, ls, kls, kns, i);
    f.list.Del(node, j);
    PutBack(fs, ls, kls, kns, i, f.list.nodes, kls', kns');
  }

  method AddKey(f: FreqNode, node: KeyNode, ghost fs: seq<FreqNode>, ghost ls: seq<seq<KeyNode>>,
                ghost kls: set<KeyList>, ghost kns: set<KeyNode>, ghost i: nat)
    requires AllHold(fs, ls, kls, kns) && Distinct(fs)
    requires i < |fs| && fs[i] == f
    requires node.owner == null
    modifies f.list`last, f.list`nodes, f.list.nodes`pre, f.list.nodes`next, node`pre, node`next, node`owner
    ensures AllHold(fs, ls[i := InsertAt(ls[i], 1, node)], kls, kns + {node})
  {
    ghost var kls', kns' := SetAside(fs, ls, kls, kns, i);
    f.list.Add(node);
    PutBack(fs, ls, kls, kns + {node}, i, f.list.nodes, kls', kns');
  }

}
