/** ptr_vector: a vector that owns the log buffers it holds. What it deletes is returned. */
module PtrVectors {
  import opened LogBuffers

  class PtrVector {
    var items: seq<LogBuffer>

    constructor ()
      ensures items == []
    {
      items := [];
    }

    method PushBack(b: LogBuffer)
      modifies this
      ensures items == old(items) + [b]
    {
      items := items + [b];
    }

    method PopBack() returns (b: LogBuffer)
      requires items != []
      modifies this
      ensures items + [b] == old(items)
    {
      b := items[|items| - 1];
      items := items[..|items| - 1];
    }

    // Keeps the first s buffers and deletes the others, or adds new ones up to s.
    method Resize(s: nat, size: nat) returns (ghost deleted: seq<LogBuffer>)
      modifies this
      ensures |items| == s
      ensures s <= |old(items)| ==> items + deleted == old(items)
      ensures s > |old(items)| ==> deleted == [] && old(items) <= items
      ensures forall i :: |old(items)| <= i < s ==> fresh(items[i]) && items[i].cur == 0 && items[i].data.Length == size
    {
      deleted := [];
      if s < |items| {
        deleted := items[s..];
        items := items[..s];
      } else {
        while |items| < s
          invariant |old(items)| <= |items| && old(items) <= items
          invariant |items| <= s || items == old(items)
          invariant forall i :: |old(items)| <= i < |items| ==>
            fresh(items[i]) && items[i].cur == 0 && items[i].data.Length == size
        {
          var b := new LogBuffer(size);
          items := items + [b];
        }
      }
    }

    method Swap(other: PtrVector)
      modifies this, other
      ensures items == old(other.items) && other.items == old(items)
    {
      items, other.items := other.items, items;
    }

    method Clear() returns (ghost deleted: seq<LogBuffer>)
      modifies this
      ensures items == [] && deleted == old(items)
    {
      deleted := items;
      items := [];
    }
  }
}
