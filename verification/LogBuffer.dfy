/** LogBuffer: a fixed-size buffer and the position where the next byte goes. */
module LogBuffers {

  const SMALL_BUFFER: nat := 4096
  const LARGE_BUFFER: nat := 4096 * 1000

  class LogBuffer {
    const data: array<char>
    var cur: nat

    ghost predicate Valid()
      reads this
    {
      cur <= data.Length
    }

    function Contents(): (s: seq<char>)
      reads this, data
      requires Valid()
    {
      data[..cur]
    }

    constructor (size: nat)
      ensures Valid() && cur == 0 && data.Length == size && fresh(data)
    {
      data := new char[size];
      cur := 0;
    }

    function Avail(): nat
      reads this
      requires Valid()
    {
      data.Length - cur
    }

    // A record that does not fit, with a byte to spare, is dropped.
    method Append(line: seq<char>)
      requires Valid()
      modifies this, data
      ensures Valid()
      ensures Contents() == old(Contents()) + if old(Avail()) > |line| then line else []
    {
      if Avail() > |line| {
        forall i | 0 <= i < |line| {
          data[cur + i] := line[i];
        }
        cur := cur + |line|;
      }
    }

    method Reset()
      modifies this
      ensures Valid() && cur == 0
    {
      cur := 0;
    }
  }
}
