/** Buffer: bytes between a reader and a writer index of an array that grows or compacts. */
module Buffers {
  import opened Optional

  const CHEAP_PREPEND: nat := 8
  const INITIAL_SIZE: nat := 4096
  const EXTRA_BUFFER_SIZE: nat := 10240
  const INT_MAX: nat := 0x7FFF_FFFF

  // The first end of line, if there is one.
  function Search(s: string): (p: Option<nat>)
    ensures p.Some? ==> p.value + 2 <= |s| && s[p.value] == '\r' && s[p.value + 1] == '\n'
  {
    if |s| < 2 then None
    else if s[0] == '\r' && s[1] == '\n' then Some(0)
    else
      var p := Search(s[1..]);
      if p.None? then None else Some(p.value + 1)
  }

  // What readv gave: the bytes, or an error number.
  datatype Arrival = Bytes(bytes: string) | Errno(errno: int)

  class Buffer {
    var buffer: array<char>
    var readerIndex: nat
    var writerIndex: nat

    ghost predicate Valid()
      reads this
    {
      CHEAP_PREPEND <= readerIndex <= writerIndex <= buffer.Length
    }

    // The readable bytes.
    function Contents(): (s: string)
      requires Valid()
      reads this, buffer
      ensures |s| == writerIndex - readerIndex
    {
      buffer[readerIndex..writerIndex]
    }

    function ReadableBytes(): nat
      requires Valid()
      reads this
    {
      writerIndex - readerIndex
    }

    function WritableBytes(): nat
      requires Valid()
      reads this
    {
      buffer.Length - writerIndex
    }

    constructor (initialSize: nat := INITIAL_SIZE)
      ensures Valid() && fresh(buffer) && Contents() == []
      ensures WritableBytes() == initialSize
    {
      buffer := new char[CHEAP_PREPEND + initialSize];
      readerIndex, writerIndex := CHEAP_PREPEND, CHEAP_PREPEND;
    }

    function FindCRLF(): (p: Option<nat>)
      requires Valid()
      reads this, buffer
      ensures p.Some? ==> p.value + 2 <= ReadableBytes()
    {
      Search(Contents())
    }

    method RetrieveAll()
      requires Valid()
      modifies this`readerIndex, this`writerIndex
      ensures Valid() && Contents() == []
    {
      readerIndex, writerIndex := CHEAP_PREPEND, CHEAP_PREPEND;
    }

    method Retrieve(len: nat)
      requires Valid() && len <= ReadableBytes()
      modifies this`readerIndex, this`writerIndex
      ensures Valid() && Contents() == old(Contents())[len..]
    {
      if len < ReadableBytes() {
        readerIndex := readerIndex + len;
      } else {
        RetrieveAll();
      }
    }

    // Up to a position counted from the reader index.
    method RetrieveUntil(end: nat)
      requires Valid() && end <= ReadableBytes()
      modifies this`readerIndex, this`writerIndex
      ensures Valid() && Contents() == old(Contents())[end..]
    {
      Retrieve(end);
    }

    // Room for len bytes, by growing or by moving the readable bytes to the front. The
    // second asks that there is somewhere to move them.
    method MakeSpace(len: nat)
      requires Valid()
      requires WritableBytes() + readerIndex >= len + CHEAP_PREPEND ==> CHEAP_PREPEND < readerIndex
      modifies this, buffer
      ensures Valid() && (buffer == old(buffer) || fresh(buffer))
      ensures Contents() == old(Contents()) && WritableBytes() >= len
    {
      if WritableBytes() + readerIndex < len + CHEAP_PREPEND {
        Resize(writerIndex + len);
      } else {
        assert CHEAP_PREPEND < readerIndex;
        var readable := ReadableBytes();
        Copy(readerIndex, CHEAP_PREPEND, readable);
        readerIndex := CHEAP_PREPEND;
        writerIndex := readerIndex + readable;
        assert readable == ReadableBytes();
      }
    }

    // std::copy to a place before
    method Copy(source: nat, target: nat, n: nat)
      requires target < source && source + n <= buffer.Length
      modifies buffer
      ensures buffer[target..target + n] == old(buffer[source..source + n])
    {
      ghost var was := buffer[source..source + n];
      var i := 0;
      while i < n
        invariant 0 <= i <= n
        invariant forall k :: 0 <= k < i ==> buffer[target + k] == was[k]
        invariant forall k :: i <= k < n ==> buffer[source + k] == was[k]
      {
        buffer[target + i] := buffer[source + i];
        i := i + 1;
      }
    }

    // vector::resize to something larger
    method Resize(size: nat)
      requires Valid() && size >= writerIndex
      modifies this`buffer
      ensures Valid() && fresh(buffer) && buffer.Length == size && Contents() == old(Contents())
    {
      var a := new char[size];
      forall i | 0 <= i < writerIndex {
        a[i] := buffer[i];
      }
      buffer := a;
    }

    // Bytes put after the readable ones, not yet counted among them.
    method Write(data: string)
      requires Valid() && |data| <= WritableBytes()
      modifies buffer
      ensures Contents() == old(Contents())
      ensures buffer[writerIndex..writerIndex + |data|] == data
    {
      forall i | 0 <= i < |data| {
        buffer[writerIndex + i] := data[i];
      }
    }

    method HasWritten(len: nat)
      requires Valid() && len <= WritableBytes()
      modifies this`writerIndex
      ensures Valid() && writerIndex == old(writerIndex) + len
      ensures Contents() == old(Contents()) + buffer[old(writerIndex)..writerIndex]
    {
      writerIndex := writerIndex + len;
    }

    method Append(data: string)
      requires Valid() && |data| <= INT_MAX
      modifies this, buffer
      ensures Valid() && (buffer == old(buffer) || fresh(buffer))
      ensures Contents() == old(Contents()) + data
    {
      hide Contents;
      if WritableBytes() < |data| {
        MakeSpace(|data|);
      }
      assert WritableBytes() >= |data|;
      Write(data);
      HasWritten(|data|);
    }

    // How much one readv can bring.
    function ReadLimit(): nat
      requires Valid()
      reads this
    {
      WritableBytes() + if WritableBytes() < EXTRA_BUFFER_SIZE then EXTRA_BUFFER_SIZE else 0
    }

    // readFd: the kernel fills the writable bytes first and the extra buffer after that.
    method ReadFd(arrival: Arrival) returns (n: int, savedErrno: Option<int>)
      requires Valid()
      requires arrival.Bytes? ==> |arrival.bytes| <= ReadLimit()
      modifies this, buffer
      ensures Valid() && (buffer == old(buffer) || fresh(buffer))
      ensures arrival.Bytes? ==> n == |arrival.bytes| && savedErrno == None && Contents() == old(Contents()) + arrival.bytes
      ensures arrival.Errno? ==> n < 0 && savedErrno == Some(arrival.errno) && Contents() == old(Contents())
    {
      hide Contents;
      savedErrno := None;
      match arrival {
        case Errno(errno) =>
          n := -1;
          savedErrno := Some(errno);
        case Bytes(bytes) =>
          var writable := WritableBytes();
          var direct := if |bytes| <= writable then bytes else bytes[..writable];
          Write(direct);
          n := |bytes|;
          if n <= writable {
            HasWritten(n);
          } else {
            HasWritten(writable);
            Append(bytes[writable..]);
            assert bytes == bytes[..writable] + bytes[writable..];
          }
      }
    }
  }
}
