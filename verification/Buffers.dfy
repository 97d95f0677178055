/** Buffer of cpp/include/rpc/buffer_pool.hpp with the reader and writer of
    cpp/include/rpc/serialization.hpp. */
module Buffers {
  import opened Wrappers
  import opened Bytes

  class Buffer {
    const data: array<byte>
    var size: nat

    constructor (capacity: nat)
      requires capacity < U64
      ensures Valid() && fresh(data) && data.Length == capacity && Contents() == []
    {
      data := new byte[capacity];
      size := 0;
    }

    ghost predicate Valid()
      reads this
    {
      size <= data.Length < U64
    }

    function Contents(): (c: seq<byte>)
      requires Valid()
      reads this, data
      ensures |c| == size
    {
      data[..size]
    }

    function Remaining(): nat
      requires Valid()
      reads this
    {
      data.Length - size
    }

    /** Appends as much of `src` as fits. */
    method Write(src: seq<byte>) returns (written: nat)
      requires Valid()
      modifies this`size, data
      ensures Valid() && written == Min(|src|, old(Remaining()))
      ensures Contents() == old(Contents()) + src[..written]
    {
      written := Min(|src|, Remaining());
      forall i | 0 <= i < written {
        data[size + i] := src[i];
      }
      size := size + written;
    }

    /** Copies stored bytes from `offset`; nothing when it lies at or past the end. */
    method Read(len: nat, offset: nat) returns (dst: seq<byte>)
      requires Valid()
      ensures dst == if offset >= size then [] else Contents()[offset..offset + Min(len, size - offset)]
    {
      if offset >= size {
        return [];
      }
      dst := data[offset..offset + Min(len, size - offset)];
    }

    method SetSize(n: nat)
      requires data.Length < U64
      modifies this`size
      ensures Valid() && size == Min(n, data.Length)
    {
      size := Min(n, data.Length);
    }

    /** memcpy over bytes that are already part of the buffer. */
    method Patch(at: nat, src: seq<byte>)
      requires Valid() && at + |src| <= size
      modifies data
      ensures Valid() && Contents() == old(Contents()[..at]) + src + old(Contents()[at + |src|..])
    {
      forall i | 0 <= i < |src| {
        data[at + i] := src[i];
      }
    }
  }

  class BufferWriter {
    const buffer: Buffer

    constructor (buffer: Buffer)
      ensures this.buffer == buffer
    {
      this.buffer := buffer;
    }

    ghost predicate Valid()
      reads buffer
    {
      buffer.Valid()
    }

    /** All or nothing. */
    method Write(src: seq<byte>) returns (ok: bool)
      requires Valid()
      modifies buffer`size, buffer.data
      ensures Valid() && (ok <==> |src| <= old(buffer.Remaining()))
      ensures buffer.Contents() == old(buffer.Contents()) + if ok then src else []
    {
      if buffer.Remaining() < |src| {
        return false;
      }
      var n := buffer.Write(src);
      assert src[..n] == src;
      return true;
    }

    /** The position of `n` reserved bytes, whose values stay whatever they were. */
    method Reserve(n: nat) returns (at: Option<nat>)
      requires Valid()
      modifies buffer`size
      ensures Valid() && (at.Some? <==> n <= old(buffer.Remaining()))
      ensures at.None? ==> buffer.size == old(buffer.size)
      ensures at.Some? ==> at.value == old(buffer.size) && buffer.size == old(buffer.size) + n
      ensures old(buffer.Contents()) <= buffer.Contents()
    {
      if buffer.Remaining() < n {
        return None;
      }
      at := Some(buffer.size);
      buffer.SetSize(buffer.size + n);
    }
  }

  class BufferReader {
    const data: seq<byte>
    var pos: nat

    constructor (data: seq<byte>)
      ensures this.data == data && pos == 0
    {
      this.data := data;
      pos := 0;
    }

    ghost predicate Valid()
      reads this
    {
      pos <= |data|
    }

    method Read(n: nat) returns (r: Option<seq<byte>>)
      requires Valid()
      modifies this`pos
      ensures Valid()
      ensures if old(pos) + n <= |data| then r == Some(data[old(pos)..old(pos) + n]) && pos == old(pos) + n
              else r == None && pos == old(pos)
    {
      if |data| - pos < n {
        return None;
      }
      r := Some(data[pos..pos + n]);
      pos := pos + n;
    }

    method Seek(to: nat) returns (ok: bool)
      requires Valid()
      modifies this`pos
      ensures Valid() && (ok <==> to <= |data|) && pos == if ok then to else old(pos)
    {
      if to > |data| {
        return false;
      }
      pos := to;
      return true;
    }
  }
}
