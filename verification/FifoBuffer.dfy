/** A byte queue in one buffer that compacts itself and grows up to a maximum. */
module FifoBuffers {
  import Memory

  type Byte = Memory.Byte

  const MIN_ALLOC := 1024

  function Min(a: int, b: int): int {
    if a < b then a else b
  }

  class FifoBuffer {
    const maxSize: nat
    var buffer: array<Byte>
    var read: nat
    var fill: nat
    var size: nat
    /** All bytes Write took and all bytes Read gave, in order. */
    ghost var taken: seq<Byte>
    ghost var given: seq<Byte>

    ghost predicate Valid()
      reads this, buffer
    {
      && read <= fill <= size <= maxSize && buffer.Length == size
      && taken == given + Contents()
    }

    /** The bytes in the queue, oldest first. */
    ghost function Contents(): (s: seq<Byte>)
      requires read <= fill <= buffer.Length
      reads this, buffer
    {
      buffer[read..fill]
    }

    constructor (maxSize: nat)
      ensures Valid() && fresh(buffer) && this.maxSize == maxSize && Contents() == [] && taken == given == []
    {
      this.maxSize := maxSize;
      buffer := new Byte[0];
      read, fill, size := 0, 0, 0;
      taken, given := [], [];
    }

    method GetSize() returns (n: nat)
      requires Valid()
      ensures n == |Contents()|
    {
      n := fill - read;
    }

    method GetSpace() returns (n: nat)
      requires Valid()
      ensures n == maxSize - |Contents()|
    {
      var used := GetSize();
      n := maxSize - used;
    }

    /** Write takes as much as there is space for, through any number of compactions and growths. */
    method Write(buf: seq<Byte>) returns (n: nat)
      requires Valid()
      modifies this, buffer
      ensures Valid() && (buffer == old(buffer) || fresh(buffer))
      ensures n == Min(|buf|, maxSize - |old(Contents())|)
      ensures Contents() == old(Contents()) + buf[..n]
      ensures taken == old(taken) + buf[..n] && given == old(given)
      decreases maxSize - size, read
    {
      var capa := size - fill;
      if |buf| <= capa {
        Append(buf, |buf|);
        return |buf|;
      }
      if read > 0 && size <= maxSize {
        Compact();
        n := Write(buf);
        return;
      }
      if size == maxSize {
        if capa > 0 {
          Append(buf, capa);
          return capa;
        }
      } else {
        Grow(|buf|);
        n := Write(buf);
        return;
      }
      assert buf[..0] == [];
      n := 0;
    }

    /** memcpy of the first n bytes to the end of the queue. */
    method Append(buf: seq<Byte>, n: nat)
      requires Valid() && n <= |buf| && n <= size - fill
      modifies this`fill, this`taken, buffer
      ensures Valid() && fill == old(fill) + n && Contents() == old(Contents()) + buf[..n]
      ensures taken == old(taken) + buf[..n]
    {
      ghost var before := Contents();
      forall i | 0 <= i < n {
        buffer[fill + i] := buf[i];
      }
      fill := fill + n;
      taken := taken + buf[..n];
      assert Contents() == before + buf[..n];
    }

    /** memmove of the queue to the front of the buffer. */
    method Compact()
      requires Valid()
      modifies this`fill, this`read, buffer
      ensures Valid() && read == 0 && Contents() == old(Contents())
    {
      if fill > read {
        forall i | 0 <= i < fill - read {
          buffer[i] := buffer[read + i];
        }
      }
      fill := fill - read;
      read := 0;
      assert Contents() == old(Contents());
    }

    /** A larger buffer: at least MIN_ALLOC more, room for all of the write, but never above the maximum. */
    method Grow(len: nat)
      requires Valid() && size < maxSize && len > size - fill
      modifies this`buffer, this`size, this`fill, this`read
      ensures Valid() && fresh(buffer) && read == 0 && Contents() == old(Contents())
      ensures old(size) < size <= maxSize
      ensures size == maxSize || (size >= old(size) + MIN_ALLOC && size >= old(fill) + len)
    {
      var newSize := len + fill;
      if newSize - size < MIN_ALLOC {
        newSize := size + MIN_ALLOC;
      }
      if newSize > maxSize {
        newSize := maxSize;
      }
      var newBuf := new Byte[newSize];
      forall i | 0 <= i < fill - read {
        newBuf[i] := buffer[read + i];
      }
      ghost var queued := Contents();
      assert forall i :: 0 <= i < |queued| ==> newBuf[i] == queued[i];
      buffer := newBuf;
      fill := fill - read;
      read := 0;
      size := newSize;
      assert |Contents()| == |queued| && forall i :: 0 <= i < |queued| ==> Contents()[i] == queued[i];
    }

    /** Read gives the oldest bytes, at most len of them. */
    method Read(len: nat) returns (buf: seq<Byte>)
      requires Valid()
      modifies this`read, this`given
      ensures Valid() && |buf| == Min(len, |old(Contents())|)
      ensures old(Contents()) == buf + Contents()
      ensures given == old(given) + buf && taken == old(taken)
    {
      var capa := fill - read;
      buf := [];
      if capa > 0 {
        var l := Min(len, capa);
        ghost var before := Contents();
        buf := buffer[read..read + l];
        read := read + l;
        given := given + buf;
        assert before == buf + Contents();
      }
    }
  }

  // ---------------------------------------------------------------- the queue it refines

  datatype Call = Put(bytes: seq<Byte>) | Get(len: nat)
  /** What the calls accepted and returned so far, and what is queued. */
  datatype Queue = Queue(queued: seq<Byte>, put: seq<Byte>, got: seq<Byte>)

  /** A plain bounded queue; the contracts of Write and Read are these two clauses. */
  function Do(q: Queue, c: Call, max: nat): Queue
    requires |q.queued| <= max
  {
    match c
    case Put(bytes) =>
      var n := Min(|bytes|, max - |q.queued|);
      Queue(q.queued + bytes[..n], q.put + bytes[..n], q.got)
    case Get(len) =>
      var n := Min(len, |q.queued|);
      Queue(q.queued[n..], q.put, q.got + q.queued[..n])
  }

  function DoAll(calls: seq<Call>, max: nat): (q: Queue)
    ensures |q.queued| <= max
  {
    if calls == [] then Queue([], [], [])
    else Do(DoAll(calls[..|calls| - 1], max), calls[|calls| - 1], max)
  }

  /** Nothing lost, doubled or reordered: what came out, then what is queued, is what went in. */
  lemma {:induction false} FirstInFirstOut(calls: seq<Call>, max: nat)
    ensures var q := DoAll(calls, max); q.got + q.queued == q.put
  {
    if calls != [] {
      var before, c := calls[..|calls| - 1], calls[|calls| - 1];
      FirstInFirstOut(before, max);
      var q := DoAll(before, max);
      match c
      case Put(bytes) =>
        var n := Min(|bytes|, max - |q.queued|);
        assert q.got + (q.queued + bytes[..n]) == q.got + q.queued + bytes[..n];
      case Get(len) =>
        var n := Min(len, |q.queued|);
        assert q.queued == q.queued[..n] + q.queued[n..];
        assert q.got + q.queued[..n] + q.queued[n..] == q.got + (q.queued[..n] + q.queued[n..]);
    }
  }

  /** The buffer driven by any calls is that queue. */
  method Drive(calls: seq<Call>, max: nat) returns (fifo: FifoBuffer)
    ensures fresh(fifo) && fifo.Valid() && fifo.maxSize == max
    ensures var q := DoAll(calls, max); fifo.Contents() == q.queued && fifo.taken == q.put && fifo.given == q.got
  {
    fifo := new FifoBuffer(max);
    for i := 0 to |calls|
      invariant fresh(fifo) && fresh(fifo.buffer) && fifo.Valid() && fifo.maxSize == max
      invariant var q := DoAll(calls[..i], max); fifo.Contents() == q.queued && fifo.taken == q.put && fifo.given == q.got
    {
      assert calls[..i + 1][..i] == calls[..i];
      ghost var queued := fifo.Contents();
      match calls[i]
      case Put(bytes) =>
        var n := fifo.Write(bytes);
      case Get(len) =>
        var got := fifo.Read(len);
        assert queued == got + fifo.Contents();
        assert queued[..|got|] == got && queued[|got|..] == fifo.Contents();
    }
    assert calls[..|calls|] == calls;
  }
}
