/** The pipe as a first-in first-out queue of bytes. */
module Pipe {
  import opened Basics
  import opened Rings

  const ATOMIC_SIZE: nat := 4096

  datatype ReadResult = Data(bytes: seq<Byte>) | Eof | ReadAgain | ReadInterrupted | ReadBlocks
  datatype WriteResult = Wrote(count: nat) | Broken | WriteAgain | WriteInterrupted | WriteBlocks

  /** The number of index bits if the capacity is a power of two above 1. */
  method MaskBits(capacity: nat) returns (masked: bool, bits: nat)
    ensures masked <==> exists m: nat :: capacity == Pow2(m) && m > 0
    ensures masked ==> capacity == Pow2(bits)
  {
    bits := 0;
    var p := 1;
    while p < capacity
      invariant p == Pow2(bits) && forall m: nat :: m < bits ==> Pow2(m) < capacity
      decreases capacity - p
    {
      p := 2 * p;
      bits := bits + 1;
    }
    masked := p == capacity && bits > 0;
    forall m: nat | capacity == Pow2(m) && m > 0 ensures masked {
      if bits < m { Pow2Grows(bits, m); }
    }
  }

  class Ring {
    const buf: array<Byte>
    const masked: bool
    const bits: nat
    var head: nat
    var tail: nat
    var size: nat
    ghost var accepted: seq<Byte>      // every byte any write was told is in
    ghost var delivered: seq<Byte>     // every byte any read has returned

    ghost predicate Valid()
      reads this, buf
    {
      && tail < buf.Length && size <= buf.Length && head == Step(tail, size, buf.Length)
      && (masked ==> buf.Length == Pow2(bits))
      && accepted == delivered + Contents()
    }

    ghost function Contents(): seq<Byte>
      requires tail < buf.Length && size <= buf.Length
      reads this, buf
    {
      Window(buf[..], tail, size)
    }

    constructor (capacity: nat, m: bool, b: nat)
      requires 0 < capacity && (m ==> capacity == Pow2(b))
      ensures Valid() && fresh(buf) && buf.Length == capacity && accepted == [] && delivered == []
    {
      buf := new Byte[capacity](_ => 0);
      masked, bits := m, b;
      head, tail, size := 0, 0, 0;
      accepted, delivered := [], [];
    }

    /** pipe_ring_advance, both ways of wrapping */
    method Advance(index: nat, count: nat) returns (next: nat)
      requires index < buf.Length && count <= buf.Length && (masked ==> buf.Length == Pow2(bits))
      ensures next == Step(index, count, buf.Length)
    {
      if masked {
        MaskedStep(index, count, bits);
        return LowBits(index + count, bits);
      }
      next := index + count;
      if next >= buf.Length { next := next - buf.Length; }
    }

    /** pipe_ring_copy_out */
    method CopyOut(count: nat) returns (data: seq<Byte>)
      requires tail < buf.Length && count <= buf.Length
      ensures data == Window(buf[..], tail, count)
    {
      var first := buf.Length - tail;
      if first > count { first := count; }
      data := buf[tail..tail + first];
      if count > first { data := data + buf[..count - first]; }
    }

    /** pipe_ring_copy_in */
    method CopyIn(src: seq<Byte>)
      requires head < buf.Length && |src| <= buf.Length
      modifies buf
      ensures buf[..] == Put(old(buf[..]), head, src)
    {
      hide Patch;
      var first := buf.Length - head;
      if first > |src| { first := |src|; }
      assert |src| <= first ==> src[..first] == src;
      Copy(buf, head, src[..first]);
      if |src| > first { Copy(buf, 0, src[first..]); }
    }

    /** pipe_ring_copy_in and pipe_ring_produce */
    method Append(src: seq<Byte>)
      requires Valid() && 0 < |src| <= buf.Length - size
      modifies this`head, this`size, this`accepted, buf
      ensures Valid() && Contents() == old(Contents()) + src && accepted == old(accepted) + src
    {
      hide Window, Put;
      CopyIn(src);
      PutExtends(old(buf[..]), tail, size, src);
      head := Advance(head, |src|);
      size := size + |src|;
      accepted := accepted + src;
      assert delivered + (old(Contents()) + src) == delivered + old(Contents()) + src;
    }

    /** The locked part of pipe_read_common once there is data. */
    method Take(want: nat) returns (data: seq<Byte>)
      requires Valid()
      modifies this`tail, this`size, this`delivered
      ensures Valid() && |data| == if want < old(size) then want else old(size)
      ensures old(Contents()) == data + Contents() && delivered == old(delivered) + data && accepted == old(accepted)
    {
      hide Window;
      var chunk := if want < size then want else size;
      data := CopyOut(chunk);
      WindowSplit(buf[..], tail, size, chunk);
      tail := Advance(tail, chunk);
      size := size - chunk;
      assert delivered + (data + Contents()) == delivered + data + Contents();
      delivered := delivered + data;
    }

    /** One round of pipe_read_common; ReadBlocks stands for going to sleep and trying again. */
    method Read(want: nat, closed: bool, writers: nat, nonblock: bool, signal: bool) returns (r: ReadResult)
      requires Valid()
      modifies this`tail, this`size, this`delivered
      ensures Valid() && accepted == old(accepted)
      ensures r.Data? ==> r.bytes <= old(Contents()) && delivered == old(delivered) + r.bytes
      ensures r.Data? ==> |r.bytes| == Min(want, |old(Contents())|)
      ensures !r.Data? ==> delivered == old(delivered) && old(Contents()) == [] && want > 0
      ensures r == Eof <==> want > 0 && old(Contents()) == [] && (closed || writers == 0)
      ensures r == ReadAgain <==> want > 0 && old(Contents()) == [] && !closed && writers > 0 && nonblock
      ensures r == ReadBlocks <==> want > 0 && old(Contents()) == [] && !closed && writers > 0 && !nonblock && !signal
      ensures delivered <= accepted
    {
      hide Window;
      if want == 0 { return Data([]); }
      if size == 0 {
        if closed { return Eof; }
        if writers == 0 { return Eof; }
        if nonblock { return ReadAgain; }
        if signal { return ReadInterrupted; }
        return ReadBlocks;
      }
      var data := Take(want);
      return Data(data);
    }

    /**
     One round of pipe_write_common for the bytes rest left of a call that wrote whole bytes;
     WriteBlocks stands for going to sleep and trying again.
     */
    method Write(rest: seq<Byte>, whole: nat, closed: bool, readers: nat, nonblock: bool, signal: bool)
      returns (r: WriteResult)
      requires Valid() && 0 < |rest| <= whole
      modifies this`head, this`size, this`accepted, buf
      ensures Valid() && delivered == old(delivered)
      ensures r.Wrote? ==> 0 < r.count <= |rest| && accepted == old(accepted) + rest[..r.count]
      ensures r.Wrote? && whole <= ATOMIC_SIZE ==> r.count == |rest|
      ensures r.Wrote? && r.count < |rest| ==> |Contents()| == buf.Length
      ensures !r.Wrote? ==> accepted == old(accepted)
      ensures r == Broken <==> closed || readers == 0
      ensures r == WriteAgain <==>
                && !closed && readers > 0 && nonblock
                && buf.Length - |old(Contents())| < (if whole <= ATOMIC_SIZE then |rest| else 1)
      ensures r == WriteBlocks <==>
                && !closed && readers > 0 && !nonblock && !signal
                && buf.Length - |old(Contents())| < (if whole <= ATOMIC_SIZE then |rest| else 1)
    {
      hide Window;
      if closed || readers == 0 { return Broken; }
      var atomic := whole <= ATOMIC_SIZE;
      if (if atomic then buf.Length - size < |rest| else buf.Length - size == 0) {
        if nonblock { return WriteAgain; }
        if signal { return WriteInterrupted; }
        return WriteBlocks;
      }
      var writable := buf.Length - size;
      var chunk := if |rest| < writable then |rest| else writable;
      Append(rest[..chunk]);
      return Wrote(chunk);
    }
  }
}
