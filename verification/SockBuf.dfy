/** The socket buffer: a ring whose loops copy one contiguous chunk at a time. */
module SockBuf {
  import opened Basics
  import opened Rings

  /** Reducing an index by the capacity, for indices that have run past the end at most once. */
  function Reduce(x: nat, capacity: nat): (r: nat)
    requires 0 < capacity && x < 2 * capacity
    ensures r == if x < capacity then x else x - capacity
  {
    assert x >= capacity ==> x % capacity == x - capacity by {
      if x >= capacity { OnceAround(x - capacity, capacity); }
    }
    x % capacity
  }

  lemma OnceAround(y: nat, capacity: nat)
    requires y < capacity
    ensures (y + capacity) % capacity == y
  {}

  const BUF_SIZE: nat := 65536
  const BUF_MAX: nat := 262144

  class Buffer {
    const data: array<Byte>
    var head: nat       // where reading goes on
    var tail: nat       // where writing goes on
    var size: nat

    ghost predicate Valid()
      reads this
    {
      head < data.Length && size <= data.Length && tail == Step(head, size, data.Length)
    }

    ghost function Contents(): seq<Byte>
      requires Valid()
      reads this, data
    {
      Window(data[..], head, size)
    }

    /** sock_buf_init: no capacity asks for the standard one, and none exceeds the limit. */
    constructor (capacity: nat)
      ensures Valid() && fresh(data) && Contents() == []
      ensures data.Length == if capacity == 0 then BUF_SIZE else if capacity > BUF_MAX then BUF_MAX else capacity
    {
      var n := if capacity > BUF_MAX then BUF_MAX else capacity;
      if n == 0 { n := BUF_SIZE; }
      data := new Byte[n](_ => 0);
      head, tail, size := 0, 0, 0;
    }

    /** sock_buf_write */
    method Write(bytes: seq<Byte>) returns (written: nat)
      requires Valid()
      modifies this`tail, this`size, data
      ensures Valid() && written == (if |bytes| > data.Length - old(size) then data.Length - old(size) else |bytes|)
      ensures Contents() == old(Contents()) + bytes[..written]
    {
      hide Window, Patch;
      var space := data.Length - size;
      var len := if |bytes| > space then space else |bytes|;
      written := 0;
      ghost var before := Contents();
      assert before + bytes[..0] == before;
      while written < len
        invariant written <= len && Valid() && space == data.Length - size >= len - written
        invariant Contents() == before + bytes[..written]
      {
        var pos := tail;
        var chunk := if pos >= head then data.Length - pos else head - pos;
        if chunk > space { chunk := space; }
        if chunk > len - written { chunk := len - written; }
        WriteStep(before, bytes, written, chunk, data[..], head, size);
        Copy(data, pos, bytes[written..written + chunk]);
        written := written + chunk;
        tail := Reduce(pos + chunk, data.Length);
        size := size + chunk;
        space := space - chunk;
      }
    }

    /** sock_buf_read */
    method Read(want: nat) returns (bytes: seq<Byte>)
      requires Valid()
      modifies this`head, this`size
      ensures Valid() && |bytes| == (if want > old(size) then old(size) else want)
      ensures old(Contents()) == bytes + Contents()
    {
      hide Window, Progress;
      var len := if want > size then size else want;
      bytes := [];
      ghost var s, whole := data[..], Contents();
      ProgressStart(whole, s, head, size);
      while |bytes| < len
        invariant |bytes| <= len && Valid() && len - |bytes| <= size && Progress(whole, bytes, s, head, size)
        decreases len - |bytes|
      {
        var pos: nat := head;
        var chunk := if pos < tail then tail - pos else data.Length - pos;
        if chunk > len - |bytes| { chunk := len - |bytes|; }
        head := Reduce(pos + chunk, data.Length);
        ProgressStep(whole, bytes, s, pos, size, chunk, head, size - chunk);
        bytes := bytes + data[pos..pos + chunk];
        size := size - chunk;
      }
      ProgressDone(whole, bytes, s, head, size);
    }

    /** sock_buf_peek_at; sock_buf_peek is the same at offset 0 */
    method PeekAt(offset: nat, want: nat) returns (bytes: seq<Byte>)
      requires Valid()
      ensures offset > size ==> bytes == []
      ensures offset <= size ==> bytes == Contents()[offset..if want > size - offset then size else offset + want]
    {
      hide Window, Progress;
      if offset > size { return []; }
      var len := if want > size - offset then size - offset else want;
      var position: nat := Reduce(head + offset, data.Length);
      bytes := [];
      ghost var s, whole, left: nat := data[..], Contents()[offset..], size - offset;
      WindowSplit(s, head, size, offset);
      ProgressStart(whole, s, position, left);
      while |bytes| < len
        invariant |bytes| <= len && position < data.Length
        invariant left == size - offset - |bytes| && Progress(whole, bytes, s, position, left)
        decreases len - |bytes|
      {
        var chunk := data.Length - position;
        if chunk > len - |bytes| { chunk := len - |bytes|; }
        var next := Reduce(position + chunk, data.Length);
        ProgressStep(whole, bytes, s, position, left, chunk, next, left - chunk);
        bytes := bytes + data[position..position + chunk];
        position := next;
        left := left - chunk;
      }
      ProgressDone(whole, bytes, s, position, left);
    }

    /** sock_buf_discard */
    method Discard(n: nat)
      requires Valid()
      modifies this`head, this`size
      ensures Valid() && Contents() == old(Contents())[if n > old(size) then old(size) else n..]
    {
      hide Window;
      var len := if n > size then size else n;
      WindowSplit(data[..], head, size, len);
      head := Reduce(head + len, data.Length);
      size := size - len;
    }
  }

  /** Storing the next chunk behind the window extends it. */
  lemma WriteStep(before: seq<Byte>, bytes: seq<Byte>, written: nat, chunk: nat, s: seq<Byte>, from: nat, n: nat)
    requires
      && from < |s| && n + chunk <= |s| && 0 < chunk && written + chunk <= |bytes| && Step(from, n, |s|) + chunk <= |s|
    requires Window(s, from, n) == before + bytes[..written]
    ensures Window(Patch(s, Step(from, n, |s|), bytes[written..written + chunk]), from, n + chunk)
        == before + bytes[..written + chunk]
  {
    hide Window, Patch, Step;
    PatchExtends(s, from, n, bytes[written..written + chunk]);
    assert bytes[..written] + bytes[written..written + chunk] == bytes[..written + chunk];
    assert before + bytes[..written] + bytes[written..written + chunk]
        == before + (bytes[..written] + bytes[written..written + chunk]);
  }

  /** Of the whole, some bytes are out and the window holds the others. */
  ghost predicate Progress(whole: seq<Byte>, bytes: seq<Byte>, s: seq<Byte>, from: nat, n: nat) {
    from < |s| && n <= |s| && whole == bytes + Window(s, from, n)
  }

  lemma ProgressStart(whole: seq<Byte>, s: seq<Byte>, from: nat, n: nat)
    requires from < |s| && n <= |s| && whole == Window(s, from, n)
    ensures Progress(whole, [], s, from, n)
  {}

  /** Copying out a contiguous chunk takes it off the front of the window. */
  lemma ProgressStep(whole: seq<Byte>, bytes: seq<Byte>, s: seq<Byte>, from: nat, n: nat, chunk: nat, next: nat,
                     left: nat)
    requires Progress(whole, bytes, s, from, n) && chunk <= n && from + chunk <= |s| && n == left + chunk
    requires from < |s| && n <= |s| && next == Step(from, chunk, |s|)
    ensures Progress(whole, bytes + s[from..from + chunk], s, next, left)
  {
    WindowSplit(s, from, n, chunk);
    assert Window(s, from, chunk) == s[from..from + chunk];
    hide Window;
    assert bytes + (s[from..from + chunk] + Window(s, next, left))
        == bytes + s[from..from + chunk] + Window(s, next, left);
  }

  lemma ProgressDone(whole: seq<Byte>, bytes: seq<Byte>, s: seq<Byte>, from: nat, n: nat)
    requires Progress(whole, bytes, s, from, n)
    ensures from < |s| && n <= |s| && whole == bytes + Window(s, from, n) && bytes == whole[..|bytes|]
  {}
}
