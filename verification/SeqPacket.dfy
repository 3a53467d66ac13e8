/** SOCK_SEQPACKET records, each stored in the receiver's ring as a header and its bytes. */
module SeqPacket {
  import opened Basics
  import opened Rings
  import opened SockBuf

  const HEADER: nat := 16
  const WORD: nat := 0x1_0000_0000

  type Word = x: int | 0 <= x < WORD

  datatype Cred = Cred(pid: Word, uid: Word, gid: Word)
  datatype Record = Record(bytes: seq<Byte>, cred: Cred)

  // ---- Headers: four little-endian words ----

  function PutWord(w: Word): (s: seq<Byte>)
    ensures |s| == 4
  {
    [w % 256, w / 256 % 256, w / 65536 % 256, w / 16777216]
  }

  function GetWord(s: seq<Byte>): Word
    requires |s| == 4
  {
    var b0: int, b1: int, b2: int, b3: int := s[0], s[1], s[2], s[3];
    b0 + 256 * b1 + 65536 * b2 + 16777216 * b3
  }

  lemma WordRoundTrip(w: Word)
    ensures GetWord(PutWord(w)) == w
  {
    var q: int := w / 256;
    assert w / 65536 == q / 256;
    assert w / 16777216 == q / 65536 == (q / 256) / 256;
  }

  function PutHeader(length: Word, cred: Cred): (s: seq<Byte>)
    ensures |s| == HEADER
  {
    PutWord(length) + PutWord(cred.pid) + PutWord(cred.uid) + PutWord(cred.gid)
  }

  function GetLength(s: seq<Byte>): Word
    requires |s| == HEADER
  {
    GetWord(s[..4])
  }

  function GetCred(s: seq<Byte>): Cred
    requires |s| == HEADER
  {
    Cred(GetWord(s[4..8]), GetWord(s[8..12]), GetWord(s[12..]))
  }

  lemma HeaderRoundTrip(length: Word, cred: Cred)
    ensures GetLength(PutHeader(length, cred)) == length && GetCred(PutHeader(length, cred)) == cred
  {
    hide PutWord, GetWord;
    var s := PutHeader(length, cred);
    assert s[..4] == PutWord(length) && s[4..8] == PutWord(cred.pid);
    assert s[8..12] == PutWord(cred.uid) && s[12..] == PutWord(cred.gid);
    WordRoundTrip(length);
    WordRoundTrip(cred.pid);
    WordRoundTrip(cred.uid);
    WordRoundTrip(cred.gid);
  }

  // ---- The stream of records ----

  ghost predicate Fits(r: Record) { |r.bytes| < WORD }

  ghost function Frame(r: Record): (s: seq<Byte>)
    requires Fits(r)
    ensures |s| == HEADER + |r.bytes|
  {
    PutHeader(|r.bytes|, r.cred) + r.bytes
  }

  /** The records in their frames, oldest first. */
  ghost function Stream(q: seq<Record>): seq<Byte>
    requires forall r :: r in q ==> Fits(r)
  {
    if q == [] then [] else Frame(q[0]) + Stream(q[1..])
  }

  lemma {:induction false} StreamAppend(q: seq<Record>, r: Record)
    requires (forall x :: x in q ==> Fits(x)) && Fits(r)
    ensures (forall x :: x in q + [r] ==> Fits(x)) && Stream(q + [r]) == Stream(q) + Frame(r)
  {
    hide Frame;
    if q == [] {
      assert [] + [r] == [r] && [r][1..] == [];
    } else {
      StreamAppend(q[1..], r);
      assert (q + [r])[1..] == q[1..] + [r];
      assert Frame(q[0]) + (Stream(q[1..]) + Frame(r)) == Frame(q[0]) + Stream(q[1..]) + Frame(r);
    }
  }

  /** The first frame can be read off the front of the stream. */
  lemma FirstFrame(q: seq<Record>)
    requires (forall r :: r in q ==> Fits(r)) && q != []
    ensures var s := Stream(q); var n := |q[0].bytes|;
            && |s| >= HEADER + n && GetLength(s[..HEADER]) == n && GetCred(s[..HEADER]) == q[0].cred
            && s[HEADER..HEADER + n] == q[0].bytes && s[HEADER + n..] == Stream(q[1..])
  {
    hide GetLength, GetCred, PutHeader;
    var s, n := Stream(q), |q[0].bytes|;
    assert q[0] in q;
    HeaderRoundTrip(n, q[0].cred);
    assert s == PutHeader(n, q[0].cred) + q[0].bytes + Stream(q[1..]);
    assert s[..HEADER] == PutHeader(n, q[0].cred);
  }

  // ---- Sending and receiving ----

  datatype SendResult = Sent(n: nat) | TooLong | SendBroken | NotConnected | SendAgain | SendInterrupted | SendBlocks
  datatype RecvResult =
    | Got(bytes: seq<Byte>, truncated: bool, length: nat, cred: Cred)
    | Corrupt | End | RecvNotConnected | RecvAgain | RecvInterrupted | RecvBlocks

  /** The state of a socket, as far as the two operations look at it. */
  datatype Link = Link(connected: bool, shutRead: bool, shutWrite: bool, disconnecting: bool, hasPeer: bool)

  class Channel {
    const ring: Buffer
    ghost var queue: seq<Record>         // records waiting in the ring
    ghost var sent: seq<Record>          // all records ever sent
    ghost var received: seq<Record>      // all records ever received

    ghost predicate Valid()
      reads this, ring, ring.data
    {
      && ring.Valid() && HEADER <= ring.data.Length <= BUF_MAX
      && (forall r :: r in queue ==> Fits(r))
      && ring.Contents() == Stream(queue)
      && sent == received + queue
    }

    constructor (capacity: nat)
      requires capacity == 0 || HEADER <= capacity
      ensures Valid() && queue == [] && sent == [] && received == [] && fresh(ring) && fresh(ring.data)
    {
      ring := new Buffer(capacity);
      queue, sent, received := [], [], [];
    }

    /** One round of unix_seqpacket_send: all of the record goes in, or nothing. */
    method Send(r: Record, me: Link, peer: Link, nonblock: bool, signal: bool) returns (out: SendResult)
      requires Valid()
      modifies this`queue, this`sent, ring, ring.data
      ensures Valid()
      ensures out.Sent? ==> out.n == |r.bytes| && queue == old(queue) + [r] && sent == old(sent) + [r]
      ensures !out.Sent? ==> queue == old(queue) && sent == old(sent)
      ensures out.Sent? <==>
                && !me.shutWrite && me.connected && me.hasPeer
                && HEADER + |r.bytes| <= ring.data.Length - |old(ring.Contents())|
      ensures out == SendBlocks <==>
                && !me.shutWrite && me.connected && me.hasPeer && !peer.shutRead && !peer.disconnecting && !nonblock
                   && !signal
                && ring.data.Length - |old(ring.Contents())| < HEADER + |r.bytes| <= ring.data.Length
      ensures out == SendBroken ==> me.shutWrite || peer.shutRead || peer.disconnecting
      ensures out == TooLong ==> HEADER + |r.bytes| > ring.data.Length
    {
      hide Window, Stream, Frame;
      if |r.bytes| > BUF_MAX - HEADER { return TooLong; }
      if me.shutWrite { return SendBroken; }
      if !me.connected || !me.hasPeer { return NotConnected; }
      var needed := HEADER + |r.bytes|;
      if needed > ring.data.Length { return TooLong; }
      if ring.data.Length - ring.size < needed {
        if peer.shutRead || peer.disconnecting { return SendBroken; }
        if nonblock { return SendAgain; }
        if signal { return SendInterrupted; }
        return SendBlocks;
      }
      PutRecord(r);
      StreamAppend(queue, r);
      queue := queue + [r];
      sent := sent + [r];
      return Sent(|r.bytes|);
    }

    /** Header and bytes, written while the lock is held. */
    method PutRecord(r: Record)
      requires ring.Valid() && Fits(r) && HEADER + |r.bytes| <= ring.data.Length - ring.size
      modifies ring, ring.data
      ensures ring.Valid() && ring.Contents() == old(ring.Contents()) + Frame(r)
    {
      hide Window, PutHeader;
      var header := PutHeader(|r.bytes|, r.cred);
      var n := ring.Write(header);
      assert header[..HEADER] == header;
      ghost var middle := ring.Contents();
      if |r.bytes| > 0 {
        n := ring.Write(r.bytes);
        assert r.bytes[..|r.bytes|] == r.bytes;
      } else {
        assert header + r.bytes == header;
      }
      assert old(ring.Contents()) + (header + r.bytes) == old(ring.Contents()) + header + r.bytes;
    }

    /** One round of unix_seqpacket_recv: the oldest record, cut to the caller's buffer. */
    method Recv(want: nat, peek: bool, me: Link, nonblock: bool, signal: bool) returns (out: RecvResult)
      requires Valid()
      modifies this`queue, this`received, ring
      ensures Valid() && sent == old(sent) && out != Corrupt
      ensures out.Got? <==> old(queue) != []
      ensures out == End <==> old(queue) == [] && (me.shutRead || me.disconnecting || !me.hasPeer)
      ensures out == RecvBlocks <==>
                old(queue) == [] && !me.shutRead && !me.disconnecting && me.hasPeer && me.connected && !nonblock
                    && !signal
      ensures out.Got? ==>
                var r := old(queue)[0];
                && out.bytes == (if want < |r.bytes| then r.bytes[..want] else r.bytes)
                && out.length == |r.bytes| && out.cred == r.cred && (out.truncated <==> want < |r.bytes|)
      ensures out.Got? && !peek ==> queue == old(queue)[1..] && received == old(received) + [old(queue)[0]]
      ensures !out.Got? || peek ==> queue == old(queue) && received == old(received)
    {
      hide Window, Stream, GetLength, GetCred;
      var available := ring.size;
      if available >= HEADER {
        var header := ring.PeekAt(0, HEADER);
        StreamNotEmpty(queue, available);
        FirstFrame(queue);
        assert header == Stream(queue)[..HEADER];
        var length := GetLength(header);
        if length > ring.data.Length - HEADER { return Corrupt; }
        if available >= HEADER + length {
          out := Deliver(want, peek, header, length);
          return;
        }
      }
      EmptyStream(queue, available);
      if me.shutRead || me.disconnecting || !me.hasPeer { return End; }
      if !me.connected { return RecvNotConnected; }
      if nonblock { return RecvAgain; }
      if signal { return RecvInterrupted; }
      return RecvBlocks;
    }

    method Deliver(want: nat, peek: bool, header: seq<Byte>, length: nat) returns (out: RecvResult)
      requires Valid() && queue != [] && |header| == HEADER && length == |queue[0].bytes|
      requires ring.size >= HEADER + length && GetCred(header) == queue[0].cred
      modifies this`queue, this`received, ring
      ensures Valid() && sent == old(sent)
      ensures out
          == Got(if want < length then old(queue)[0].bytes[..want] else old(queue)[0].bytes, want < length, length,
                 old(queue)[0].cred)
      ensures !peek ==> queue == old(queue)[1..] && received == old(received) + [old(queue)[0]]
      ensures peek ==> queue == old(queue) && received == old(received)
    {
      hide Window, Stream, GetLength, GetCred;
      FirstFrame(queue);
      var copied := if want < length then want else length;
      var bytes := ring.PeekAt(HEADER, copied);
      assert bytes == Stream(queue)[HEADER..HEADER + length][..copied];
      assert queue[0].bytes[..length] == queue[0].bytes;
      if !peek {
        ring.Discard(HEADER + length);
        received := received + [queue[0]];
        queue := queue[1..];
      }
      return Got(bytes, copied < length, length, GetCred(header));
    }
  }

  lemma StreamNotEmpty(q: seq<Record>, n: nat)
    requires (forall r :: r in q ==> Fits(r)) && n == |Stream(q)| && n > 0
    ensures q != []
  {}

  lemma EmptyStream(q: seq<Record>, n: nat)
    requires (forall r :: r in q ==> Fits(r)) && n == |Stream(q)|
    ensures n == 0 <==> q == []
    ensures n > 0 ==> n >= HEADER + |q[0].bytes|
  {}
}
