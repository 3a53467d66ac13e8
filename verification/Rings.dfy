/** Byte rings: a window of n bytes that starts at some index of a buffer and may wrap. */
module Rings {
  import opened Basics

  /** An index moved on by n places, as both rings compute it: at most one wrap. */
  function Step(i: nat, n: nat, capacity: nat): (r: nat)
    requires i < capacity && n <= capacity
    ensures r < capacity
  {
    if i + n < capacity then i + n else i + n - capacity
  }

  /** The n bytes of the buffer from an index on. */
  function Window(s: seq<Byte>, from: nat, n: nat): (w: seq<Byte>)
    requires from < |s| && n <= |s|
    ensures |w| == n
  {
    if from + n <= |s| then s[from..from + n] else s[from..] + s[..from + n - |s|]
  }

  lemma WindowAt(s: seq<Byte>, from: nat, n: nat, i: nat)
    requires from < |s| && i < n <= |s|
    ensures Window(s, from, n)[i] == s[Step(from, i, |s|)]
  {}

  lemma WindowSplit(s: seq<Byte>, from: nat, n: nat, k: nat)
    requires from < |s| && k <= n <= |s|
    ensures Window(s, from, n) == Window(s, from, k) + Window(s, Step(from, k, |s|), n - k)
  {
    hide Window;
    forall i | 0 <= i < n
        ensures Window(s, from, n)[i] == (Window(s, from, k) + Window(s, Step(from, k, |s|), n - k))[i] {
      WindowAt(s, from, n, i);
      if i < k { WindowAt(s, from, k, i); } else { WindowAt(s, Step(from, k, |s|), n - k, i - k); }
    }
  }

  /** Bytes stored right behind a window extend the window by them. */
  lemma PatchExtends(s: seq<Byte>, from: nat, n: nat, bytes: seq<Byte>)
    requires from < |s| && n + |bytes| <= |s|
    requires bytes != [] && Step(from, n, |s|) + |bytes| <= |s|
    ensures Window(Patch(s, Step(from, n, |s|), bytes), from, n + |bytes|) == Window(s, from, n) + bytes
  {
    hide Window, Patch;
    var at := Step(from, n, |s|);
    var r := Patch(s, at, bytes);
    var w := Window(r, from, n + |bytes|);
    forall i | 0 <= i < n + |bytes| ensures w[i] == (Window(s, from, n) + bytes)[i] {
      WindowAt(r, from, n + |bytes|, i);
      if i < n {
        WindowAt(s, from, n, i);
        assert !(at <= Step(from, i, |s|) < at + |bytes|);
      } else {
        assert Step(from, i, |s|) == at + (i - n);
      }
    }
  }

  /** Bytes stored from an index on, the rest of them at the start of the buffer. */
  function Put(s: seq<Byte>, at: nat, bytes: seq<Byte>): (r: seq<Byte>)
    requires at < |s| && |bytes| <= |s|
    ensures |r| == |s|
  {
    if at + |bytes| <= |s| then Patch(s, at, bytes) else Patch(Patch(s, at, bytes[..|s| - at]), 0, bytes[|s| - at..])
  }

  lemma PutExtends(s: seq<Byte>, from: nat, n: nat, bytes: seq<Byte>)
    requires from < |s| && n + |bytes| <= |s| && bytes != []
    ensures Window(Put(s, Step(from, n, |s|), bytes), from, n + |bytes|) == Window(s, from, n) + bytes
  {
    hide Window, Patch;
    if Step(from, n, |s|) + |bytes| <= |s| {
      PatchExtends(s, from, n, bytes);
    } else {
      WrappedExtends(s, from, n, bytes);
    }
  }

  /** The bytes up to the end of the buffer extend the window, and then those at its start do. */
  lemma WrappedExtends(s: seq<Byte>, from: nat, n: nat, bytes: seq<Byte>)
    requires from < |s| && n + |bytes| <= |s| && Step(from, n, |s|) + |bytes| > |s|
    ensures Window(Put(s, Step(from, n, |s|), bytes), from, n + |bytes|) == Window(s, from, n) + bytes
  {
    hide Window, Patch;
    var at := Step(from, n, |s|);
    var k := |s| - at;
    var mid := Patch(s, at, bytes[..k]);
    assert Step(from, n + k, |s|) == 0;
    PatchExtends(s, from, n, bytes[..k]);
    PatchExtends(mid, from, n + k, bytes[k..]);
    assert bytes[..k] + bytes[k..] == bytes;
    assert Window(s, from, n) + bytes[..k] + bytes[k..] == Window(s, from, n) + (bytes[..k] + bytes[k..]);
  }

  /** memcpy into a buffer */
  method Copy(a: array<Byte>, at: nat, bytes: seq<Byte>)
    requires at + |bytes| <= a.Length
    modifies a
    ensures a[..] == Patch(old(a[..]), at, bytes)
  {
    for i := 0 to |bytes|
      invariant forall j :: 0 <= j < a.Length ==> a[j] == if at <= j < at + i then bytes[j - at] else old(a[j])
    {
      a[at + i] := bytes[i];
    }
  }

  // ---- Masking ----

  /** The low m bits of a number: what masking with 2^m - 1 leaves. */
  function LowBits(x: nat, m: nat): nat { if m == 0 then 0 else x % 2 + 2 * LowBits(x / 2, m - 1) }

  lemma {:induction false} LowBitsOfSum(x: nat, q: nat, m: nat)
    requires x < Pow2(m)
    ensures LowBits(x + q * Pow2(m), m) == x
  {
    if m > 0 {
      var p := Pow2(m - 1);
      assert x + q * Pow2(m) == x % 2 + 2 * (x / 2 + q * p);
      assert (x + q * Pow2(m)) / 2 == x / 2 + q * p;
      LowBitsOfSum(x / 2, q, m - 1);
    }
  }

  /** On a buffer of 2^m bytes the mask does what the subtraction does. */
  lemma MaskedStep(i: nat, n: nat, m: nat)
    requires i < Pow2(m) && n <= Pow2(m)
    ensures LowBits(i + n, m) == Step(i, n, Pow2(m))
  {
    LowBitsOfSum(Step(i, n, Pow2(m)), if i + n < Pow2(m) then 0 else 1, m);
  }
}
