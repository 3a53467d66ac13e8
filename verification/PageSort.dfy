/** The heapsort that puts dirty pages in file order before they are written back. */
module PageSort {

  predicate IsChild(i: nat, c: nat) { c == 2 * i + 1 || c == 2 * i + 2 }

  /** From position lo on, no entry is smaller than its children, except perhaps at the hole. */
  ghost predicate Heap(s: seq<nat>, lo: nat, count: nat, hole: int)
    requires count <= |s|
  {
    forall i: nat, c: nat {:trigger IsChild(i, c)} :: lo <= i && i != hole && IsChild(i, c) && c < count ==>
        s[c] <= s[i]
  }

  /** The parent of the hole bounds the children of the hole. */
  ghost predicate Bridged(s: seq<nat>, lo: nat, count: nat, hole: nat)
    requires count <= |s|
  {
    forall i: nat, c: nat {:trigger IsChild(i, hole), IsChild(hole, c)} ::
      lo <= i && IsChild(i, hole) && IsChild(hole, c) && c < count ==> s[c] <= s[i]
  }

  /** pc_sort_sift_down */
  method SiftDown(a: array<nat>, root: nat, count: nat)
    requires root < count <= a.Length && Heap(a[..], root + 1, count, -1)
    modifies a
    ensures Heap(a[..], root, count, -1)
    ensures a[count..] == old(a[count..]) && a[..root] == old(a[..root])
    ensures multiset(a[..]) == multiset(old(a[..]))
  {
    var hole := root;
    while true
      invariant root <= hole < count
      invariant Heap(a[..], root, count, hole) && Bridged(a[..], root, count, hole)
      invariant a[count..] == old(a[count..]) && a[..root] == old(a[..root])
      invariant multiset(a[..]) == multiset(old(a[..]))
      decreases count - hole
    {
      var child := 2 * hole + 1;
      if child >= count { SettledLeaf(a[..], root, count, hole); return; }
      if child + 1 < count && a[child] < a[child + 1] { child := child + 1; }
      assert IsChild(hole, child);
      if a[hole] >= a[child] { Settled(a[..], root, count, hole, child); return; }
      ghost var before := a[..];
      a[hole], a[child] := a[child], a[hole];
      assert a[..] == before[hole := before[child]][child := before[hole]];
      Sunk(before, a[..], root, count, hole, child);
      hole := child;
    }
  }

  lemma SettledLeaf(s: seq<nat>, lo: nat, count: nat, hole: nat)
    requires count <= |s| && Heap(s, lo, count, hole) && 2 * hole + 1 >= count
    ensures Heap(s, lo, count, -1)
  {}

  ghost predicate Largest(s: seq<nat>, count: nat, hole: nat, child: nat)
    requires count <= |s|
  {
    child < count && IsChild(hole, child) && forall c: nat {:trigger IsChild(hole, c)} ::
        IsChild(hole, c) && c < count ==> s[c] <= s[child]
  }

  lemma Settled(s: seq<nat>, lo: nat, count: nat, hole: nat, child: nat)
    requires hole < count <= |s| && Heap(s, lo, count, hole) && Largest(s, count, hole, child) && s[hole] >= s[child]
    ensures Heap(s, lo, count, -1)
  {}

  /** After the swap only the child can be out of place. */
  lemma Sunk(s: seq<nat>, t: seq<nat>, lo: nat, count: nat, hole: nat, child: nat)
    requires hole < count <= |s| && lo <= hole && Heap(s, lo, count, hole) && Bridged(s, lo, count, hole)
    requires Largest(s, count, hole, child) && s[hole] < s[child] && t == s[hole := s[child]][child := s[hole]]
    ensures Heap(t, lo, count, child) && Bridged(t, lo, count, child)
  {
    forall i: nat, c: nat | lo <= i && i != child && IsChild(i, c) && c < count ensures t[c] <= t[i] {
      if i == hole {
        assert s[c] <= s[child];
      } else if c == hole {
        assert IsChild(i, hole) && IsChild(hole, child);
      } else {
        assert c != child;
      }
    }
    forall i: nat, c: nat | lo <= i && IsChild(i, child) && IsChild(child, c) && c < count ensures t[c] <= t[i] {
      assert i == hole && c != hole && c != child;
    }
  }

  /** The first entry of a heap is its largest. */
  lemma {:induction false} TopIsLargest(s: seq<nat>, count: nat, k: nat)
    requires k < count <= |s| && Heap(s, 0, count, -1)
    ensures s[k] <= s[0]
  {
    if k > 0 {
      var parent := (k - 1) / 2;
      assert IsChild(parent, k);
      TopIsLargest(s, count, parent);
    }
  }

  ghost predicate Sorted(s: seq<nat>, from: nat) {
    forall i, j :: from <= i < j < |s| ==> s[i] <= s[j]
  }

  /** Everything before end is at most everything from end on. */
  ghost predicate Split(s: seq<nat>, end: nat) {
    forall i, j :: 0 <= i < end <= j < |s| ==> s[i] <= s[j]
  }

  /** pc_sort_pages */
  method Sort(a: array<nat>)
    modifies a
    ensures Sorted(a[..], 0)
    ensures multiset(a[..]) == multiset(old(a[..]))
  {
    var n := a.Length;
    var root: nat := n / 2;
    while root > 0
      invariant root <= n / 2 && Heap(a[..], root, n, -1)
      invariant multiset(a[..]) == multiset(old(a[..]))
    {
      SiftDown(a, root - 1, n);
      root := root - 1;
    }
    var end: nat := n;
    while end > 1
      invariant end <= n && Heap(a[..], 0, end, -1) && Sorted(a[..], end) && Split(a[..], end)
      invariant multiset(a[..]) == multiset(old(a[..]))
    {
      Extract(a, end);
      end := end - 1;
    }
  }

  /** Move the largest entry behind the heap and repair the heap. */
  method Extract(a: array<nat>, end: nat)
    requires 1 < end <= a.Length && Heap(a[..], 0, end, -1) && Sorted(a[..], end) && Split(a[..], end)
    modifies a
    ensures Heap(a[..], 0, end - 1, -1) && Sorted(a[..], end - 1) && Split(a[..], end - 1)
    ensures multiset(a[..]) == multiset(old(a[..]))
  {
    ghost var before := a[..];
    a[0], a[end - 1] := a[end - 1], a[0];
    ghost var swapped := a[..];
    assert swapped == before[0 := before[end - 1]][end - 1 := before[0]];
    Swapped(before, swapped, end);
    SiftDown(a, 0, end - 1);
    SplitKept(swapped, a[..], end - 1);
  }

  lemma Swapped(s: seq<nat>, t: seq<nat>, end: nat)
    requires 1 < end <= |s| && Heap(s, 0, end, -1) && Sorted(s, end) && Split(s, end)
    requires t == s[0 := s[end - 1]][end - 1 := s[0]]
    ensures Heap(t, 1, end - 1, -1) && Sorted(t, end - 1) && Split(t, end - 1)
  {
    forall k | 0 <= k < end ensures s[k] <= s[0] { TopIsLargest(s, end, k); }
  }

  /** A rearrangement that keeps the end rearranges what comes before it. */
  lemma FrontPermuted(s: seq<nat>, t: seq<nat>, end: nat)
    requires end <= |s| == |t| && s[end..] == t[end..] && multiset(s) == multiset(t)
    ensures multiset(s[..end]) == multiset(t[..end])
  {
    var back := multiset(s[end..]);
    assert s[..end] + s[end..] == s && t[..end] + t[end..] == t;
    assert multiset(s[..end]) + back == multiset(t[..end]) + back;
    assert multiset(s[..end]) == multiset(s[..end]) + back - back;
  }

  /** Rearranging the part before end keeps the split. */
  lemma SplitKept(s: seq<nat>, t: seq<nat>, end: nat)
    requires end <= |s| == |t| && s[end..] == t[end..] && multiset(s) == multiset(t) && Split(s, end) && Sorted(s, end)
    ensures Split(t, end) && Sorted(t, end)
  {
    FrontPermuted(s, t, end);
    assert forall j :: end <= j < |t| ==> t[j] == t[end..][j - end] == s[end..][j - end] == s[j];
    forall i, j | 0 <= i < end <= j < |t| ensures t[i] <= t[j] {
      assert t[..end][i] in multiset(t[..end]);
      var k :| 0 <= k < end && s[..end][k] == t[i];
    }
  }
}
