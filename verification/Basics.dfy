/** Definitions shared by the models. */
module Basics {

  datatype Option<+T> = None | Some(value: T)

  type Byte = x: int | 0 <= x < 256

  function Min(a: nat, b: nat): nat { if a < b then a else b }

  function Max(a: nat, b: nat): nat { if a < b then b else a }

  function Pow2(m: nat): (r: nat)
    ensures r > 0
  {
    if m == 0 then 1 else 2 * Pow2(m - 1)
  }

  lemma {:induction false} Pow2Grows(a: nat, b: nat)
    requires a < b
    ensures Pow2(a) < Pow2(b)
  {
    if a + 1 < b { Pow2Grows(a, b - 1); }
  }

  /** Bytes put over part of a buffer. */
  function Patch(s: seq<Byte>, at: nat, bytes: seq<Byte>): (r: seq<Byte>)
    requires at + |bytes| <= |s|
    ensures |r| == |s|
    ensures forall i {:trigger r[i]} :: 0 <= i < |r| ==> r[i] == if at <= i < at + |bytes| then bytes[i - at] else s[i]
  {
    s[..at] + bytes + s[at + |bytes|..]
  }

  /** Sets that agree but for one element. */
  lemma OneDiffers(a: set<nat>, b: set<nat>, x: nat)
    requires a - {x} == b - {x}
    ensures |b| == |a| - (if x in a then 1 else 0) + (if x in b then 1 else 0)
  {
    assert x !in a ==> a - {x} == a;
    assert x !in b ==> b - {x} == b;
  }

  /** The list has exactly the elements of s, each once. */
  ghost predicate Lists<T(!new)>(list: seq<T>, s: set<T>) {
    && (forall x :: x in s <==> x in list)
    && (forall i, j :: 0 <= i < j < |list| ==> list[i] != list[j])
  }

  lemma ListsMore<T(!new)>(list: seq<T>, s: set<T>, k: T)
    requires Lists(list, s) && k !in s
    ensures Lists(list + [k], s + {k})
  {
    forall x ensures x in s + {k} <==> x in list + [k] { assert x in list + [k] <==> x in list || x == k; }
  }

  lemma ListsNext<T(!new)>(list: seq<T>, s: set<T>)
    requires Lists(list, s) && list != []
    ensures list[0] in s && Lists(list[1..], s - {list[0]})
  {
    assert list == [list[0]] + list[1..];
    forall x ensures x in s - {list[0]} <==> x in list[1..] { assert x in list <==> x == list[0] || x in list[1..]; }
  }

  lemma ListsPush<T(!new)>(list: seq<T>, s: set<T>, k: T)
    requires Lists(list, s)
    ensures k !in s ==> Lists([k] + list, s + {k})
  {
    forall x ensures x in s + {k} <==> x in [k] + list { assert x in [k] + list <==> x == k || x in list; }
  }

  /** A list without one of its elements. */
  function Without<T(==)>(list: seq<T>, x: T): seq<T> {
    if list == [] then [] else (if list[0] == x then [] else [list[0]]) + Without(list[1..], x)
  }

  lemma {:induction false} InWithout<T>(list: seq<T>, x: T, y: T)
    ensures y in Without(list, x) <==> y in list && y != x
  {
    if list != [] {
      InWithout(list[1..], x, y);
      assert list == [list[0]] + list[1..];
    }
  }

  lemma {:induction false} WithoutShorter<T>(list: seq<T>, x: T)
    ensures |Without(list, x)| <= |list|
  {
    if list != [] { WithoutShorter(list[1..], x); }
  }

  lemma {:induction false} ListsWithout<T(!new)>(list: seq<T>, s: set<T>, x: T)
    requires Lists(list, s)
    ensures Lists(Without(list, x), s - {x})
  {
    forall y ensures y in s - {x} <==> y in Without(list, x) { InWithout(list, x, y); }
    WithoutDistinct(list, x);
  }

  lemma {:induction false} WithoutDistinct<T(!new)>(list: seq<T>, x: T)
    requires forall i, j :: 0 <= i < j < |list| ==> list[i] != list[j]
    ensures forall i, j :: 0 <= i < j < |Without(list, x)| ==> Without(list, x)[i] != Without(list, x)[j]
  {
    if list != [] {
      WithoutDistinct(list[1..], x);
      InWithout(list[1..], x, list[0]);
    }
  }

  lemma ListsNone<T(!new)>(s: set<T>)
    ensures Lists([], s) <==> s == {}
  {
    if Lists([], s) { forall x ensures x !in s { assert x in s <==> x in []; } }
  }

  /** An element does not occur before its place. */
  lemma ListsOnce<T(!new)>(list: seq<T>, s: set<T>, i: nat)
    requires Lists(list, s) && i < |list|
    ensures list[i] !in list[..i]
  {}

  lemma ListsPermuted<T(!new)>(list: seq<T>, sorted: seq<T>, s: set<T>)
    requires Lists(list, s) && multiset(sorted) == multiset(list)
    ensures Lists(sorted, s)
  {
    forall x ensures x in s <==> x in sorted {
      assert x in list <==> x in multiset(list);
      assert x in sorted <==> x in multiset(sorted);
    }
    forall i, j | 0 <= i < j < |sorted| ensures sorted[i] != sorted[j] {
      OnceOnly(list, sorted[i]);
      NotTwice(sorted, i, j);
    }
  }

  lemma NotTwice<T(!new)>(s: seq<T>, i: nat, j: nat)
    requires i < j < |s| && multiset(s)[s[i]] <= 1
    ensures s[i] != s[j]
  {
    assert s == s[..j] + s[j..];
    assert s[..j][i] in multiset(s[..j]) && s[j..][0] in multiset(s[j..]);
  }

  lemma {:induction false} OnceOnly<T(!new)>(list: seq<T>, x: T)
    requires forall i, j :: 0 <= i < j < |list| ==> list[i] != list[j]
    ensures multiset(list)[x] <= 1
  {
    if list != [] {
      var n := |list| - 1;
      OnceOnly(list[..n], x);
      assert list == list[..n] + [list[n]];
      if list[n] == x {
        assert x !in list[..n];
        assert x !in multiset(list[..n]);
      }
    }
  }
}
