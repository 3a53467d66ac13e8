/** buddy_validate finds nothing to complain about in any state the allocator can reach. */
module BuddyValidate {
  import opened Basics
  import opened BuddyMath
  import opened BuddyPages
  import opened BuddyBlocks
  import opened Buddy

  // ---- Counting heads ----

  function Elems(l: seq<nat>): set<int> { set x: int | x in l }

  lemma {:induction false} DistinctSize(l: seq<nat>)
    requires Distinct(l)
    ensures |Elems(l)| == |l|
  {
    if l == [] {
      assert Elems(l) == {};
    } else {
      var k := |l| - 1;
      DistinctSize(l[..k]);
      assert l == l[..k] + [l[k]];
      assert Elems(l) == Elems(l[..k]) + {l[k]};
      assert l[k] !in Elems(l[..k]);
    }
  }

  lemma ElemIsNode(pages: seq<Page>, head: int, l: seq<nat>, o: nat, x: int)
    requires Linked(pages, head, l, o) && x in Elems(l)
    ensures 0 <= x < |pages| && FreeBlock(pages, x, o)
  {
    var i :| 0 <= i < |l| && l[i] == x;
    assert Node(pages, l, i, o);
  }

  /** A list of distinct page numbers is no longer than the page array. */
  lemma ListFits(pages: seq<Page>, head: int, l: seq<nat>, o: nat)
    requires Linked(pages, head, l, o)
    ensures |l| <= |pages|
  {
    DistinctSize(l);
    RangeSize(0, |pages|, Range(0, |pages|));
    forall x | x in Elems(l) ensures x in Range(0, |pages|) {
      ElemIsNode(pages, head, l, o, x);
      assert InRange(x, 0, |pages|);
    }
    SubsetSize(Elems(l), Range(0, |pages|));
  }

  lemma SubsetSize<T>(a: set<T>, b: set<T>)
    requires a <= b
    ensures |a| <= |b|
  {
    assert b == a + (b - a);
  }

  ghost function HeadCount(lists: seq<seq<nat>>): nat {
    if lists == [] then 0 else HeadCount(lists[..|lists| - 1]) + |lists[|lists| - 1]|
  }

  /** The free heads of orders below n, among the first `bound` pages. */
  ghost function Heads(pages: seq<Page>, bound: nat, n: nat): set<int>
    requires bound <= |pages|
  {
    set p | 0 <= p < bound && pages[p].state == FreeHead && pages[p].order < n
  }

  lemma {:induction false} HeadsCounted(pages: seq<Page>, heads: seq<int>, lists: seq<seq<nat>>, n: nat)
    requires ListsOk(pages, heads, lists) && n <= |lists|
    ensures |Heads(pages, |pages|, n)| == HeadCount(lists[..n])
  {
    if n == 0 {
      assert Heads(pages, |pages|, 0) == {};
    } else {
      HeadsCounted(pages, heads, lists, n - 1);
      assert lists[..n][..n - 1] == lists[..n - 1];
      var l := lists[n - 1];
      assert Linked(pages, heads[n - 1], l, n - 1);
      DistinctSize(l);
      var before, after := Heads(pages, |pages|, n - 1), Heads(pages, |pages|, n);
      forall p ensures p in after <==> p in before + Elems(l) {
        if p in after { assert Listed(pages, lists, p); }
        if p in Elems(l) { ElemIsNode(pages, heads[n - 1], l, n - 1, p); }
      }
      assert before !! Elems(l) by {
        forall p | p in Elems(l) ensures p !in before { ElemIsNode(pages, heads[n - 1], l, n - 1, p); }
      }
      assert after == before + Elems(l);
    }
  }

  // ---- Walking the lists ----

  /** After i steps from the head the walk stands here. */
  function At(l: seq<nat>, i: nat): int
    requires i <= |l|
  {
    if i == |l| then NONE else l[i]
  }

  function Before(l: seq<nat>, i: nat): int
    requires i <= |l|
  {
    if i == 0 then NONE else l[i - 1]
  }

  /** node_in_list */
  method NodeInList(a: Allocator, wanted: nat, order: nat) returns (found: bool)
    requires a.Valid() && order <= a.maxOrder
    ensures found <==> wanted in a.lists[order]
  {
    ghost var l := a.lists[order];
    assert Linked(a.pages[..], a.freeHead[..][order], l, order);
    ListFits(a.pages[..], a.freeHead[..][order], l, order);
    var node, guard := a.freeHead[order], 0;
    while node != NONE && guard <= a.pages.Length
      invariant guard <= |l| && node == At(l, guard)
      invariant wanted !in l[..guard]
      decreases a.pages.Length + 1 - guard
    {
      assert Node(a.pages[..], l, guard, order);
      guard := guard + 1;
      if node == wanted { return true; }
      if node < 0 || node >= a.pages.Length { return false; }
      node := a.pages[node].next;
      assert l[..guard] == l[..guard - 1] + [l[guard - 1]];
    }
    assert l[..guard] == l;
    return false;
  }

  /** The inner loop of buddy_validate: one free list. */
  method ValidateList(a: Allocator, order: nat) returns (status: Status, count: nat)
    requires a.Valid() && order <= a.maxOrder
    ensures status == Ok && count == |a.lists[order]|
  {
    ghost var l := a.lists[order];
    assert Linked(a.pages[..], a.freeHead[..][order], l, order);
    ListFits(a.pages[..], a.freeHead[..][order], l, order);
    var node, previous := a.freeHead[order], NONE;
    count := 0;
    while node != NONE
      invariant count <= |l| && node == At(l, count) && previous == Before(l, count)
      decreases |l| - count
    {
      assert Node(a.pages[..], l, count, order);
      if node < 0 || node >= a.pages.Length || count > a.pages.Length { return Fault, count; }
      count := count + 1;
      var index: nat, units := node, Pow2(order);
      assert FreeOk(a.pages[..], a.maxOrder, index);
      var page := a.pages[index];
      if page.state != FreeHead || page.order != order || page.prev != previous { return Fault, count; }
      if !Aligned(index, order) || units > a.pages.Length - index { return Fault, count; }
      for i := 1 to units
      {
        if a.pages[index + i].state == FreeHead { return Fault, count; }
      }
      if order < a.maxOrder {
        var buddy := BuddyOf(index, order);
        if buddy < a.pages.Length && a.pages[buddy].state == FreeHead && a.pages[buddy].order == order {
          return Fault, count;
        }
      }
      previous := node;
      node := page.next;
    }
    status := Ok;
  }

  /** buddy_validate */
  method Validate(a: Allocator) returns (status: Status)
    requires a.Valid()
    ensures status == Ok
  {
    var totalFree, totalHeads := 0, 0;
    for order := 0 to a.maxOrder + 1
      invariant totalFree == Total(a.lists[..order]) && totalHeads == HeadCount(a.lists[..order])
    {
      var s, count := ValidateList(a, order);
      if s != Ok { return s; }
      if count != a.freeCount[order] { return Fault; }
      totalHeads := totalHeads + count;
      totalFree := totalFree + count * Pow2(order);
      assert a.lists[..order + 1][..order] == a.lists[..order];
    }
    assert a.lists[..a.maxOrder + 1] == a.lists;
    if totalFree != a.freePages { return Fault; }
    HeadsCounted(a.pages[..], a.freeHead[..], a.lists, a.maxOrder + 1);
    var observed := CountHeads(a);
    if observed < 0 { return Fault; }
    return if observed == totalHeads then Ok else Fault;
  }

  /** The last loop of buddy_validate: every free head is listed; counts them, or -1. */
  method CountHeads(a: Allocator) returns (observed: int)
    requires a.Valid()
    ensures observed == |Heads(a.pages[..], a.pages.Length, a.maxOrder + 1)|
  {
    observed := 0;
    for i := 0 to a.pages.Length
      invariant observed == |Heads(a.pages[..], i, a.maxOrder + 1)|
    {
      ghost var was, now := Heads(a.pages[..], i, a.maxOrder + 1), Heads(a.pages[..], i + 1, a.maxOrder + 1);
      if a.pages[i].state == FreeHead {
        assert Listed(a.pages[..], a.lists, i);
        var order := a.pages[i].order;
        if order > a.maxOrder { return -1; }
        var found := NodeInList(a, i, order);
        if !found { return -1; }
        observed := observed + 1;
        assert now == was + {i};
      } else {
        assert now == was;
      }
    }
  }
}
