/**
 The page metadata of the buddy allocator: intrusive doubly linked free lists, free and
 allocated blocks, and why maximal coalescing makes allocation complete.
 */
module BuddyPages {
  const NONE: int := -1

  datatype PageState = Reserved | FreeHead | AllocHead | AllocTail

  datatype Page = Page(next: int, prev: int, tag: nat, order: nat, state: PageState)

  // ---- Free lists ----

  /** The i-th element of the list l of order o is a free head linked to its neighbours. */
  ghost predicate Node(pages: seq<Page>, l: seq<nat>, i: nat, o: nat)
    requires i < |l|
  {
    && l[i] < |pages|
    && pages[l[i]].state == FreeHead
    && pages[l[i]].order == o
    && pages[l[i]].prev == (if i == 0 then NONE else l[i - 1])
    && pages[l[i]].next == (if i == |l| - 1 then NONE else l[i + 1])
  }

  ghost predicate Distinct(l: seq<nat>) {
    forall i, j :: 0 <= i < j < |l| ==> l[i] != l[j]
  }

  /** The list of order o starts at head and runs through the pages of l in this order. */
  ghost predicate Linked(pages: seq<Page>, head: int, l: seq<nat>, o: nat) {
    && head == (if l == [] then NONE else l[0])
    && (forall i :: 0 <= i < |l| ==> Node(pages, l, i, o))
    && Distinct(l)
  }

  /** A free head is on the list of its order. */
  ghost predicate Listed(pages: seq<Page>, lists: seq<seq<nat>>, p: nat)
    requires p < |pages|
  {
    pages[p].order < |lists| && p in lists[pages[p].order]
  }

  /** Moving blocks between lists leaves the tags of all pages alone. */
  ghost predicate SameTags(p: seq<Page>, q: seq<Page>) {
    |q| == |p| && forall k {:trigger q[k]} :: 0 <= k < |p| ==> q[k].tag == p[k].tag
  }

  lemma SameTagsTransitive(p: seq<Page>, q: seq<Page>, r: seq<Page>)
    requires SameTags(p, q) && SameTags(q, r)
    ensures SameTags(p, r)
  {
    forall k | 0 <= k < |p| ensures r[k].tag == p[k].tag { assert q[k].tag == p[k].tag; }
  }

  /** The free lists hold exactly the free block heads, each once, on the list of its order. */
  ghost predicate ListsOk(pages: seq<Page>, heads: seq<int>, lists: seq<seq<nat>>) {
    && |heads| == |lists|
    && (forall o {:trigger Linked(pages, heads[o], lists[o], o)} ::
          0 <= o < |lists| ==> Linked(pages, heads[o], lists[o], o))
    && (forall p {:trigger Listed(pages, lists, p)} ::
          0 <= p < |pages| && pages[p].state == FreeHead ==> Listed(pages, lists, p))
  }

  function AddPages(pages: seq<Page>, head: int, index: nat, order: nat): (r: seq<Page>)
    requires index < |pages| && -1 <= head < |pages|
    ensures |r| == |pages|
  {
    var p1 := pages[index := pages[index].(prev := NONE, next := head, order := order, state := FreeHead)];
    if head != NONE then p1[head := p1[head].(prev := index)] else p1
  }

  function RemovePages(pages: seq<Page>, index: nat): (r: seq<Page>)
    requires index < |pages| && -1 <= pages[index].prev < |pages| && -1 <= pages[index].next < |pages|
    ensures |r| == |pages|
  {
    var page := pages[index];
    var p1 := if page.prev == NONE then pages else pages[page.prev := pages[page.prev].(next := page.next)];
    var p2 := if page.next == NONE then p1 else p1[page.next := p1[page.next].(prev := page.prev)];
    p2[index := p2[index].(next := NONE, prev := NONE, state := Reserved)]
  }

  /** Pages outside a list may change without disturbing it. */
  lemma LinkedElsewhere(pages: seq<Page>, pages': seq<Page>, head: int, l: seq<nat>, o: nat)
    requires Linked(pages, head, l, o)
    requires |pages'| == |pages| && forall p ::
        0 <= p < |pages| && pages[p].state == FreeHead && pages[p].order == o ==> pages'[p] == pages[p]
    ensures Linked(pages', head, l, o)
  {
    forall i | 0 <= i < |l| ensures Node(pages', l, i, o) { assert Node(pages, l, i, o); }
  }

  lemma AddLinkedHere(pages: seq<Page>, head: int, l: seq<nat>, index: nat, order: nat)
    requires Linked(pages, head, l, order)
    requires index < |pages| && pages[index].state != FreeHead
    ensures -1 <= head < |pages|
    ensures Linked(AddPages(pages, head, index, order), index, [index] + l, order)
  {
    assert l != [] ==> Node(pages, l, 0, order);
    var pages', l' := AddPages(pages, head, index, order), [index] + l;
    forall i | 0 <= i < |l'| ensures Node(pages', l', i, order) {
      if i > 0 { assert Node(pages, l, i - 1, order); }
    }
    forall i, j | 0 <= i < j < |l'| ensures l'[i] != l'[j] {
      assert Node(pages, l, j - 1, order);
    }
  }

  lemma AddLinked(pages: seq<Page>, heads: seq<int>, lists: seq<seq<nat>>, index: nat, order: nat)
    requires ListsOk(pages, heads, lists)
    requires index < |pages| && order < |lists| && pages[index].state != FreeHead
    ensures -1 <= heads[order] < |pages|
    ensures ListsOk(AddPages(pages, heads[order], index, order), heads[order := index],
                    lists[order := [index] + lists[order]])
  {
    assert Linked(pages, heads[order], lists[order], order);
    AddLinkedHere(pages, heads[order], lists[order], index, order);
    assert lists[order] != [] ==> Node(pages, lists[order], 0, order);
    var pages' := AddPages(pages, heads[order], index, order);
    var lists' := lists[order := [index] + lists[order]];
    forall o | 0 <= o < |lists| ensures Linked(pages', heads[order := index][o], lists'[o], o) {
      assert Linked(pages, heads[o], lists[o], o);
      if o != order { LinkedElsewhere(pages, pages', heads[o], lists[o], o); }
    }
    forall p | 0 <= p < |pages| && pages'[p].state == FreeHead ensures Listed(pages', lists', p) {
      if p == index { assert lists'[order][0] == index; } else { assert Listed(pages, lists, p); }
    }
  }

  /** Where a free head sits on its list. */
  lemma HeadPosition(pages: seq<Page>, heads: seq<int>, lists: seq<seq<nat>>, index: nat) returns (k: nat)
    requires ListsOk(pages, heads, lists)
    requires index < |pages| && pages[index].state == FreeHead
    ensures pages[index].order < |lists|
    ensures var l := lists[pages[index].order]; k < |l| && l[k] == index && Node(pages, l, k, pages[index].order)
    ensures -1 <= pages[index].prev < |pages| && -1 <= pages[index].next < |pages|
    ensures heads[pages[index].order] == index <==> k == 0
    ensures pages[index].prev == NONE <==> k == 0
  {
    assert Listed(pages, lists, index);
    var o := pages[index].order;
    var l := lists[o];
    assert Linked(pages, heads[o], l, o);
    k :| 0 <= k < |l| && l[k] == index;
    assert Node(pages, l, k, o);
    assert k > 0 ==> Node(pages, l, k - 1, o);
    assert k < |l| - 1 ==> Node(pages, l, k + 1, o);
  }

  lemma RemoveLinkedHere(pages: seq<Page>, head: int, l: seq<nat>, o: nat, k: nat)
    requires Linked(pages, head, l, o) && k < |l| && l[k] < |pages|
    requires -1 <= pages[l[k]].prev < |pages| && -1 <= pages[l[k]].next < |pages|
    ensures Linked(RemovePages(pages, l[k]), if k == 0 then pages[l[k]].next else head, l[..k] + l[k + 1..], o)
  {
    var index := l[k];
    assert Node(pages, l, k, o);
    var pages', l' := RemovePages(pages, index), l[..k] + l[k + 1..];
    forall i | 0 <= i < |l'| ensures Node(pages', l', i, o) {
      assert Node(pages, l, if i < k then i else i + 1, o);
      assert k > 0 ==> Node(pages, l, k - 1, o);
      assert k + 1 < |l| ==> Node(pages, l, k + 1, o);
    }
  }

  lemma RemoveLinked(pages: seq<Page>, heads: seq<int>, lists: seq<seq<nat>>, index: nat, k: nat)
    requires ListsOk(pages, heads, lists)
    requires index < |pages| && pages[index].state == FreeHead && pages[index].order < |lists|
    requires var l := lists[pages[index].order]; k < |l| && l[k] == index
    requires -1 <= pages[index].prev < |pages| && -1 <= pages[index].next < |pages|
    ensures var o, l := pages[index].order, lists[pages[index].order];
            ListsOk(RemovePages(pages, index), if k == 0 then heads[o := pages[index].next] else heads,
                    lists[o := l[..k] + l[k + 1..]])
  {
    var o, l := pages[index].order, lists[pages[index].order];
    assert Linked(pages, heads[o], l, o);
    RemoveLinkedHere(pages, heads[o], l, o, k);
    assert Node(pages, l, k, o);
    assert k > 0 ==> Node(pages, l, k - 1, o);
    assert k + 1 < |l| ==> Node(pages, l, k + 1, o);
    var pages' := RemovePages(pages, index);
    var heads' := if k == 0 then heads[o := pages[index].next] else heads;
    var lists' := lists[o := l[..k] + l[k + 1..]];
    forall q | 0 <= q < |lists| ensures Linked(pages', heads'[q], lists'[q], q) {
      assert Linked(pages, heads[q], lists[q], q);
      if q != o { LinkedElsewhere(pages, pages', heads[q], lists[q], q); }
    }
    forall p | 0 <= p < |pages| && pages'[p].state == FreeHead ensures Listed(pages', lists', p) {
      assert Listed(pages, lists, p);
      if pages[p].order == o {
        var j :| 0 <= j < |l| && l[j] == p;
        assert (l[..k] + l[k + 1..])[if j < k then j else j - 1] == p;
      }
    }
  }
}
