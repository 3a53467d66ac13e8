/**
 The binary buddy allocator.  Its specification is two values: the set of free pages and
 the map from allocated block heads to their orders.
 */
module Buddy {
  import opened Basics
  import opened BuddyMath
  import opened BuddyPages
  import opened BuddyBlocks

  datatype Status = Ok | Invalid | Fault | Overflow

  // ---- Counting free pages ----

  ghost function Total(lists: seq<seq<nat>>): nat {
    if lists == [] then 0
    else Total(lists[..|lists| - 1]) + |lists[|lists| - 1]| * Pow2(|lists| - 1)
  }

  /** One block more on the list of order o. */
  lemma {:induction false} TotalGrows(a: seq<seq<nat>>, b: seq<seq<nat>>, o: nat)
    requires |a| == |b| && o < |a| && |b[o]| == |a[o]| + 1
    requires forall q :: 0 <= q < |a| && q != o ==> |b[q]| == |a[q]|
    ensures Total(b) == Total(a) + Pow2(o)
  {
    var n := |a| - 1;
    if o == n {
      TotalSame(a[..n], b[..n]);
      Distribute(|a[o]|, Pow2(o));
    } else {
      TotalGrows(a[..n], b[..n], o);
    }
  }

  lemma Distribute(k: nat, u: nat)
    ensures (k + 1) * u == k * u + u
  {
  }

  lemma {:induction false} TotalSame(a: seq<seq<nat>>, b: seq<seq<nat>>)
    requires |a| == |b| && forall q :: 0 <= q < |a| ==> |b[q]| == |a[q]|
    ensures Total(b) == Total(a)
  {
    if a != [] { TotalSame(a[..|a| - 1], b[..|b| - 1]); }
  }

  lemma {:induction false} TotalOfEmpty(lists: seq<seq<nat>>)
    requires forall o :: 0 <= o < |lists| ==> lists[o] == []
    ensures Total(lists) == 0
  {
    if lists != [] { TotalOfEmpty(lists[..|lists| - 1]); }
  }

  lemma {:induction false} RangeSize(i: int, n: nat, a: set<int>)
    requires forall p :: p in a <==> i <= p < i + n
    ensures |a| == n
  {
    if n == 0 {
      assert forall p :: p !in a;
      assert a == {};
    } else {
      RangeSize(i, n - 1, a - {i + n - 1});
    }
  }

  lemma BlockSize(i: int, o: nat)
    ensures |Block(i, o)| == Pow2(o)
  {
    RangeSize(i, Pow2(o), Block(i, o));
  }

  // ---- The invariant, on values ----

  ghost predicate Sound(pages: seq<Page>, heads: seq<int>, counts: seq<nat>, lists: seq<seq<nat>>, maxOrder: nat,
                        freePages: nat) {
    && |heads| == |counts| == |lists| == maxOrder + 1
    && ListsOk(pages, heads, lists)
    && BlocksOk(pages, maxOrder)
    && (forall o :: 0 <= o <= maxOrder ==> counts[o] == |lists[o]|)
    && freePages == Total(lists) == |FreeSet(pages)|
  }

  lemma CountsGrow(counts: seq<nat>, lists: seq<seq<nat>>, counts': seq<nat>, lists': seq<seq<nat>>, o: nat)
    requires |counts| == |lists| == |counts'| == |lists'| && o < |lists|
    requires forall q :: 0 <= q < |lists| ==> counts[q] == |lists[q]|
    requires |lists'[o]| == |lists[o]| + 1 && counts'[o] == counts[o] + 1
    requires forall q :: 0 <= q < |lists| && q != o ==> lists'[q] == lists[q] && counts'[q] == counts[q]
    ensures forall q :: 0 <= q < |lists| ==> counts'[q] == |lists'[q]|
    ensures Total(lists') == Total(lists) + Pow2(o)
  {
    TotalGrows(lists, lists', o);
  }

  lemma HeadIsFree(pages: seq<Page>, heads: seq<int>, lists: seq<seq<nat>>, o: nat)
    requires ListsOk(pages, heads, lists) && o < |lists|
    ensures heads[o] == NONE || (0 <= heads[o] < |pages| && FreeBlock(pages, heads[o], o))
  {
    assert Linked(pages, heads[o], lists[o], o);
    assert lists[o] != [] ==> Node(pages, lists[o], 0, o);
  }

  lemma AddSound(pages: seq<Page>, heads: seq<int>, counts: seq<nat>, lists: seq<seq<nat>>, maxOrder: nat,
                 freePages: nat,
                 index: nat, order: nat)
    requires Sound(pages, heads, counts, lists, maxOrder, freePages)
    requires order <= maxOrder && InHand(pages, index, order)
    requires order < maxOrder ==> !FreeBlock(pages, BuddyOf(index, order), order)
    ensures index < |pages| && -1 <= heads[order] < |pages|
    ensures var pages' := AddPages(pages, heads[order], index, order);
            && Sound(pages', heads[order := index], counts[order := counts[order] + 1],
                     lists[order := [index] + lists[order]], maxOrder, freePages + Pow2(order))
            && ChangedAt(pages, pages', index) && FreeBlock(pages', index, order)
               && pages'[index].tag == pages[index].tag
            && FreeSet(pages') == FreeSet(pages) + Block(index, order)
  {
    assert InBlock(index, index, order);
    AddLinked(pages, heads, lists, index, order);
    var pages' := AddPages(pages, heads[order], index, order);
    HeadIsFree(pages, heads, lists, order);
    AddChangesHead(pages, heads[order], index, order);
    PlaceBlock(pages, pages', maxOrder, index, order);
    PlacedFree(pages, pages', index, order);
    BlockSize(index, order);
    CountsGrow(counts, lists, counts[order := counts[order] + 1], lists[order := [index] + lists[order]], order);
  }

  lemma RemoveSound(pages: seq<Page>, heads: seq<int>, counts: seq<nat>, lists: seq<seq<nat>>, maxOrder: nat,
                    freePages: nat,
                    index: nat) returns (k: nat)
    requires Sound(pages, heads, counts, lists, maxOrder, freePages)
    requires index < |pages| && pages[index].state == FreeHead
    ensures pages[index].order <= maxOrder && k < |lists[pages[index].order]|
    ensures -1 <= pages[index].prev < |pages| && -1 <= pages[index].next < |pages|
    ensures pages[index].prev == NONE <==> k == 0
    ensures counts[pages[index].order] > 0 && freePages >= Pow2(pages[index].order)
    ensures var o, l := pages[index].order, lists[pages[index].order];
            var pages' := RemovePages(pages, index);
            && Sound(pages', if k == 0 then heads[o := pages[index].next] else heads, counts[o := counts[o] - 1],
                     lists[o := l[..k] + l[k + 1..]], maxOrder, freePages - Pow2(o))
            && ChangedAt(pages, pages', index) && pages'[index].tag == pages[index].tag
            && InHand(pages', index, o)
            && FreeSet(pages') == FreeSet(pages) - Block(index, o) && Block(index, o) <= FreeSet(pages)
  {
    k := HeadPosition(pages, heads, lists, index);
    var o, l := pages[index].order, lists[pages[index].order];
    RemoveLinked(pages, heads, lists, index, k);
    var pages' := RemovePages(pages, index);
    RemoveChangesHead(pages, index);
    TakeBlock(pages, pages', maxOrder, index, o);
    BlockSize(index, o);
    CountsGrow(counts[o := counts[o] - 1], lists[o := l[..k] + l[k + 1..]], counts, lists, o);
  }

  // ---- Repainting pages that are not free ----

  /** Pages differ only where neither is a free head and the page is not free. */
  ghost predicate Repainted(pages: seq<Page>, pages': seq<Page>) {
    && |pages'| == |pages|
    && forall p :: 0 <= p < |pages| && pages'[p] != pages[p] ==>
         pages[p].state != FreeHead && pages'[p].state != FreeHead && p !in FreeSet(pages)
  }

  lemma RepaintedFree(pages: seq<Page>, pages': seq<Page>)
    requires Repainted(pages, pages')
    ensures FreeSet(pages') == FreeSet(pages)
  {
    forall p ensures p in FreeSet(pages') <==> p in FreeSet(pages) {
      assert 0 <= p < |pages| ==>
          (p in FreeSet(pages') <==> IsFree(pages', p)) && (p in FreeSet(pages) <==> IsFree(pages, p));
      if IsFree(pages', p) {
        var h :| InFreeBlock(pages', h, p);
        assert InFreeBlock(pages, h, p);
      }
      if IsFree(pages, p) {
        var h :| InFreeBlock(pages, h, p);
        assert InFreeBlock(pages', h, p);
      }
    }
  }

  lemma RepaintedLists(pages: seq<Page>, pages': seq<Page>, heads: seq<int>, lists: seq<seq<nat>>)
    requires ListsOk(pages, heads, lists) && Repainted(pages, pages')
    ensures ListsOk(pages', heads, lists)
  {
    forall o | 0 <= o < |lists| ensures Linked(pages', heads[o], lists[o], o) {
      assert Linked(pages, heads[o], lists[o], o);
      LinkedElsewhere(pages, pages', heads[o], lists[o], o);
    }
    forall p | 0 <= p < |pages| && pages'[p].state == FreeHead ensures Listed(pages', lists, p) {
      assert Listed(pages, lists, p);
    }
  }

  lemma RepaintedSound(pages: seq<Page>, pages': seq<Page>, heads: seq<int>, counts: seq<nat>, lists: seq<seq<nat>>,
                       maxOrder: nat, freePages: nat)
    requires Sound(pages, heads, counts, lists, maxOrder, freePages) && Repainted(pages, pages')
    requires forall i :: 0 <= i < |pages'| && pages'[i].state == AllocHead ==> AllocOk(pages', maxOrder, i)
    ensures Sound(pages', heads, counts, lists, maxOrder, freePages)
    ensures FreeSet(pages') == FreeSet(pages)
  {
    RepaintedLists(pages, pages', heads, lists);
    RepaintedFree(pages, pages');
    forall i | 0 <= i < |pages'| && pages'[i].state == FreeHead ensures FreeOk(pages', maxOrder, i) {
      assert FreeOk(pages, maxOrder, i);
      forall p | i < p < i + Pow2(pages[i].order) ensures pages'[p].state == Reserved {
        assert InFreeBlock(pages, i, p) && IsFree(pages, p);
      }
    }
  }

  /** The pages of an allocated block of order o at i. */
  ghost predicate Painted(pages: seq<Page>, pages': seq<Page>, i: nat, o: nat) {
    && |pages'| == |pages| && i + Pow2(o) <= |pages|
    && (forall p :: 0 <= p < |pages| && !InBlock(p, i, o) ==> pages'[p] == pages[p])
    && pages'[i] == pages[i].(state := AllocHead, order := o)
    && (forall p :: i < p < i + Pow2(o) ==> pages'[p] == pages[p].(state := AllocTail, order := 0))
  }

  lemma PaintBlocks(pages: seq<Page>, pages': seq<Page>, maxOrder: nat, i: nat, o: nat)
    requires BlocksOk(pages, maxOrder) && InHand(pages, i, o) && o <= maxOrder && Painted(pages, pages', i, o)
    ensures forall j :: 0 <= j < |pages'| && pages'[j].state == AllocHead ==> AllocOk(pages', maxOrder, j)
  {
    forall j | 0 <= j < |pages'| && pages'[j].state == AllocHead ensures AllocOk(pages', maxOrder, j) {
      if j != i {
        assert AllocOk(pages, maxOrder, j);
        forall p | j < p < j + Pow2(pages[j].order) ensures pages'[p].state == AllocTail {
          assert pages[p].state == AllocTail;
        }
      }
    }
  }

  lemma PaintSound(pages: seq<Page>, pages': seq<Page>, heads: seq<int>, counts: seq<nat>, lists: seq<seq<nat>>,
                   maxOrder: nat, freePages: nat, i: nat, o: nat)
    requires Sound(pages, heads, counts, lists, maxOrder, freePages)
    requires InHand(pages, i, o) && o <= maxOrder && Painted(pages, pages', i, o)
    ensures Sound(pages', heads, counts, lists, maxOrder, freePages)
    ensures FreeSet(pages') == FreeSet(pages)
    ensures Allocated(pages') == Allocated(pages)[i := o]
  {
    assert Repainted(pages, pages') by {
      forall p | 0 <= p < |pages| && pages'[p] != pages[p] ensures p !in FreeSet(pages) && pages[p].state == Reserved {
        assert InBlock(p, i, o) && p in Block(i, o);
      }
    }
    PaintBlocks(pages, pages', maxOrder, i, o);
    RepaintedSound(pages, pages', heads, counts, lists, maxOrder, freePages);
    assert InBlock(i, i, o);
  }

  /** The pages of a block are reserved again, with order and tag cleared. */
  ghost predicate Cleared(pages: seq<Page>, pages': seq<Page>, i: nat, o: nat) {
    && |pages'| == |pages| && i + Pow2(o) <= |pages|
    && (forall p :: 0 <= p < |pages| && !InBlock(p, i, o) ==> pages'[p] == pages[p])
    && (forall p :: InBlock(p, i, o) ==> pages'[p] == pages[p].(state := Reserved, order := 0, tag := 0))
  }

  lemma ClearedBlocks(pages: seq<Page>, pages': seq<Page>, maxOrder: nat, i: nat, o: nat)
    requires BlocksOk(pages, maxOrder)
    requires i < |pages| && pages[i].state == AllocHead && pages[i].order == o && Cleared(pages, pages', i, o)
    ensures Repainted(pages, pages')
    ensures forall j :: 0 <= j < |pages'| && pages'[j].state == AllocHead ==> AllocOk(pages', maxOrder, j)
    ensures forall p :: InBlock(p, i, o) ==> p !in FreeSet(pages)
  {
    assert AllocOk(pages, maxOrder, i);
    forall p | InBlock(p, i, o) ensures p !in FreeSet(pages) && pages[p].state in {AllocHead, AllocTail} {
      AllocatedNotFree(pages, maxOrder, i, p);
    }
    forall j | 0 <= j < |pages'| && pages'[j].state == AllocHead ensures AllocOk(pages', maxOrder, j) {
      assert AllocOk(pages, maxOrder, j);
      forall p | j < p < j + Pow2(pages[j].order) ensures pages'[p] == pages[p] {
        if InBlock(p, i, o) { AllocatedBlocksDisjoint(pages, maxOrder, i, j, p); }
      }
    }
  }

  lemma ClearedAllocated(pages: seq<Page>, pages': seq<Page>, i: nat, o: nat)
    requires Cleared(pages, pages', i, o) && forall p :: i < p < i + Pow2(o) ==> pages[p].state == AllocTail
    ensures Allocated(pages') == Allocated(pages) - {i}
  {
    assert InBlock(i, i, o);
    forall p | 0 <= p < |pages| ensures p in Allocated(pages') <==> p in Allocated(pages) && p != i {
      assert InBlock(p, i, o) || pages'[p] == pages[p];
    }
  }

  lemma ClearSound(pages: seq<Page>, pages': seq<Page>, heads: seq<int>, counts: seq<nat>, lists: seq<seq<nat>>,
                   maxOrder: nat, freePages: nat, i: nat, o: nat)
    requires Sound(pages, heads, counts, lists, maxOrder, freePages)
    requires i < |pages| && pages[i].state == AllocHead && pages[i].order == o && Cleared(pages, pages', i, o)
    ensures Sound(pages', heads, counts, lists, maxOrder, freePages)
    ensures o <= maxOrder && InHand(pages', i, o) && FreeSet(pages') == FreeSet(pages)
    ensures Allocated(pages') == Allocated(pages) - {i}
  {
    assert AllocOk(pages, maxOrder, i);
    ClearedBlocks(pages, pages', maxOrder, i, o);
    RepaintedSound(pages, pages', heads, counts, lists, maxOrder, freePages);
    ClearedAllocated(pages, pages', i, o);
  }

  /** The block (i, o) is in hand on its way back; it contains the pages `given` and pages free before. */
  ghost predicate Carrying(before: seq<Page>, pages: seq<Page>, given: set<int>, i: nat, o: nat) {
    && InHand(pages, i, o)
    && FreeSet(pages) + Block(i, o) == FreeSet(before) + given
    && KeptOutside(before, pages, Block(i, o))
  }

  lemma CarryMore(before: seq<Page>, pages: seq<Page>, pages': seq<Page>, given: set<int>, i: nat, o: nat, m: nat,
                  n: nat)
    requires Carrying(before, pages, given, i, o) && n == o + 1 && m == if BuddyOf(i, o) < i then BuddyOf(i, o) else i
    requires ChangedAt(pages, pages', BuddyOf(i, o)) && InHand(pages', BuddyOf(i, o), o)
    requires pages'[BuddyOf(i, o)].tag == pages[BuddyOf(i, o)].tag
    requires FreeSet(pages') == FreeSet(pages) - Block(BuddyOf(i, o), o) && Block(BuddyOf(i, o), o) <= FreeSet(pages)
    ensures Carrying(before, pages', given, m, n)
  {
    var b := BuddyOf(i, o);
    BuddyHalves(i, o);
    assert InHand(pages', i, o) by {
      forall p | InBlock(p, i, o) ensures pages'[p].state == Reserved { assert pages[p].state == Reserved; }
    }
    JoinInHand(pages', i, o);
    assert b in Block(b, o) by { assert InBlock(b, b, o); }
  }

  lemma CarryDone(before: seq<Page>, pages: seq<Page>, pages': seq<Page>, given: set<int>, i: nat, o: nat)
    requires Carrying(before, pages, given, i, o)
    requires ChangedAt(pages, pages', i) && pages'[i].tag == pages[i].tag
    requires FreeSet(pages') == FreeSet(pages) + Block(i, o)
    ensures FreeSet(pages') == FreeSet(before) + given
    ensures KeptOutside(before, pages', FreeSet(pages'))
  {
    assert InBlock(i, i, o) && i in Block(i, o);
  }

  lemma CarryStart(before: seq<Page>, i: nat, o: nat)
    requires InHand(before, i, o)
    ensures Carrying(before, before, Block(i, o), i, o)
  {
  }

  /** A free aligned run of some order shows up on a list of that order or above. */
  lemma RunHasBlock(pages: seq<Page>, heads: seq<int>, lists: seq<seq<nat>>, maxOrder: nat, order: nat, i: nat)
    returns (o: nat)
    requires ListsOk(pages, heads, lists) && BlocksOk(pages, maxOrder) && |lists| == maxOrder + 1 && order <= maxOrder
    requires Aligned(i, order) && Block(i, order) <= FreeSet(pages)
    ensures order <= o <= maxOrder && heads[o] != NONE
  {
    forall p | InBlock(p, i, order) ensures IsFree(pages, p) { assert p in Block(i, order); }
    var h := FreeRunInOneBlock(pages, maxOrder, i, order);
    var k := HeadPosition(pages, heads, lists, h);
    o := pages[h].order;
    assert Linked(pages, heads[o], lists[o], o);
  }

  /** With every list from this order up empty, no aligned run of this order is free. */
  lemma NoBlockNoRun(pages: seq<Page>, heads: seq<int>, lists: seq<seq<nat>>, maxOrder: nat, order: nat)
    requires ListsOk(pages, heads, lists) && BlocksOk(pages, maxOrder) && |lists| == maxOrder + 1 && order <= maxOrder
    requires forall o :: order <= o <= maxOrder ==> heads[o] == NONE
    ensures forall i: nat :: Aligned(i, order) ==> !(Block(i, order) <= FreeSet(pages))
  {
    forall i: nat | Aligned(i, order) ensures !(Block(i, order) <= FreeSet(pages)) {
      if Block(i, order) <= FreeSet(pages) {
        var o := RunHasBlock(pages, heads, lists, maxOrder, order, i);
      }
    }
  }

  /** A block taken from the free pages is being split; what is cut off is free again. */
  ghost predicate Splitting(before: seq<Page>, pages: seq<Page>, i: nat, o: nat) {
    && InHand(pages, i, o)
    && FreeSet(before) == FreeSet(pages) + Block(i, o)
    && KeptOutside(before, pages, FreeSet(before))
  }

  lemma SplitStart(before: seq<Page>, pages: seq<Page>, i: nat, o: nat)
    requires ChangedAt(before, pages, i) && InHand(pages, i, o) && i < |pages| && pages[i].tag == before[i].tag
    requires FreeSet(pages) == FreeSet(before) - Block(i, o) && Block(i, o) <= FreeSet(before)
    ensures Splitting(before, pages, i, o)
  {
    assert InBlock(i, i, o) && i in Block(i, o);
  }

  lemma SplitMore(before: seq<Page>, pages: seq<Page>, pages': seq<Page>, i: nat, o: nat, n: nat, half: nat)
    requires Splitting(before, pages, i, n) && n == o + 1 && half == i + Pow2(o)
    requires ChangedAt(pages, pages', half) && FreeBlock(pages', half, o) && pages'[half].tag == pages[half].tag
    requires FreeSet(pages') == FreeSet(pages) + Block(half, o)
    ensures Splitting(before, pages', i, o)
  {
    SplitInHand(pages, i, o);
    assert InBlock(half, half, o) && half in Block(half, o);
    forall p | p in Block(i, o) ensures p !in Block(half, o) {}
  }

  /** The upper half of a block being split has no free buddy: its buddy is in hand. */
  lemma UpperHalf(pages: seq<Page>, i: nat, o: nat, n: nat, half: nat)
    requires InHand(pages, i, n) && n == o + 1 && half == i + Pow2(o)
    ensures InHand(pages, half, o) && !FreeBlock(pages, BuddyOf(half, o), o)
  {
    SplitInHand(pages, i, o);
    Halves(i, o);
    assert InBlock(i, i, o + 1);
  }

  lemma PaintedKept(before: seq<Page>, split: seq<Page>, pages: seq<Page>, i: nat, o: nat)
    requires Splitting(before, split, i, o) && Painted(split, pages, i, o)
    ensures KeptOutside(before, pages, FreeSet(before))
  {
    forall p | 0 <= p < |pages| && p !in FreeSet(before) ensures pages[p] == split[p] {
      assert p !in Block(i, o);
      assert !InBlock(p, i, o);
    }
  }

  lemma CarvedSound(before: seq<Page>, split: seq<Page>, pages: seq<Page>, heads: seq<int>, counts: seq<nat>,
                    lists: seq<seq<nat>>,
                    maxOrder: nat, freePages: nat, i: nat, o: nat)
    requires BlocksOk(before, maxOrder) && o <= maxOrder
    requires
      && Sound(split, heads, counts, lists, maxOrder, freePages) && Splitting(before, split, i, o)
      && Painted(split, pages, i, o)
    ensures Sound(pages, heads, counts, lists, maxOrder, freePages)
    ensures Aligned(i, o) && Block(i, o) <= FreeSet(before) && FreeSet(pages) == FreeSet(before) - Block(i, o)
    ensures Allocated(pages) == Allocated(before)[i := o]
    ensures KeptOutside(before, pages, FreeSet(before))
  {
    AllocatedKept(split, before, maxOrder, Block(i, o));
    PaintSound(split, pages, heads, counts, lists, maxOrder, freePages, i, o);
    PaintedKept(before, split, pages, i, o);
  }

  /** What the metadata of an allocated head says. */
  lemma StoredOrder(pages: seq<Page>, maxOrder: nat, i: nat)
    requires BlocksOk(pages, maxOrder) && i < |pages|
    ensures pages[i].state == AllocHead ==> AllocOk(pages, maxOrder, i)
  {
  }

  lemma FreedKept(before: seq<Page>, cleared: seq<Page>, pages: seq<Page>, i: nat, o: nat)
    requires
      && Cleared(before, cleared, i, o) && KeptOutside(cleared, pages, FreeSet(pages)) && Block(i, o) <= FreeSet(pages)
    ensures KeptOutside(before, pages, FreeSet(pages))
  {
    forall p | 0 <= p < |pages| && p !in FreeSet(pages) ensures cleared[p] == before[p] {
      assert p !in Block(i, o);
      assert !InBlock(p, i, o);
    }
  }

  /** The first keep pages from i are individually allocated units. */
  ghost predicate UnitHeads(pages: seq<Page>, pages': seq<Page>, i: nat, keep: nat) {
    && |pages'| == |pages| && i + keep <= |pages|
    && (forall p :: 0 <= p < |pages| && !InRange(p, i, keep) ==> pages'[p] == pages[p])
    && (forall p :: InRange(p, i, keep) ==> pages'[p] == pages[p].(state := AllocHead, order := 0))
  }

  function Ones(i: int, keep: nat): map<int, nat> { map p | p in Range(i, keep) :: 0 }

  lemma UnitHeadsSound(pages: seq<Page>, pages': seq<Page>, heads: seq<int>, counts: seq<nat>, lists: seq<seq<nat>>,
                       maxOrder: nat, freePages: nat,
                       i: nat, o: nat, keep: nat)
    requires Sound(pages, heads, counts, lists, maxOrder, freePages)
    requires InHand(pages, i, o) && keep <= Pow2(o) && UnitHeads(pages, pages', i, keep)
    ensures Sound(pages', heads, counts, lists, maxOrder, freePages)
    ensures FreeSet(pages') == FreeSet(pages)
    ensures Allocated(pages') == Allocated(pages) + Ones(i, keep)
  {
    forall p | InRange(p, i, keep) ensures p !in FreeSet(pages) && pages[p].state == Reserved {
      assert InBlock(p, i, o) && p in Block(i, o);
    }
    assert Repainted(pages, pages');
    forall j | 0 <= j < |pages'| && pages'[j].state == AllocHead ensures AllocOk(pages', maxOrder, j) {
      if !InRange(j, i, keep) {
        assert AllocOk(pages, maxOrder, j);
        forall p | j < p < j + Pow2(pages[j].order) ensures pages'[p].state == AllocTail {
          assert pages[p].state == AllocTail;
        }
      }
    }
    RepaintedSound(pages, pages', heads, counts, lists, maxOrder, freePages);
    UnitHeadsAllocated(pages, pages', i, keep);
  }

  lemma UnitHeadsAllocated(pages: seq<Page>, pages': seq<Page>, i: nat, keep: nat)
    requires UnitHeads(pages, pages', i, keep)
    ensures Allocated(pages') == Allocated(pages) + Ones(i, keep)
  {
    forall p | 0 <= p < |pages| ensures p in Allocated(pages') <==> p in Allocated(pages) || p in Range(i, keep) {
      assert InRange(p, i, keep) || pages'[p] == pages[p];
    }
  }

  /** What is left of the block after the kept units is reserved and not free. */
  lemma TailReserved(cleared: seq<Page>, kept: seq<Page>, i: nat, o: nat, keep: nat)
    requires
      && InHand(cleared, i, o) && keep <= Pow2(o) && UnitHeads(cleared, kept, i, keep)
      && FreeSet(kept) == FreeSet(cleared)
    ensures forall p :: InRange(p, i + keep, Pow2(o) - keep) ==> kept[p].state == Reserved && p !in FreeSet(kept)
    ensures Range(i, keep) !! FreeSet(kept) && Range(i, keep) !! Range(i + keep, Pow2(o) - keep)
    ensures keep == Pow2(o) ==> Range(i + keep, Pow2(o) - keep) == {}
  {
    forall p | InRange(p, i + keep, Pow2(o) - keep) ensures kept[p].state == Reserved && p !in FreeSet(kept) {
      assert InBlock(p, i, o) && p in Block(i, o) && !InRange(p, i, keep);
    }
    forall p | p in Range(i, keep) ensures p !in FreeSet(kept) { assert InBlock(p, i, o) && p in Block(i, o); }
  }

  /** A block has been turned into units of one page each, its tail reserved. */
  ghost predicate Unitized(before: seq<Page>, pages: seq<Page>, i: nat, o: nat, keep: nat) {
    && |pages| == |before| && keep <= Pow2(o) && i + Pow2(o) <= |pages|
    && FreeSet(pages) == FreeSet(before)
    && Allocated(pages) == Allocated(before) - {i} + Ones(i, keep)
    && KeptOutside(before, pages, Block(i, o))
    && Range(i, keep) !! FreeSet(pages)
    && (forall p :: InRange(p, i, keep) ==> pages[p].tag == 0)
    && (forall p :: InRange(p, i + keep, Pow2(o) - keep) ==> pages[p].state == Reserved && p !in FreeSet(pages))
  }

  lemma UnitizedKept(before: seq<Page>, cleared: seq<Page>, pages: seq<Page>, i: nat, o: nat, keep: nat)
    requires Cleared(before, cleared, i, o) && UnitHeads(cleared, pages, i, keep) && keep <= Pow2(o)
    ensures KeptOutside(before, pages, Block(i, o))
    ensures forall p :: InRange(p, i, keep) ==> pages[p].tag == 0
  {
    forall p | 0 <= p < |pages| && p !in Block(i, o) ensures pages[p] == before[p] {
      assert !InBlock(p, i, o) && !InRange(p, i, keep);
    }
    forall p | InRange(p, i, keep) ensures pages[p].tag == 0 { assert InBlock(p, i, o); }
  }

  /** What trimming cuts off a block. */
  function Tail(i: nat, o: nat, keep: nat): set<int>
    requires keep <= Pow2(o)
  {
    Range(i + keep, Pow2(o) - keep)
  }

  ghost predicate Untagged(pages: seq<Page>, i: nat, keep: nat) {
    forall p :: InRange(p, i, keep) ==> p < |pages| && pages[p].tag == 0
  }

  lemma EmptyRange(at: nat, tail: nat, s: set<int>)
    requires tail == 0
    ensures s == s + Range(at, tail)
  {
    assert Range(at, tail) == {};
  }

  lemma TrimKept(before: seq<Page>, kept: seq<Page>, pages: seq<Page>, i: nat, o: nat, keep: nat, at: nat, tail: nat)
    requires Unitized(before, kept, i, o, keep) && at == i + keep && tail == Pow2(o) - keep
    requires KeptOutside(kept, pages, FreeSet(pages)) && FreeSet(pages) == FreeSet(kept) + Range(at, tail)
    ensures FreeSet(pages) == FreeSet(before) + Tail(i, o, keep)
    ensures KeptOutside(before, pages, FreeSet(pages) + Block(i, o))
    ensures Untagged(pages, i, keep)
  {
    forall p | InRange(p, i, keep) ensures 0 <= p < |pages| && pages[p].tag == 0 {
      assert p in Range(i, keep) && p !in Range(at, tail);
    }
  }

  /** The range from start up to at has been handed over; the rest, up to end, is still reserved. */
  ghost predicate Handing(before: seq<Page>, pages: seq<Page>, start: nat, at: nat, left: nat, end: nat) {
    && start <= at && at + left == end <= |pages|
    && FreeSet(pages) == FreeSet(before) + Range(start, at - start)
    && KeptOutside(before, pages, FreeSet(pages))
    && (forall p :: at <= p < end ==> pages[p].state == Reserved && p !in FreeSet(pages))
  }

  lemma HandOne(before: seq<Page>, pages: seq<Page>, start: nat, at: nat, left: nat, end: nat, order: nat)
    requires Handing(before, pages, start, at, left, end) && Pow2(order) <= left && Aligned(at, order)
    ensures InHand(pages, at, order)
  {
  }

  lemma HandedOne(before: seq<Page>, pages: seq<Page>, pages': seq<Page>, start: nat, at: nat, left: nat, end: nat,
                  order: nat, at': nat, left': nat)
    requires Handing(before, pages, start, at, left, end) && Pow2(order) <= left
    requires at' == at + Pow2(order) && left' == left - Pow2(order)
    requires FreeSet(pages') == FreeSet(pages) + Block(at, order) && KeptOutside(pages, pages', FreeSet(pages'))
    ensures Handing(before, pages', start, at', left', end)
  {
    var r, r', b := Range(start, at - start), Range(start, at' - start), Block(at, order);
    forall p ensures p in r' <==> p in r + b {
      assert InRange(p, start, at' - start) <==> InRange(p, start, at - start) || InBlock(p, at, order);
    }
    assert r' == r + b;
    forall p | at' <= p < end ensures p !in FreeSet(pages') { assert !InBlock(p, at, order); }
  }

  lemma HandedAll(before: seq<Page>, pages: seq<Page>, maxOrder: nat, start: nat, at: nat, left: nat, count: nat)
    requires Handing(before, pages, start, at, left, start + count) && left == 0
    requires BlocksOk(before, maxOrder) && BlocksOk(pages, maxOrder)
    requires forall p :: start <= p < start + count ==> before[p].state == Reserved
    ensures FreeSet(pages) == FreeSet(before) + Range(start, count)
    ensures Allocated(pages) == Allocated(before)
  {
    AllocatedKept(before, pages, maxOrder, Range(start, count));
  }

  // ---- Tags ----

  /** The tags of a freed block are cleared, those of all other pages kept. */
  ghost predicate ClearedTags(p: seq<Page>, q: seq<Page>, index: int, order: nat) {
    |q| == |p| && forall k {:trigger q[k]} :: 0 <= k < |p| ==>
        q[k].tag == if InBlock(k, index, order) then 0 else p[k].tag
  }

  lemma PaintedTags(p: seq<Page>, q: seq<Page>, index: nat, order: nat)
    requires Painted(p, q, index, order)
    ensures SameTags(p, q)
  {}

  lemma FreedTags(before: seq<Page>, cleared: seq<Page>, pages: seq<Page>, index: nat, order: nat)
    requires Cleared(before, cleared, index, order) && SameTags(cleared, pages)
    ensures ClearedTags(before, pages, index, order)
  {
    forall k | 0 <= k < |before| ensures pages[k].tag == if InBlock(k, index, order) then 0 else before[k].tag {
      assert pages[k].tag == cleared[k].tag;
    }
  }

  class Allocator {
    const pages: array<Page>
    const freeHead: array<int>
    const freeCount: array<nat>
    const maxOrder: nat
    const configMax: nat
    var freePages: nat
    ghost var lists: seq<seq<nat>>      // the free lists, in link order

    ghost predicate Valid()
      reads this, pages, freeHead, freeCount
    {
      maxOrder <= configMax && Sound(pages[..], freeHead[..], freeCount[..], lists, maxOrder, freePages)
    }

    /** buddy_init: everything reserved, all lists empty. */
    constructor (pageCount: nat, max: nat, limit: nat)
      requires 0 < pageCount <= 0x7fff_ffff && max <= limit
      ensures Valid() && fresh(pages) && fresh(freeHead) && fresh(freeCount)
      ensures pages.Length == pageCount && maxOrder == max && configMax == limit
      ensures FreeSet(pages[..]) == {} && Allocated(pages[..]) == map[]
      ensures forall p :: 0 <= p < pageCount ==> pages[p].state == Reserved && pages[p].tag == 0
    {
      maxOrder := max;
      configMax := limit;
      pages := new Page[pageCount](_ => Page(NONE, NONE, 0, 0, Reserved));
      freeHead := new int[max + 1](_ => NONE);
      freeCount := new nat[max + 1](_ => 0);
      freePages := 0;
      lists := seq(max + 1, _ => []);
      new;
      TotalOfEmpty(lists);
      forall p ensures p !in FreeSet(pages[..]) { assert !IsFree(pages[..], p); }
      assert FreeSet(pages[..]) == {};
    }

    /** buddy_init with its check of the arguments. */
    static method Init(pageCount: nat, max: nat, limit: nat) returns (allocator: Allocator?)
      ensures allocator != null <==> 0 < pageCount <= 0x7fff_ffff && max <= limit
      ensures allocator != null ==> fresh(allocator) && allocator.Valid() && allocator.pages.Length == pageCount
      ensures allocator != null ==> FreeSet(allocator.pages[..]) == {} && Allocated(allocator.pages[..]) == map[]
    {
      if pageCount == 0 || pageCount > 0x7fff_ffff || max > limit { return null; }
      allocator := new Allocator(pageCount, max, limit);
    }

    /** list_add, on the metadata alone. */
    method ListAdd(index: nat, order: nat)
      requires index < pages.Length && order < freeHead.Length == freeCount.Length
      requires -1 <= freeHead[order] < pages.Length
      modifies this`freePages, pages, freeHead, freeCount
      ensures pages[..] == AddPages(old(pages[..]), old(freeHead[order]), index, order)
      ensures freeHead[..] == old(freeHead[..])[order := index]
      ensures freeCount[..] == old(freeCount[..])[order := old(freeCount[order]) + 1]
      ensures freePages == old(freePages) + Pow2(order)
    {
      var head := freeHead[order];
      pages[index] := pages[index].(prev := NONE, next := head, order := order, state := FreeHead);
      if head != NONE {
        pages[head] := pages[head].(prev := index);
      }
      freeHead[order] := index;
      freeCount[order] := freeCount[order] + 1;
      freePages := freePages + Pow2(order);
    }

    /** list_remove, on the metadata alone. */
    method ListRemove(index: nat, order: nat)
      requires index < pages.Length && order < freeHead.Length == freeCount.Length
      requires -1 <= pages[index].prev < pages.Length && -1 <= pages[index].next < pages.Length
      requires freeCount[order] > 0 && freePages >= Pow2(order)
      modifies this`freePages, pages, freeHead, freeCount
      ensures pages[..] == RemovePages(old(pages[..]), index)
      ensures freeHead[..] == if old(pages[index].prev) == NONE then old(freeHead[..])[order := old(pages[index].next)]
          else old(freeHead[..])
      ensures freeCount[..] == old(freeCount[..])[order := old(freeCount[order]) - 1]
      ensures freePages == old(freePages) - Pow2(order)
    {
      var page := pages[index];
      if page.prev == NONE {
        freeHead[order] := page.next;
      } else {
        pages[page.prev] := pages[page.prev].(next := page.next);
      }
      if page.next != NONE {
        pages[page.next] := pages[page.next].(prev := page.prev);
      }
      pages[index] := pages[index].(next := NONE, prev := NONE, state := Reserved);
      freeCount[order] := freeCount[order] - 1;
      freePages := freePages - Pow2(order);
    }

    /** Put a block in hand on its free list. */
    method Place(index: nat, order: nat)
      requires Valid() && order <= maxOrder && InHand(pages[..], index, order)
      requires order < maxOrder ==> !FreeBlock(pages[..], BuddyOf(index, order), order)
      modifies this, pages, freeHead, freeCount
      ensures Valid()
      ensures ChangedAt(old(pages[..]), pages[..], index)
      ensures FreeBlock(pages[..], index, order) && pages[..][index].tag == old(pages[..])[index].tag
      ensures FreeSet(pages[..]) == old(FreeSet(pages[..])) + Block(index, order)
      ensures SameTags(old(pages[..]), pages[..])
    {
      AddSound(pages[..], freeHead[..], freeCount[..], lists, maxOrder, freePages, index, order);
      ListAdd(index, order);
      lists := lists[order := [index] + lists[order]];
    }

    /** Take a free block off its list, into the hand. */
    method Take(index: nat, order: nat)
      requires Valid() && FreeBlock(pages[..], index, order)
      modifies this, pages, freeHead, freeCount
      ensures Valid() && order <= maxOrder
      ensures ChangedAt(old(pages[..]), pages[..], index) && pages[..][index].tag == old(pages[..])[index].tag
      ensures InHand(pages[..], index, order)
      ensures FreeSet(pages[..]) == old(FreeSet(pages[..])) - Block(index, order)
      ensures Block(index, order) <= old(FreeSet(pages[..]))
      ensures SameTags(old(pages[..]), pages[..])
    {
      ghost var k := RemoveSound(pages[..], freeHead[..], freeCount[..], lists, maxOrder, freePages, index);
      ListRemove(index, order);
      lists := lists[order := lists[order][..k] + lists[order][k + 1..]];
    }

    /** add_block: insert a block, merging buddies up while possible. */
    method AddBlock(index0: nat, order0: nat)
      requires Valid() && order0 <= maxOrder && InHand(pages[..], index0, order0)
      modifies this, pages, freeHead, freeCount
      ensures Valid()
      ensures FreeSet(pages[..]) == old(FreeSet(pages[..])) + Block(index0, order0)
      ensures KeptOutside(old(pages[..]), pages[..], FreeSet(pages[..]))
      ensures Allocated(pages[..]) == old(Allocated(pages[..]))
      ensures SameTags(old(pages[..]), pages[..])
    {
      ghost var before, given := pages[..], Block(index0, order0);
      CarryStart(before, index0, order0);
      var index: nat, order: nat := index0, order0;
      while order < maxOrder
        invariant Valid() && order <= maxOrder && Carrying(before, pages[..], given, index, order)
        invariant SameTags(before, pages[..])
        decreases maxOrder - order
      {
        var buddy := BuddyOf(index, order);
        if buddy >= pages.Length || pages[buddy].state != FreeHead || pages[buddy].order != order { break; }
        ghost var was, i, o := pages[..], index, order;
        Take(buddy, order);
        if buddy < index { index := buddy; }
        order := order + 1;
        CarryMore(before, was, pages[..], given, i, o, index, order);
        SameTagsTransitive(before, was, pages[..]);
      }
      ghost var was := pages[..];
      Place(index, order);
      CarryDone(before, was, pages[..], given, index, order);
      SameTagsTransitive(before, was, pages[..]);
      AllocatedKept(before, pages[..], maxOrder, given);
    }

    /** Mark a block as allocated. */
    method PaintBlock(index: nat, order: nat)
      requires index + Pow2(order) <= pages.Length
      modifies pages
      ensures Painted(old(pages[..]), pages[..], index, order)
    {
      ghost var before := pages[..];
      pages[index] := pages[index].(state := AllocHead, order := order);
      for i := 1 to Pow2(order)
        invariant forall p :: 0 <= p < pages.Length && !(index <= p < index + i) ==> pages[p] == before[p]
        invariant pages[index] == before[index].(state := AllocHead, order := order)
        invariant forall p :: index < p < index + i ==> pages[p] == before[p].(state := AllocTail, order := 0)
      {
        pages[index + i] := pages[index + i].(state := AllocTail, order := 0);
      }
    }

    /** Reserve the pages of a block again. */
    method ClearBlock(index: nat, order: nat)
      requires index + Pow2(order) <= pages.Length
      modifies pages
      ensures Cleared(old(pages[..]), pages[..], index, order)
    {
      ghost var before := pages[..];
      for i := 0 to Pow2(order)
        invariant forall p :: 0 <= p < pages.Length && !(index <= p < index + i) ==> pages[p] == before[p]
        invariant forall p :: index <= p < index + i ==> pages[p] == before[p].(state := Reserved, order := 0, tag := 0)
      {
        pages[index + i] := pages[index + i].(state := Reserved, order := 0, tag := 0);
      }
    }

    /** Some aligned run of 2^order pages is entirely free. */
    ghost predicate FreeRun(order: nat)
      reads pages
    {
      AlignedRun(FreeSet(pages[..]), order)
    }

    /** Cut a block in hand down to the wanted order, freeing upper halves. */
    method SplitDown(index: nat, from: nat, order: nat, ghost before: seq<Page>)
      requires Valid() && order <= from <= maxOrder && Splitting(before, pages[..], index, from)
      modifies this, pages, freeHead, freeCount
      ensures Valid() && Splitting(before, pages[..], index, order) && SameTags(old(pages[..]), pages[..])
    {
      var found: nat := from;
      while found > order
        invariant order <= found <= maxOrder && Valid() && Splitting(before, pages[..], index, found)
        invariant SameTags(old(pages[..]), pages[..])
      {
        ghost var was, n := pages[..], found;
        found := found - 1;
        var half: nat := index + Pow2(found);
        UpperHalf(pages[..], index, found, n, half);
        Place(half, found);
        SplitMore(before, was, pages[..], index, found, n, half);
        SameTagsTransitive(old(pages[..]), was, pages[..]);
      }
    }

    /** The second half of buddy_alloc: split a free block down to the wanted order and mark it. */
    method Carve(order: nat, from: nat) returns (index: nat)
      requires Valid() && order <= from <= maxOrder && freeHead[from] != NONE
      modifies this, pages, freeHead, freeCount
      ensures Valid()
      ensures Aligned(index, order) && Block(index, order) <= old(FreeSet(pages[..]))
      ensures FreeSet(pages[..]) == old(FreeSet(pages[..])) - Block(index, order)
      ensures Allocated(pages[..]) == old(Allocated(pages[..]))[index := order]
      ensures KeptOutside(old(pages[..]), pages[..], old(FreeSet(pages[..])))
      ensures SameTags(old(pages[..]), pages[..])
    {
      ghost var before := pages[..];
      HeadIsFree(pages[..], freeHead[..], lists, from);
      index := freeHead[from];
      Take(index, from);
      SplitStart(before, pages[..], index, from);
      ghost var taken := pages[..];
      SplitDown(index, from, order, before);
      ghost var split := pages[..];
      SameTagsTransitive(before, taken, split);
      PaintBlock(index, order);
      PaintedTags(split, pages[..], index, order);
      SameTagsTransitive(before, split, pages[..]);
      CarvedSound(before, split, pages[..], freeHead[..], freeCount[..], lists, maxOrder, freePages, index, order);
    }

    /** buddy_alloc: fails exactly when no aligned run of free pages of this order exists. */
    method Alloc(order: nat) returns (r: Option<nat>)
      requires Valid()
      modifies this, pages, freeHead, freeCount
      ensures Valid()
      ensures r.Some? <==> order <= maxOrder && old(FreeRun(order))
      ensures r.None? ==> pages[..] == old(pages[..])
      ensures r.Some? ==>
                && Aligned(r.value, order) && Block(r.value, order) <= old(FreeSet(pages[..]))
                && FreeSet(pages[..]) == old(FreeSet(pages[..])) - Block(r.value, order)
                && Allocated(pages[..]) == old(Allocated(pages[..]))[r.value := order]
                && KeptOutside(old(pages[..]), pages[..], old(FreeSet(pages[..])))
      ensures SameTags(old(pages[..]), pages[..])
    {
      if order > maxOrder { return None; }
      var found: nat := order;
      while found <= maxOrder && freeHead[found] == NONE
        invariant order <= found <= maxOrder + 1
        invariant forall o :: order <= o < found ==> freeHead[o] == NONE
      {
        found := found + 1;
      }
      if found > maxOrder {
        NoBlockNoRun(pages[..], freeHead[..], lists, maxOrder, order);
        return None;
      }
      var index := Carve(order, found);
      r := Some(index);
    }

    /** buddy_free: accepts exactly the allocated blocks, and never reports a corrupted one. */
    method Free(index: nat, order: nat) returns (status: Status)
      requires Valid()
      modifies this, pages, freeHead, freeCount
      ensures Valid()
      ensures status == Ok <==> index in old(Allocated(pages[..])) && old(Allocated(pages[..]))[index] == order
      ensures status != Ok ==> status == Invalid && pages[..] == old(pages[..]) && freePages == old(freePages)
      ensures status == Ok ==>
                && FreeSet(pages[..]) == old(FreeSet(pages[..])) + Block(index, order)
                && Allocated(pages[..]) == old(Allocated(pages[..])) - {index}
                && KeptOutside(old(pages[..]), pages[..], FreeSet(pages[..]))
                && ClearedTags(old(pages[..]), pages[..], index, order)
    {
      if order > maxOrder || index >= pages.Length {
        if index < pages.Length { StoredOrder(pages[..], maxOrder, index); }
        return Invalid;
      }
      var units := Pow2(order);
      if !Aligned(index, order) || units > pages.Length - index {
        StoredOrder(pages[..], maxOrder, index);
        return Invalid;
      }
      if pages[index].state != AllocHead || pages[index].order != order { return Invalid; }
      StoredOrder(pages[..], maxOrder, index);
      for i := 1 to units
      {
        if pages[index + i].state != AllocTail { return Fault; }
      }
      ghost var before := pages[..];
      ClearBlock(index, order);
      ghost var cleared := pages[..];
      ClearSound(before, cleared, freeHead[..], freeCount[..], lists, maxOrder, freePages, index, order);
      AddBlock(index, order);
      FreedKept(before, cleared, pages[..], index, order);
      FreedTags(before, cleared, pages[..], index, order);
      status := Ok;
    }

    /** The largest block that starts at start and fits: the order selection of buddy_add_range. */
    method ChooseOrder(start: nat, count: nat) returns (order: nat)
      requires 0 < count && maxOrder <= configMax
      ensures order <= maxOrder && Pow2(order) <= count && Aligned(start, order)
    {
      order := OrderForUnits(count, configMax);
      if order > maxOrder {
        Pow2Monotone(maxOrder, order - 1);
        order := maxOrder;
      }
      if Pow2(order) > count {
        order := order - 1;
      }
      while order > 0 && !Aligned(start, order)
        invariant order <= maxOrder && Pow2(order) <= count
      {
        order := order - 1;
      }
    }

    /** buddy_add_range: hand a reserved range over, split into aligned blocks. */
    method AddRange(start: nat, count: nat) returns (status: Status)
      requires Valid()
      requires forall p :: InRange(p, start, count) && p < pages.Length && pages[p].state == Reserved ==>
          p !in FreeSet(pages[..])
      modifies this, pages, freeHead, freeCount
      ensures Valid()
      ensures status == Ok <==>
                && 0 < count && start + count <= pages.Length
                && (forall p :: InRange(p, start, count) ==> old(pages[..])[p].state == Reserved)
      ensures status != Ok ==> status == Invalid && pages[..] == old(pages[..])
      ensures status == Ok ==>
                && FreeSet(pages[..]) == old(FreeSet(pages[..])) + Range(start, count)
                && Allocated(pages[..]) == old(Allocated(pages[..]))
                && KeptOutside(old(pages[..]), pages[..], FreeSet(pages[..]))
    {
      if count == 0 || start >= pages.Length || count > pages.Length - start { return Invalid; }
      for i := start to start + count
        invariant forall p :: start <= p < i ==> pages[p].state == Reserved
      {
        if pages[i].state != Reserved {
          assert InRange(i, start, count);
          return Invalid;
        }
      }
      ghost var before := pages[..];
      var at: nat, left: nat := start, count;
      while left > 0
        invariant Valid() && Handing(before, pages[..], start, at, left, start + count)
      {
        var order := ChooseOrder(at, left);
        ghost var was, at0, left0 := pages[..], at, left;
        HandOne(before, pages[..], start, at, left, start + count, order);
        AddBlock(at, order);
        at := at + Pow2(order);
        left := left - Pow2(order);
        HandedOne(before, was, pages[..], start, at0, left0, start + count, order, at, left);
      }
      HandedAll(before, pages[..], maxOrder, start, at, left, count);
      status := Ok;
    }

    /** Make each of the first keep pages of a block its own allocated unit. */
    method PaintUnits(index: nat, keep: nat)
      requires index + keep <= pages.Length
      modifies pages
      ensures UnitHeads(old(pages[..]), pages[..], index, keep)
    {
      ghost var before := pages[..];
      for i := 0 to keep
        invariant forall p :: 0 <= p < pages.Length && !(index <= p < index + i) ==> pages[p] == before[p]
        invariant forall p :: index <= p < index + i ==> pages[p] == before[p].(state := AllocHead, order := 0)
      {
        pages[index + i] := pages[index + i].(state := AllocHead, order := 0);
      }
    }

    /** Turn an allocated block into single pages, reserving its tail. */
    method Unitize(index: nat, order: nat, keep: nat)
      requires Valid() && index < pages.Length && keep <= Pow2(order)
      requires pages[index].state == AllocHead && pages[index].order == order
      modifies pages
      ensures Valid() && Unitized(old(pages[..]), pages[..], index, order, keep)
    {
      StoredOrder(pages[..], maxOrder, index);
      ghost var before := pages[..];
      ClearBlock(index, order);
      ghost var cleared := pages[..];
      ClearSound(before, cleared, freeHead[..], freeCount[..], lists, maxOrder, freePages, index, order);
      PaintUnits(index, keep);
      UnitHeadsSound(cleared, pages[..], freeHead[..], freeCount[..], lists, maxOrder, freePages, index, order, keep);
      TailReserved(cleared, pages[..], index, order, keep);
      UnitizedKept(before, cleared, pages[..], index, order, keep);
    }

    /** buddy_trim_allocation: keep a prefix of a block as single pages, free the rest. */
    method Trim(index: nat, order: nat, keep: nat) returns (status: Status)
      requires Valid()
      modifies this, pages, freeHead, freeCount
      ensures Valid()
      ensures status == Ok <==>
                && 0 < keep <= Pow2(order)
                && index in old(Allocated(pages[..])) && old(Allocated(pages[..]))[index] == order
      ensures status != Ok ==> status == Invalid && pages[..] == old(pages[..])
      ensures status == Ok ==>
                && index + Pow2(order) <= pages.Length
                && FreeSet(pages[..]) == old(FreeSet(pages[..])) + Tail(index, order, keep)
                && Allocated(pages[..]) == old(Allocated(pages[..])) - {index} + Ones(index, keep)
                && KeptOutside(old(pages[..]), pages[..], FreeSet(pages[..]) + Block(index, order))
                && Untagged(pages[..], index, keep)
    {
      if order > maxOrder || index >= pages.Length {
        if index < pages.Length { StoredOrder(pages[..], maxOrder, index); }
        return Invalid;
      }
      StoredOrder(pages[..], maxOrder, index);
      var units := Pow2(order);
      if keep == 0 || keep > units || units > pages.Length - index { return Invalid; }
      if pages[index].state != AllocHead || pages[index].order != order { return Invalid; }
      for i := 1 to units
      {
        if pages[index + i].state != AllocTail { return Fault; }
      }
      ghost var before := pages[..];
      Unitize(index, order, keep);
      ghost var kept := pages[..];
      var at: nat, tail: nat := index + keep, units - keep;
      if tail > 0 {
        status := AddRange(at, tail);
      } else {
        EmptyRange(at, tail, FreeSet(kept));
        status := Ok;
      }
      TrimKept(before, kept, pages[..], index, order, keep, at, tail);
    }
  }
}
