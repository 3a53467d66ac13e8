/** Free and allocated blocks of the buddy allocator. */
module BuddyBlocks {
  import opened Basics
  import opened BuddyMath
  import opened BuddyPages

  predicate FreeBlock(pages: seq<Page>, b: int, o: nat) {
    0 <= b < |pages| && pages[b].state == FreeHead && pages[b].order == o
  }

  /** A free block is aligned, inside, has no other head within, and is maximally coalesced. */
  ghost predicate FreeOk(pages: seq<Page>, maxOrder: nat, i: nat)
    requires i < |pages|
  {
    var o := pages[i].order;
    && o <= maxOrder && Aligned(i, o) && i + Pow2(o) <= |pages|
    && (forall p :: i < p < i + Pow2(o) ==> pages[p].state == Reserved)
    && (o < maxOrder ==> !FreeBlock(pages, BuddyOf(i, o), o))
  }

  ghost predicate AllocOk(pages: seq<Page>, maxOrder: nat, i: nat)
    requires i < |pages|
  {
    var o := pages[i].order;
    && o <= maxOrder && Aligned(i, o) && i + Pow2(o) <= |pages|
    && (forall p :: i < p < i + Pow2(o) ==> pages[p].state == AllocTail)
  }

  ghost predicate BlocksOk(pages: seq<Page>, maxOrder: nat) {
    && (forall i {:trigger FreeOk(pages, maxOrder, i)} ::
          0 <= i < |pages| && pages[i].state == FreeHead ==> FreeOk(pages, maxOrder, i))
    && (forall i {:trigger AllocOk(pages, maxOrder, i)} ::
          0 <= i < |pages| && pages[i].state == AllocHead ==> AllocOk(pages, maxOrder, i))
  }

  /** Page p lies in the free block headed by h. */
  ghost predicate InFreeBlock(pages: seq<Page>, h: int, p: int) {
    0 <= h < |pages| && pages[h].state == FreeHead && InBlock(p, h, pages[h].order)
  }

  ghost predicate IsFree(pages: seq<Page>, p: int) {
    exists h :: InFreeBlock(pages, h, p)
  }

  ghost predicate AreFree(pages: seq<Page>, s: set<int>) {
    forall p {:trigger IsFree(pages, p)} :: p in s <==> 0 <= p < |pages| && IsFree(pages, p)
  }

  lemma FreeSetExists(pages: seq<Page>)
    ensures exists s :: AreFree(pages, s)
  {
    assert AreFree(pages, set p | 0 <= p < |pages| && IsFree(pages, p));
  }

  /** The pages of all free blocks. */
  ghost function FreeSet(pages: seq<Page>): (s: set<int>)
    ensures AreFree(pages, s)
    ensures forall p :: p in s ==> 0 <= p < |pages|
  {
    FreeSetExists(pages);
    var s :| AreFree(pages, s);
    assert forall p :: p in s ==> 0 <= p < |pages| by {
      forall p | p in s ensures 0 <= p < |pages| { assert IsFree(pages, p); }
    }
    s
  }

  function Block(i: int, o: nat): set<int> { set p | i <= p < i + Pow2(o) && InBlock(p, i, o) }

  /** An aligned block of this order lies in s. */
  ghost predicate AlignedRun(s: set<int>, order: nat) {
    exists i: nat :: Aligned(i, order) && Block(i, order) <= s
  }

  predicate InRange(p: int, start: int, count: nat) { start <= p < start + count }

  function Range(start: int, count: nat): set<int> { set p | start <= p < start + count && InRange(p, start, count) }

  /** The allocated blocks: their heads and orders. */
  ghost function Allocated(pages: seq<Page>): map<int, nat> {
    map i | 0 <= i < |pages| && pages[i].state == AllocHead :: pages[i].order
  }

  /** A block that is neither free nor allocated, about to be placed. */
  ghost predicate InHand(pages: seq<Page>, i: int, o: nat) {
    && 0 <= i && Aligned(i, o) && i + Pow2(o) <= |pages|
    && (forall p :: InBlock(p, i, o) ==> pages[p].state == Reserved)
    && Block(i, o) !! FreeSet(pages)
  }

  /** Only the state, order and tag of page i may differ. */
  ghost predicate ChangedAt(pages: seq<Page>, pages': seq<Page>, i: int) {
    && |pages'| == |pages|
    && forall p :: 0 <= p < |pages| && p != i ==>
         pages'[p].state == pages[p].state && pages'[p].order == pages[p].order && pages'[p].tag == pages[p].tag
  }

  /** State, order and tag are kept outside the given pages. */
  ghost predicate KeptOutside(pages: seq<Page>, pages': seq<Page>, s: set<int>) {
    && |pages'| == |pages|
    && forall p :: 0 <= p < |pages| && p !in s ==>
         pages'[p].state == pages[p].state && pages'[p].order == pages[p].order && pages'[p].tag == pages[p].tag
  }

  lemma AddChangesHead(pages: seq<Page>, head: int, index: nat, order: nat)
    requires index < |pages| && -1 <= head < |pages| && head != index
    ensures var pages' := AddPages(pages, head, index, order);
            ChangedAt(pages, pages', index) && pages'[index].state == FreeHead && pages'[index].order == order
            && pages'[index].tag == pages[index].tag
  {
  }

  lemma RemoveChangesHead(pages: seq<Page>, index: nat)
    requires index < |pages| && -1 <= pages[index].prev < |pages| && -1 <= pages[index].next < |pages|
    ensures var pages' := RemovePages(pages, index);
            ChangedAt(pages, pages', index) && pages'[index].state == Reserved && pages'[index].tag == pages[index].tag
  {
  }

  /** Free blocks are pairwise disjoint. */
  lemma FreeBlocksDisjoint(pages: seq<Page>, maxOrder: nat, h: int, k: int, p: int)
    requires BlocksOk(pages, maxOrder) && InFreeBlock(pages, h, p) && InFreeBlock(pages, k, p)
    ensures h == k
  {
    assert FreeOk(pages, maxOrder, h) && FreeOk(pages, maxOrder, k);
    NestedEither(h, pages[h].order, k, pages[k].order, p);
  }

  /** Allocated blocks are pairwise disjoint. */
  lemma AllocatedBlocksDisjoint(pages: seq<Page>, maxOrder: nat, i: nat, j: nat, p: int)
    requires BlocksOk(pages, maxOrder)
    requires i < |pages| && pages[i].state == AllocHead && InBlock(p, i, pages[i].order)
    requires j < |pages| && pages[j].state == AllocHead && InBlock(p, j, pages[j].order)
    ensures i == j
  {
    assert AllocOk(pages, maxOrder, i) && AllocOk(pages, maxOrder, j);
    NestedEither(i, pages[i].order, j, pages[j].order, p);
  }

  /** No page of an allocated block is free. */
  lemma AllocatedNotFree(pages: seq<Page>, maxOrder: nat, i: nat, p: int)
    requires BlocksOk(pages, maxOrder) && i < |pages| && pages[i].state == AllocHead && InBlock(p, i, pages[i].order)
    ensures p < |pages| && !IsFree(pages, p)
  {
    assert AllocOk(pages, maxOrder, i);
    forall h ensures !InFreeBlock(pages, h, p) {
      assert 0 <= h < |pages| && pages[h].state == FreeHead ==> FreeOk(pages, maxOrder, h);
    }
  }

  /** A free page is the head of a free block, or reserved. */
  lemma FreePageState(pages: seq<Page>, maxOrder: nat, p: int)
    requires BlocksOk(pages, maxOrder) && p in FreeSet(pages)
    ensures pages[p].state == FreeHead || pages[p].state == Reserved
  {
    assert IsFree(pages, p);
    var h :| InFreeBlock(pages, h, p);
    assert FreeOk(pages, maxOrder, h);
  }

  /** Returning reserved pages leaves the allocated blocks alone. */
  lemma AllocatedKept(pages: seq<Page>, pages': seq<Page>, maxOrder: nat, given: set<int>)
    requires BlocksOk(pages, maxOrder) && BlocksOk(pages', maxOrder)
    requires KeptOutside(pages, pages', FreeSet(pages')) && FreeSet(pages') == FreeSet(pages) + given
    requires forall p :: p in given ==> 0 <= p < |pages| && pages[p].state == Reserved
    ensures Allocated(pages') == Allocated(pages)
  {
    forall p | 0 <= p < |pages| && p in FreeSet(pages')
        ensures pages[p].state != AllocHead && pages'[p].state != AllocHead {
      FreePageState(pages', maxOrder, p);
      if p in FreeSet(pages) { FreePageState(pages, maxOrder, p); }
    }
  }

  /** Taking the head of a free block off its list removes exactly the block from the free pages. */
  lemma TakenFree(pages: seq<Page>, pages': seq<Page>, maxOrder: nat, i: nat, o: nat)
    requires BlocksOk(pages, maxOrder) && FreeBlock(pages, i, o)
    requires ChangedAt(pages, pages', i) && pages'[i].state == Reserved
    ensures FreeSet(pages') == FreeSet(pages) - Block(i, o)
    ensures Block(i, o) <= FreeSet(pages)
  {
    assert FreeOk(pages, maxOrder, i);
    forall p ensures p in FreeSet(pages') <==> p in FreeSet(pages) - Block(i, o) {
      assert 0 <= p < |pages| ==>
          (p in FreeSet(pages') <==> IsFree(pages', p)) && (p in FreeSet(pages) <==> IsFree(pages, p));
      if IsFree(pages', p) {
        var h :| InFreeBlock(pages', h, p);
        assert InFreeBlock(pages, h, p);
        if InBlock(p, i, o) { FreeBlocksDisjoint(pages, maxOrder, h, i, p); }
      }
      if IsFree(pages, p) && !InBlock(p, i, o) {
        var h :| InFreeBlock(pages, h, p);
        assert InFreeBlock(pages', h, p);
      }
    }
    forall p | p in Block(i, o) ensures p in FreeSet(pages) { assert InFreeBlock(pages, i, p) && IsFree(pages, p); }
  }

  lemma TakeBlock(pages: seq<Page>, pages': seq<Page>, maxOrder: nat, i: nat, o: nat)
    requires BlocksOk(pages, maxOrder) && FreeBlock(pages, i, o)
    requires ChangedAt(pages, pages', i) && pages'[i].state == Reserved
    ensures BlocksOk(pages', maxOrder) && InHand(pages', i, o)
    ensures FreeSet(pages') == FreeSet(pages) - Block(i, o) && Block(i, o) <= FreeSet(pages)
  {
    assert FreeOk(pages, maxOrder, i);
    TakenFree(pages, pages', maxOrder, i, o);
    forall j | 0 <= j < |pages'| && pages'[j].state == FreeHead ensures FreeOk(pages', maxOrder, j) {
      assert FreeOk(pages, maxOrder, j);
    }
    forall j | 0 <= j < |pages'| && pages'[j].state == AllocHead ensures AllocOk(pages', maxOrder, j) {
      assert AllocOk(pages, maxOrder, j);
    }
  }

  /** Making the first page of a block in hand a free head frees exactly the block. */
  lemma PlacedFree(pages: seq<Page>, pages': seq<Page>, i: nat, o: nat)
    requires InHand(pages, i, o)
    requires ChangedAt(pages, pages', i) && FreeBlock(pages', i, o)
    ensures FreeSet(pages') == FreeSet(pages) + Block(i, o)
  {
    assert InBlock(i, i, o);
    forall p ensures p in FreeSet(pages') <==> p in FreeSet(pages) + Block(i, o) {
      assert 0 <= p < |pages| ==>
          (p in FreeSet(pages') <==> IsFree(pages', p)) && (p in FreeSet(pages) <==> IsFree(pages, p));
      if IsFree(pages', p) && !InBlock(p, i, o) {
        var h :| InFreeBlock(pages', h, p);
        assert InFreeBlock(pages, h, p);
      }
      if InBlock(p, i, o) { assert InFreeBlock(pages', i, p); }
      if IsFree(pages, p) {
        var h :| InFreeBlock(pages, h, p);
        assert InFreeBlock(pages', h, p);
      }
    }
  }

  /** Another free block keeps its shape when the head of a block in hand becomes free. */
  lemma OtherFreeOk(pages: seq<Page>, pages': seq<Page>, maxOrder: nat, i: nat, o: nat, j: nat)
    requires
      && j < |pages| && j != i && FreeOk(pages, maxOrder, j) && FreeBlock(pages, j, pages[j].order)
      && InHand(pages, i, o)
    requires o < maxOrder ==> !FreeBlock(pages, BuddyOf(i, o), o)
    requires ChangedAt(pages, pages', i) && FreeBlock(pages', i, o)
    ensures FreeOk(pages', maxOrder, j)
  {
    assert InBlock(i, i, o) && i in Block(i, o);
    BuddyOfAligned(j, pages[j].order);
    assert InBlock(i, j, pages[j].order) ==> InFreeBlock(pages, j, i) && IsFree(pages, i);
  }

  /** Placing a block whose buddy is not free of the same order keeps the blocks well formed. */
  lemma PlaceBlock(pages: seq<Page>, pages': seq<Page>, maxOrder: nat, i: nat, o: nat)
    requires BlocksOk(pages, maxOrder) && InHand(pages, i, o) && o <= maxOrder
    requires o < maxOrder ==> !FreeBlock(pages, BuddyOf(i, o), o)
    requires ChangedAt(pages, pages', i) && FreeBlock(pages', i, o)
    ensures BlocksOk(pages', maxOrder)
  {
    assert InBlock(i, i, o);
    BuddyOfAligned(i, o);
    forall j | 0 <= j < |pages'| && pages'[j].state == FreeHead ensures FreeOk(pages', maxOrder, j) {
      if j != i {
        assert FreeOk(pages, maxOrder, j);
        OtherFreeOk(pages, pages', maxOrder, i, o, j);
      }
    }
    forall j | 0 <= j < |pages'| && pages'[j].state == AllocHead ensures AllocOk(pages', maxOrder, j) {
      assert AllocOk(pages, maxOrder, j);
    }
  }

  /** Two buddies in hand make one block of the next order in hand. */
  lemma JoinInHand(pages: seq<Page>, i: nat, o: nat)
    requires InHand(pages, i, o) && InHand(pages, BuddyOf(i, o), o)
    ensures InHand(pages, if BuddyOf(i, o) < i then BuddyOf(i, o) else i, o + 1)
    ensures Block(if BuddyOf(i, o) < i then BuddyOf(i, o) else i, o + 1) == Block(i, o) + Block(BuddyOf(i, o), o)
  {
    BuddyHalves(i, o);
    var m := if BuddyOf(i, o) < i then BuddyOf(i, o) else i;
    assert Block(m, o + 1) == Block(i, o) + Block(BuddyOf(i, o), o);
  }

  lemma SplitInHand(pages: seq<Page>, i: nat, o: nat)
    requires InHand(pages, i, o + 1)
    ensures InHand(pages, i, o) && InHand(pages, i + Pow2(o), o)
    ensures Block(i, o + 1) == Block(i, o) + Block(i + Pow2(o), o)
  {
    Halves(i, o);
    assert Block(i, o + 1) == Block(i, o) + Block(i + Pow2(o), o);
  }

  // ---- Completeness ----

  /**
   Maximal coalescing: an aligned run of free pages no larger than the largest block lies
   inside a single free block.
   */
  lemma {:induction false} FreeRunInOneBlock(pages: seq<Page>, maxOrder: nat, i: nat, k: nat) returns (h: nat)
    requires BlocksOk(pages, maxOrder) && k <= maxOrder && Aligned(i, k)
    requires forall p :: InBlock(p, i, k) ==> IsFree(pages, p)
    ensures h < |pages| && pages[h].state == FreeHead && k <= pages[h].order
    ensures h <= i && i + Pow2(k) <= h + Pow2(pages[h].order)
    decreases k
  {
    if k == 0 {
      assert InBlock(i, i, 0);
      h :| InFreeBlock(pages, h, i);
    } else {
      Halves(i, k - 1);
      var j := i + Pow2(k - 1);
      var h1 := FreeRunInOneBlock(pages, maxOrder, i, k - 1);
      var h2 := FreeRunInOneBlock(pages, maxOrder, j, k - 1);
      assert FreeOk(pages, maxOrder, h1) && FreeOk(pages, maxOrder, h2);
      if pages[h1].order >= k {
        Nested(i, k, h1, pages[h1].order, i);
        h := h1;
      } else {
        // h1 is exactly the lower half, so the upper half cannot be a block of its own
        assert h1 == i && !FreeBlock(pages, j, k - 1);
        assert pages[h2].order == k - 1 ==> h2 == j;
        Nested(i, k, h2, pages[h2].order, j);
        h := h2;
      }
    }
  }

  // ---- When an allocation can be met ----

  /** Some aligned block of s, of an order the allocator has, can hold count frames at this alignment. */
  ghost predicate Fits(s: set<int>, count: nat, alignment: nat, maxOrder: nat) {
    exists order: nat :: alignment <= order <= maxOrder && count <= Pow2(order) && AlignedRun(s, order)
  }

  lemma SmallerRun(s: set<int>, o: nat, p: nat)
    requires o <= p && AlignedRun(s, p)
    ensures AlignedRun(s, o)
  {
    var i: nat :| Aligned(i, p) && Block(i, p) <= s;
    AlignedDown(i, o, p);
    Pow2Monotone(o, p);
    assert Block(i, o) <= s by {
      forall x | x in Block(i, o) ensures x in s { assert InBlock(x, i, o) && InBlock(x, i, p) && x in Block(i, p); }
    }
  }

  /** Only the least order that is large enough matters. */
  lemma LeastOrderDecides(s: set<int>, count: nat, alignment: nat, maxOrder: nat, order: nat)
    requires alignment <= order && count <= Pow2(order) && (alignment < order ==> Pow2(order - 1) < count)
    ensures Fits(s, count, alignment, maxOrder) <==> order <= maxOrder && AlignedRun(s, order)
  {
    if Fits(s, count, alignment, maxOrder) {
      var o: nat :| alignment <= o <= maxOrder && count <= Pow2(o) && AlignedRun(s, o);
      if o < order { Pow2Monotone(o, order - 1); }
      SmallerRun(s, order, o);
    }
  }
}
