/** The pages of the heap: blocks of the buddy allocator whose pages carry the number of their block. */
module HeapPages {
  import opened Basics
  import opened BuddyMath
  import opened BuddyPages
  import opened BuddyBlocks
  import opened Buddy

  /** Page p lies in the allocated block that starts at page h. */
  ghost predicate InAllocated(pages: seq<Page>, h: int, p: int) {
    h in Allocated(pages) && InBlock(p, h, Allocated(pages)[h])
  }

  ghost predicate TagOk(pages: seq<Page>, p: int) {
    0 <= p < |pages| ==>
      && (pages[p].tag != 0 ==> InAllocated(pages, pages[p].tag - 1, p))
      && (forall h {:trigger InAllocated(pages, h, p)} :: InAllocated(pages, h, p) ==> pages[p].tag == h + 1)
  }

  /** Every page of a block is tagged with the block, all other pages with nothing. */
  ghost predicate TagsOk(pages: seq<Page>) {
    forall p {:trigger TagOk(pages, p)} :: TagOk(pages, p)
  }

  /** Blocks at different heads share no page. */
  lemma BlocksApart(pages: seq<Page>, maxOrder: nat, h: int, k: int, p: int)
    requires BlocksOk(pages, maxOrder) && InAllocated(pages, h, p) && InAllocated(pages, k, p)
    ensures h == k
  {
    AllocatedBlocksDisjoint(pages, maxOrder, h, k, p);
  }

  lemma BlockInside(pages: seq<Page>, maxOrder: nat, h: int)
    requires BlocksOk(pages, maxOrder) && h in Allocated(pages)
    ensures 0 <= h && h + Pow2(Allocated(pages)[h]) <= |pages|
  {
    assert AllocOk(pages, maxOrder, h);
  }

  /** The pages of one block get the same tag. */
  ghost predicate Tagged(p: seq<Page>, q: seq<Page>, index: int, n: nat, tag: nat) {
    |q| == |p| && forall k {:trigger q[k]} :: 0 <= k < |p| ==>
        q[k] == if index <= k < index + n then p[k].(tag := tag) else p[k]
  }

  lemma TaggedSound(pages: seq<Page>, pages': seq<Page>, heads: seq<int>, counts: seq<nat>, lists: seq<seq<nat>>,
                    maxOrder: nat, freePages: nat, index: nat, order: nat, tag: nat)
    requires Sound(pages, heads, counts, lists, maxOrder, freePages)
    requires
      && index in Allocated(pages) && Allocated(pages)[index] == order && Tagged(pages, pages', index, Pow2(order), tag)
    ensures Sound(pages', heads, counts, lists, maxOrder, freePages)
    ensures FreeSet(pages') == FreeSet(pages) && Allocated(pages') == Allocated(pages)
  {
    forall p | 0 <= p < |pages| && pages'[p] != pages[p] ensures pages[p].state != FreeHead && p !in FreeSet(pages) {
      AllocatedNotFree(pages, maxOrder, index, p);
      assert !IsFree(pages, p);
      assert AllocOk(pages, maxOrder, index);
      assert pages[p].state == FreeHead ==> InFreeBlock(pages, p, p);
    }
    assert Repainted(pages, pages');
    forall i | 0 <= i < |pages'| && pages'[i].state == AllocHead ensures AllocOk(pages', maxOrder, i) {
      assert AllocOk(pages, maxOrder, i);
    }
    RepaintedSound(pages, pages', heads, counts, lists, maxOrder, freePages);
  }

  /** A new block, tagged, leaves all tags in order. */
  lemma AllocTags(before: seq<Page>, mid: seq<Page>, after: seq<Page>, maxOrder: nat, index: nat, order: nat)
    requires TagsOk(before) && SameTags(before, mid) && Tagged(mid, after, index, Pow2(order), index + 1)
    requires
      && BlocksOk(after, maxOrder) && Allocated(mid) == Allocated(before)[index := order] && index !in Allocated(before)
    requires Allocated(after) == Allocated(mid)
    ensures TagsOk(after)
  {
    forall p ensures TagOk(after, p) {
      if 0 <= p < |after| {
        assert TagOk(before, p) && mid[p].tag == before[p].tag;
        if InBlock(p, index, order) {
          assert InAllocated(after, index, p);
          forall h | InAllocated(after, h, p) ensures h == index { BlocksApart(after, maxOrder, h, index, p); }
        } else {
          assert after[p].tag == before[p].tag;
          forall h ensures InAllocated(after, h, p) <==> InAllocated(before, h, p) {}
        }
      }
    }
  }

  lemma FreeTags(before: seq<Page>, after: seq<Page>, maxOrder: nat, index: nat, order: nat)
    requires TagsOk(before) && ClearedTags(before, after, index, order) && BlocksOk(before, maxOrder)
    requires
      && index in Allocated(before) && Allocated(before)[index] == order
      && Allocated(after) == Allocated(before) - {index}
    ensures TagsOk(after)
  {
    forall p ensures TagOk(after, p) {
      if 0 <= p < |after| {
        assert TagOk(before, p);
        assert after[p].tag == if InBlock(p, index, order) then 0 else before[p].tag;
        forall h ensures InAllocated(after, h, p) <==> InAllocated(before, h, p) && !InBlock(p, index, order) {
          if InBlock(p, index, order) && InAllocated(before, h, p) { BlocksApart(before, maxOrder, h, index, p); }
        }
      }
    }
  }

  class Pages {
    const buddy: Allocator

    ghost predicate Valid()
      reads this, buddy, buddy.pages, buddy.freeHead, buddy.freeCount
    {
      buddy.Valid() && TagsOk(buddy.pages[..])
    }

    ghost function Blocks(): map<int, nat>
      reads this, buddy.pages
    {
      Allocated(buddy.pages[..])
    }

    /** Nothing is allocated yet. */
    constructor (b: Allocator)
      requires b.Valid() && Allocated(b.pages[..]) == map[] && forall p :: 0 <= p < b.pages.Length ==>
          b.pages[p].tag == 0
      ensures Valid() && buddy == b && Blocks() == map[]
    {
      buddy := b;
      new;
      forall p ensures TagOk(buddy.pages[..], p) {}
    }

    /** page_alloc */
    method Alloc(order: nat) returns (r: Option<nat>)
      requires Valid()
      modifies buddy, buddy.pages, buddy.freeHead, buddy.freeCount
      ensures Valid()
      ensures r.None? <==> order > buddy.maxOrder || !old(buddy.FreeRun(order))
      ensures r.None? ==> Blocks() == old(Blocks())
      ensures r.Some? ==> r.value !in old(Blocks()) && Blocks() == old(Blocks())[r.value := order]
      ensures r.Some? ==> r.value + Pow2(order) <= buddy.pages.Length
    {
      ghost var before := buddy.pages[..];
      r := buddy.Alloc(order);
      if r.None? { return; }
      var index := r.value;
      ghost var mid := buddy.pages[..];
      NewHead(before, buddy.maxOrder, index, order);
      BlockInside(mid, buddy.maxOrder, index);
      TagBlock(index, order, index + 1);
      AllocTags(before, mid, buddy.pages[..], buddy.maxOrder, index, order);
    }

    /** The tagging loop of page_alloc. */
    method TagBlock(index: nat, order: nat, tag: nat)
      requires
        && buddy.Valid() && index in Blocks() && Blocks()[index] == order && index + Pow2(order) <= buddy.pages.Length
      modifies buddy.pages
      ensures buddy.Valid() && Tagged(old(buddy.pages[..]), buddy.pages[..], index, Pow2(order), tag)
      ensures FreeSet(buddy.pages[..]) == old(FreeSet(buddy.pages[..])) && Blocks() == old(Blocks())
    {
      ghost var before := buddy.pages[..];
      TagPages(index, Pow2(order), tag);
      TaggedSound(before, buddy.pages[..], buddy.freeHead[..], buddy.freeCount[..], buddy.lists, buddy.maxOrder,
                  buddy.freePages, index, order, tag);
    }

    method TagPages(index: nat, n: nat, tag: nat)
      requires index + n <= buddy.pages.Length
      modifies buddy.pages
      ensures Tagged(old(buddy.pages[..]), buddy.pages[..], index, n, tag)
    {
      ghost var before := buddy.pages[..];
      for i := 0 to n
        invariant Tagged(before, buddy.pages[..], index, i, tag)
      {
        buddy.pages[index + i] := buddy.pages[index + i].(tag := tag);
      }
    }

    /** page_free */
    method Free(index: nat, order: nat) returns (ok: bool)
      requires Valid()
      modifies buddy, buddy.pages, buddy.freeHead, buddy.freeCount
      ensures Valid()
      ensures ok <==> index in old(Blocks()) && old(Blocks())[index] == order
      ensures Blocks() == if ok then old(Blocks()) - {index} else old(Blocks())
    {
      ghost var before := buddy.pages[..];
      var status := buddy.Free(index, order);
      ok := status == Ok;
      if ok { FreeTags(before, buddy.pages[..], buddy.maxOrder, index, order); }
    }

    /** pointer_owner, for an address within the heap: the block a page belongs to. */
    method Owner(page: nat) returns (h: Option<nat>)
      requires Valid() && page < buddy.pages.Length
      ensures h.Some? ==> InAllocated(buddy.pages[..], h.value, page)
      ensures h.None? ==> forall k :: !InAllocated(buddy.pages[..], k, page)
    {
      assert TagOk(buddy.pages[..], page);
      var tag := buddy.pages[page].tag;
      if tag != 0 { BlockInside(buddy.pages[..], buddy.maxOrder, tag - 1); }
      if tag == 0 || tag > buddy.pages.Length { return None; }
      return Some(tag - 1);
    }
  }

  /** A block made of free pages starts where no block started. */
  lemma NewHead(pages: seq<Page>, maxOrder: nat, index: nat, order: nat)
    requires BlocksOk(pages, maxOrder) && Block(index, order) <= FreeSet(pages)
    ensures index !in Allocated(pages)
  {
    assert InBlock(index, index, order) && index in Block(index, order);
    assert IsFree(pages, index);
    if index in Allocated(pages) { AllocatedNotFree(pages, maxOrder, index, index); }
  }
}
