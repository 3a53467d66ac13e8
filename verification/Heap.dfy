/** malloc, aligned_alloc and free of the kernel heap. */
module Heap {
  import opened Basics
  import opened BuddyMath
  import opened HeapLayout
  import BuddyPages
  import BuddyBlocks
  import opened HeapPages
  import opened HeapObjects

  // ---- Sizes of live allocations ----

  ghost function Sum(m: map<Ref, nat>): nat {
    if m == map[] then 0 else var r :| r in m; m[r] + Sum(m - {r})
  }

  lemma {:induction false} SumWithout(m: map<Ref, nat>, r: Ref)
    requires r in m
    ensures Sum(m) == m[r] + Sum(m - {r})
    decreases |m|
  {
    var q :| q in m && Sum(m) == m[q] + Sum(m - {q});
    if q != r {
      assert |m - {q}| < |m| && |m - {r}| < |m|;
      SumWithout(m - {q}, r);
      SumWithout(m - {r}, q);
      assert m - {q} - {r} == m - {r} - {q};
    }
  }

  lemma SumWith(m: map<Ref, nat>, r: Ref, n: nat)
    requires r !in m
    ensures Sum(m[r := n]) == Sum(m) + n && |m[r := n]| == |m| + 1
  {
    SumWithout(m[r := n], r);
    assert m[r := n] - {r} == m;
  }

  function RequestedOf(slabs: Slabs, larges: Larges, r: Ref): nat {
    match r
    case Object(page, i) => if page in slabs && i in slabs[page].requested then slabs[page].requested[i] else 0
    case Whole(page) => if page in larges then larges[page].requested else 0
  }

  ghost predicate LiveIs(slabs: Slabs, larges: Larges, live: map<Ref, nat>, r: Ref) {
    (r in live <==> Live(slabs, larges, r)) && (r in live ==> live[r] == RequestedOf(slabs, larges, r))
  }

  ghost predicate LiveAre(slabs: Slabs, larges: Larges, live: map<Ref, nat>) {
    forall r {:trigger LiveIs(slabs, larges, live, r)} :: LiveIs(slabs, larges, live, r)
  }

  // ---- One change at a time ----

  lemma SlabChanged(blocks: map<int, nat>, caches: seq<Cache>, slabs: Slabs, larges: Larges, h: nat, s: Slab)
    requires StateOk(blocks, caches, slabs, larges) && h in slabs && SlabOk(caches, s) && s.cache == slabs[h].cache
    ensures StateOk(blocks, caches, slabs[h := s], larges)
  {
    hide SlabOk, LargeOk, CachesOk;
    var slabs' := slabs[h := s];
    forall k ensures BlockOk(blocks, caches, slabs', larges, k) { assert BlockOk(blocks, caches, slabs, larges, k); }
  }

  lemma SlabAdded(blocks: map<int, nat>, caches: seq<Cache>, slabs: Slabs, larges: Larges, h: nat, s: Slab)
    requires StateOk(blocks, caches, slabs, larges) && h !in blocks && SlabOk(caches, s)
    ensures StateOk(blocks[h := caches[s.cache].order], caches, slabs[h := s], larges) && h !in slabs && h !in larges
  {
    assert BlockOk(blocks, caches, slabs, larges, h) && s.cache < |caches|;
    hide SlabOk, LargeOk, CachesOk;
    var blocks', slabs' := blocks[h := caches[s.cache].order], slabs[h := s];
    forall k ensures BlockOk(blocks', caches, slabs', larges, k) { assert BlockOk(blocks, caches, slabs, larges, k); }
  }

  lemma SlabDropped(blocks: map<int, nat>, caches: seq<Cache>, slabs: Slabs, larges: Larges, h: nat)
    requires StateOk(blocks, caches, slabs, larges) && h in slabs
    ensures StateOk(blocks - {h}, caches, slabs - {h}, larges)
    ensures h in blocks && slabs[h].cache < |caches| && blocks[h] == caches[slabs[h].cache].order
  {
    assert BlockOk(blocks, caches, slabs, larges, h);
    hide SlabOk, LargeOk, CachesOk;
    forall k ensures BlockOk(blocks - {h}, caches, slabs - {h}, larges, k) {
      assert BlockOk(blocks, caches, slabs, larges, k);
    }
  }

  lemma LargeAdded(blocks: map<int, nat>, caches: seq<Cache>, slabs: Slabs, larges: Larges, h: nat, l: Large)
    requires StateOk(blocks, caches, slabs, larges) && h !in blocks && LargeOk(l)
    ensures StateOk(blocks[h := l.order], caches, slabs, larges[h := l]) && h !in slabs && h !in larges
  {
    assert BlockOk(blocks, caches, slabs, larges, h);
    hide SlabOk, LargeOk, CachesOk;
    var blocks', larges' := blocks[h := l.order], larges[h := l];
    forall k ensures BlockOk(blocks', caches, slabs, larges', k) { assert BlockOk(blocks, caches, slabs, larges, k); }
  }

  lemma LargeDropped(blocks: map<int, nat>, caches: seq<Cache>, slabs: Slabs, larges: Larges, h: nat)
    requires StateOk(blocks, caches, slabs, larges) && h in larges
    ensures StateOk(blocks - {h}, caches, slabs, larges - {h}) && h in blocks && blocks[h] == larges[h].order
  {
    assert BlockOk(blocks, caches, slabs, larges, h);
    hide SlabOk, LargeOk, CachesOk;
    forall k ensures BlockOk(blocks - {h}, caches, slabs, larges - {h}, k) {
      assert BlockOk(blocks, caches, slabs, larges, k);
    }
  }

  lemma LiveGiven(slabs: Slabs, larges: Larges, live: map<Ref, nat>, h: nat, size: nat)
    requires
      && LiveAre(slabs, larges, live) && h in slabs && slabs[h].free != [] && slabs[h].free[0] !in slabs[h].requested
    ensures var r := Object(h, slabs[h].free[0]);
        r !in live && LiveAre(slabs[h := Given(slabs[h], size)], larges, live[r := size])
  {
    var r, slabs' := Object(h, slabs[h].free[0]), slabs[h := Given(slabs[h], size)];
    assert LiveIs(slabs, larges, live, r);
    var live' := live[r := size];
    forall q ensures LiveIs(slabs', larges, live', q) { assert LiveIs(slabs, larges, live, q); }
  }

  lemma LiveReturned(slabs: Slabs, larges: Larges, live: map<Ref, nat>, h: nat, i: nat)
    requires LiveAre(slabs, larges, live) && h in slabs && i in slabs[h].requested
    ensures var r := Object(h, i);
            r in live && live[r] == slabs[h].requested[i]
                && LiveAre(slabs[h := Returned(slabs[h], i)], larges, live - {r})
  {
    var r, slabs' := Object(h, i), slabs[h := Returned(slabs[h], i)];
    assert LiveIs(slabs, larges, live, r);
    forall q ensures LiveIs(slabs', larges, live - {r}, q) { assert LiveIs(slabs, larges, live, q); }
  }

  /** A slab nobody uses comes and goes unnoticed. */
  lemma LiveUnused(slabs: Slabs, larges: Larges, live: map<Ref, nat>, h: nat, s: Slab)
    requires LiveAre(slabs, larges, live) && s.requested == map[]
    ensures h !in slabs ==> LiveAre(slabs[h := s], larges, live)
    ensures h in slabs && slabs[h] == s ==> LiveAre(slabs - {h}, larges, live)
  {
    var more, fewer := slabs[h := s], slabs - {h};
    forall q ensures (h !in slabs ==> LiveIs(more, larges, live, q))
        && (h in slabs && slabs[h] == s ==> LiveIs(fewer, larges, live, q)) {
      assert LiveIs(slabs, larges, live, q);
    }
  }

  lemma LiveLarge(slabs: Slabs, larges: Larges, live: map<Ref, nat>, h: nat, l: Large)
    requires LiveAre(slabs, larges, live)
    ensures h !in larges ==> Whole(h) !in live && LiveAre(slabs, larges[h := l], live[Whole(h) := l.requested])
    ensures h in larges && larges[h] == l ==>
        Whole(h) in live && live[Whole(h)] == l.requested && LiveAre(slabs, larges - {h}, live - {Whole(h)})
  {
    var r := Whole(h);
    assert LiveIs(slabs, larges, live, r);
    var larges', live' := larges[h := l], live[r := l.requested];
    forall q ensures h !in larges ==> LiveIs(slabs, larges', live', q) { assert LiveIs(slabs, larges, live, q); }
    forall q ensures h in larges && larges[h] == l ==> LiveIs(slabs, larges - {h}, live - {r}, q) {
      assert LiveIs(slabs, larges, live, q);
    }
  }

  /** Allocations stay where they are. */
  ghost predicate Settled(caches: seq<Cache>, slabs: Slabs, larges: Larges, slabs': Slabs, larges': Larges,
                          live: map<Ref, nat>) {
    forall r {:trigger OffsetOf(caches, slabs', larges', r)} :: r in live ==>
      OffsetOf(caches, slabs', larges', r) == OffsetOf(caches, slabs, larges, r)
          && UsableOf(caches, slabs', larges', r) == UsableOf(caches, slabs, larges, r)
  }

  lemma SettledSlab(caches: seq<Cache>, slabs: Slabs, larges: Larges, h: nat, s: Slab, live: map<Ref, nat>)
    requires LiveAre(slabs, larges, live) && (h in slabs ==> s.cache == slabs[h].cache && s.slots == slabs[h].slots)
    ensures Settled(caches, slabs, larges, slabs[h := s], larges, live)
  {
    var slabs' := slabs[h := s];
    forall r | r in live
      ensures
        && OffsetOf(caches, slabs', larges, r) == OffsetOf(caches, slabs, larges, r)
        && UsableOf(caches, slabs', larges, r) == UsableOf(caches, slabs, larges, r)
    {
      assert LiveIs(slabs, larges, live, r);
    }
  }

  lemma SettledLarge(caches: seq<Cache>, slabs: Slabs, larges: Larges, h: nat, l: Large, live: map<Ref, nat>)
    requires LiveAre(slabs, larges, live) && h !in larges
    ensures Settled(caches, slabs, larges, slabs, larges[h := l], live)
  {
    var larges' := larges[h := l];
    forall r | r in live
      ensures
        && OffsetOf(caches, slabs, larges', r) == OffsetOf(caches, slabs, larges, r)
        && UsableOf(caches, slabs, larges', r) == UsableOf(caches, slabs, larges, r)
    {
      assert LiveIs(slabs, larges, live, r);
    }
  }

  ghost predicate HeapOk(blocks: map<int, nat>, caches: seq<Cache>, slabs: Slabs, larges: Larges, queues: seq<Queue>,
                         live: map<Ref, nat>) {
    StateOk(blocks, caches, slabs, larges) && |queues| == |caches| && AllQueued(slabs, queues)
        && LiveAre(slabs, larges, live)
  }

  // ---- Steps of the slab allocator ----

  function NewSlab(c: nat, slots: Slots): Slab { Slab(c, slots, seq(slots.count, i => i), map[]) }

  lemma NewSlabOk(caches: seq<Cache>, c: nat, slots: Slots)
    requires c < |caches| && SlotsOk(caches[c], slots)
    ensures SlabOk(caches, NewSlab(c, slots)) && KindOf(NewSlab(c, slots)) == Empty && NewSlab(c, slots).free != []
  {
    var s := NewSlab(c, slots);
    forall i: nat ensures i in s.free <==> i < slots.count { if i < slots.count { assert s.free[i] == i; } }
  }

  lemma CreateStep(blocks: map<int, nat>, caches: seq<Cache>, slabs: Slabs, larges: Larges, queues: seq<Queue>,
                   live: map<Ref, nat>, h: nat, c: nat, slots: Slots)
    requires
      && HeapOk(blocks, caches, slabs, larges, queues, live) && h !in blocks && c < |caches|
      && SlotsOk(caches[c], slots)
    ensures var s := NewSlab(c, slots);
            HeapOk(blocks[h := caches[c].order], caches, slabs[h := s], larges, queues[c := Push(queues[c], Empty, h)],
                   live)
    ensures h !in slabs && Settled(caches, slabs, larges, slabs[h := NewSlab(c, slots)], larges, live)
  {
    var s := NewSlab(c, slots);
    NewSlabOk(caches, c, slots);
    hide StateOk, AllQueued, LiveAre, SlabOk;
    SlabAdded(blocks, caches, slabs, larges, h, s);
    Queued(slabs, queues, h, s, c);
    LiveUnused(slabs, larges, live, h, s);
    SettledSlab(caches, slabs, larges, h, s, live);
  }

  lemma GiveStep(blocks: map<int, nat>, caches: seq<Cache>, slabs: Slabs, larges: Larges, queues: seq<Queue>,
                 live: map<Ref, nat>, h: nat, size: nat)
    requires HeapOk(blocks, caches, slabs, larges, queues, live) && h in slabs && SlabOk(caches, slabs[h])
    requires slabs[h].free != [] && 0 < size <= caches[slabs[h].cache].objectSize
    ensures var s, c := slabs[h], slabs[h].cache;
            var s' := Given(s, size);
            && s.free[0] < s.slots.count && Object(h, s.free[0]) !in live
            && HeapOk(blocks, caches, slabs[h := s'], larges,
                      queues[c := Push(Drop(queues[c], KindOf(s), h), KindOf(s'), h)],
                          live[Object(h, s.free[0]) := size])
            && Settled(caches, slabs, larges, slabs[h := s'], larges, live)
            && KindOf(s') == if |s.requested| + 1 == s.slots.count then Full else Partial
  {
    GivenOk(caches, slabs[h], size);
    var s' := Given(slabs[h], size);
    assert slabs[h].cache < |caches|;
    hide StateOk, AllQueued, LiveAre, SlabOk;
    SlabChanged(blocks, caches, slabs, larges, h, s');
    Requeued(slabs, queues, h, s', slabs[h].cache);
    LiveGiven(slabs, larges, live, h, size);
    SettledSlab(caches, slabs, larges, h, s', live);
  }

  lemma ReturnStep(blocks: map<int, nat>, caches: seq<Cache>, slabs: Slabs, larges: Larges, queues: seq<Queue>,
                   live: map<Ref, nat>, h: nat, i: nat)
    requires
      && HeapOk(blocks, caches, slabs, larges, queues, live) && h in slabs && SlabOk(caches, slabs[h])
      && i in slabs[h].requested
    ensures var s, c, s' := slabs[h], slabs[h].cache, Returned(slabs[h], i);
            && Object(h, i) in live && live[Object(h, i)] == s.requested[i]
            && HeapOk(blocks, caches, slabs[h := s'], larges,
                      queues[c := Push(Drop(queues[c], KindOf(s), h), KindOf(s'), h)], live - {Object(h, i)})
            && Settled(caches, slabs, larges, slabs[h := s'], larges, live)
            && KindOf(s') == if |s.requested| == 1 then Empty else Partial
  {
    ReturnedOk(caches, slabs[h], i);
    var s' := Returned(slabs[h], i);
    assert slabs[h].cache < |caches|;
    hide StateOk, AllQueued, LiveAre, SlabOk;
    SlabChanged(blocks, caches, slabs, larges, h, s');
    Requeued(slabs, queues, h, s', slabs[h].cache);
    LiveReturned(slabs, larges, live, h, i);
    SettledSlab(caches, slabs, larges, h, s', live);
  }

  lemma ReleaseStep(blocks: map<int, nat>, caches: seq<Cache>, slabs: Slabs, larges: Larges, queues: seq<Queue>,
                    live: map<Ref, nat>, h: nat)
    requires HeapOk(blocks, caches, slabs, larges, queues, live) && h in slabs && slabs[h].requested == map[]
    ensures var c := slabs[h].cache;
            && c < |caches| && h in blocks && blocks[h] == caches[c].order
            && HeapOk(blocks - {h}, caches, slabs - {h}, larges, queues[c := Drop(queues[c], Empty, h)], live)
            && Settled(caches, slabs, larges, slabs - {h}, larges, live)
  {
    SlabDropped(blocks, caches, slabs, larges, h);
    hide StateOk, AllQueued, LiveAre, SlabOk;
    Unqueued(slabs, queues, h, slabs[h].cache);
    LiveUnused(slabs, larges, live, h, slabs[h]);
    SettledDrop(caches, slabs, larges, h, live);
  }

  lemma SettledDrop(caches: seq<Cache>, slabs: Slabs, larges: Larges, h: nat, live: map<Ref, nat>)
    requires LiveAre(slabs, larges, live) && h in slabs && slabs[h].requested == map[]
    ensures Settled(caches, slabs, larges, slabs - {h}, larges, live)
  {
    var slabs' := slabs - {h};
    forall r | r in live
      ensures
        && OffsetOf(caches, slabs', larges, r) == OffsetOf(caches, slabs, larges, r)
        && UsableOf(caches, slabs', larges, r) == UsableOf(caches, slabs, larges, r)
    {
      assert LiveIs(slabs, larges, live, r);
    }
  }

  // ---- The heap ----

  class KernelHeap {
    const pages: Pages
    const base: nat                 // address of page 0
    const caches: seq<Cache>        // the size classes
    var slabs: Slabs
    var larges: Larges
    var queues: seq<Queue>
    var colours: seq<nat>           // the next colour of each cache
    var count: int                  // live allocations
    var bytes: int                  // and the sizes asked for
    ghost var live: map<Ref, nat>

    ghost predicate Sound()
      reads this, pages, pages.buddy, pages.buddy.pages, pages.buddy.freeHead, pages.buddy.freeCount
    {
      && pages.Valid() && 0 < base && Multiple(base, PAGE) && |colours| == |caches|
      && HeapOk(pages.Blocks(), caches, slabs, larges, queues, live)
      && count == |live| && bytes == Sum(live)
    }

    ghost predicate Valid()
      reads this, pages, pages.buddy, pages.buddy.pages, pages.buddy.freeHead, pages.buddy.freeCount
    {
      Sound() && FewEmpty(queues)
    }

    ghost function Address(r: Ref): nat
      reads this
    {
      AddressOf(base, caches, slabs, larges, r)
    }

    /** The pages have a block of this order. */
    ghost predicate BlockLeft(order: nat)
      reads pages, pages.buddy, pages.buddy.pages
    {
      order <= pages.buddy.maxOrder && pages.buddy.FreeRun(order)
    }

    /** An object of the cache can be had: one is free, or the pages for a new slab are. */
    ghost predicate SlabRoom(c: nat)
      requires c < |caches|
      reads this, pages, pages.buddy, pages.buddy.pages
    {
      Spare(slabs, c) || BlockLeft(caches[c].order)
    }

    /** Some free block holds header, bytes and padding. */
    ghost predicate LargeRoom(alignment: nat, size: nat)
      requires 0 < alignment
      reads this, pages, pages.buddy, pages.buddy.pages
    {
      && alignment <= pages.buddy.pages.Length * PAGE
      && BuddyBlocks.Fits(BuddyBlocks.FreeSet(pages.buddy.pages[..]), LargePages(alignment, size), 0,
                          pages.buddy.maxOrder)
    }

    /** The smallest class that holds the size. */
    ghost predicate ClassOf(size: nat, c: nat) {
      c < |caches| && size <= caches[c].objectSize && forall d :: 0 <= d < c ==> caches[d].objectSize < size
    }

    /** A request can be met. */
    ghost predicate Room(size: nat)
      reads this, pages, pages.buddy, pages.buddy.pages
    {
      && size > 0
      && (|| (exists c :: ClassOf(size, c) && SlabRoom(c))
          || ((forall d :: 0 <= d < |caches| ==> caches[d].objectSize < size) && LargeRoom(MIN_ALIGNMENT, size)))
    }

    /** An empty heap. */
    constructor (p: Pages, b: nat, classes: seq<Cache>)
      requires p.Valid() && p.Blocks() == map[] && 0 < b && Multiple(b, PAGE) && CachesOk(classes)
      ensures Valid() && live == map[] && pages == p && base == b && caches == classes
    {
      pages, base, caches := p, b, classes;
      slabs, larges := map[], map[];
      queues := seq(|classes|, _ => Queue([], [], []));
      colours := seq(|classes|, _ => 0);
      count, bytes := 0, 0;
      live := map[];
      new;
      forall h ensures BlockOk(pages.Blocks(), caches, slabs, larges, h) {}
      forall c, k ensures SlabsOf(slabs, c, k) == {} {}
    }

    /** slab_create_locked */
    method CreateSlab(c: nat) returns (h: Option<nat>)
      requires Valid() && c < |caches| && queues[c].empty == []
      modifies this, pages.buddy, pages.buddy.pages, pages.buddy.freeHead, pages.buddy.freeCount
      ensures Valid() && live == old(live) && Settled(caches, old(slabs), old(larges), slabs, larges, live)
      ensures h.None? ==> slabs == old(slabs) && queues == old(queues)
      ensures h.None? <==> caches[c].order > pages.buddy.maxOrder || !old(pages.buddy.FreeRun(caches[c].order))
      ensures h.Some? ==> h.value in slabs && slabs[h.value].cache == c && slabs[h.value].free != []
    {
      hide HeapOk, Sum, Settled;
      CacheFact(caches, c);
      h := pages.Alloc(caches[c].order);
      if h.None? {
        SettledSelf(caches, slabs, larges, live);
        return;
      }
      var slots := Colour(caches[c], colours[c]);
      colours := colours[c := colours[c] + 1];
      CreateStep(old(pages.Blocks()), caches, slabs, larges, queues, live, h.value, c, slots);
      NewSlabOk(caches, c, slots);
      slabs := slabs[h.value := NewSlab(c, slots)];
      queues := queues[c := Push(queues[c], Empty, h.value)];
    }

    lemma CacheFact(cs: seq<Cache>, c: nat)
      requires Valid() && c < |caches| && cs == caches
      ensures CacheOk(caches[c]) && c < |queues|
    {}

    /** The slab an object is taken from: a partial one, an empty one, or a new one. */
    method PickSlab(c: nat) returns (h: Option<nat>)
      requires Valid() && c < |caches|
      modifies this, pages.buddy, pages.buddy.pages, pages.buddy.freeHead, pages.buddy.freeCount
      ensures Valid() && live == old(live) && Settled(caches, old(slabs), old(larges), slabs, larges, live)
      ensures h.Some? ==>
          h.value in slabs && slabs[h.value].cache == c && slabs[h.value].free != [] && SlabOk(caches, slabs[h.value])
      ensures h.None? ==> slabs == old(slabs) && queues == old(queues)
      ensures h.Some? <==> old(SlabRoom(c))
    {
      hide HeapOk, Sum, Settled, SlabOk, Spare;
      CacheFact(caches, c);
      SpareListed(pages.Blocks(), caches, slabs, larges, queues, live, c);
      SettledSelf(caches, slabs, larges, live);
      var q := queues[c];
      if q.partial != [] {
        HeadOf(pages.Blocks(), caches, slabs, larges, queues, live, c, Partial);
        h := Some(q.partial[0]);
      } else if q.empty != [] {
        HeadOf(pages.Blocks(), caches, slabs, larges, queues, live, c, Empty);
        h := Some(q.empty[0]);
      } else {
        h := CreateSlab(c);
      }
      if h.Some? { SlabFact(pages.Blocks(), caches, slabs, larges, queues, live, h.value); }
    }

    /** cache_alloc_requested */
    method AllocObject(c: nat, size: nat) returns (addr: nat, ghost r: Ref)
      requires Valid() && c < |caches| && 0 < size <= caches[c].objectSize
      modifies this, pages.buddy, pages.buddy.pages, pages.buddy.freeHead, pages.buddy.freeCount
      ensures Valid() && Settled(caches, old(slabs), old(larges), slabs, larges, old(live))
      ensures addr == 0 ==> live == old(live)
      ensures addr != 0 <==> old(SlabRoom(c))
      ensures addr != 0 ==> r !in old(live) && live == old(live)[r := size] && addr == Address(r)
      ensures addr != 0 ==>
          Multiple(addr, caches[c].alignment) && UsableOf(caches, slabs, larges, r) == caches[c].objectSize
    {
      hide HeapOk, Sum, Settled, SlabOk, CacheOk, Multiple, Sound, SlabRoom;
      r := Whole(0);
      var picked := PickSlab(c);
      if picked.None? { return 0, r; }
      var h := picked.value;
      ghost var before := slabs;
      var i := HandOut(h, size);
      r := Object(h, i);
      addr := base + h * PAGE + ObjectAt(caches[c], slabs[h].slots, i);
      SettledTwice(caches, old(slabs), old(larges), before, larges, slabs, larges, old(live));
      Placed(h, i);
    }

    lemma Placed(h: nat, i: nat)
      requires Valid() && Object(h, i) in live
      ensures h in slabs && slabs[h].cache < |caches|
      ensures var c := caches[slabs[h].cache];
              && Address(Object(h, i)) == base + h * PAGE + ObjectAt(c, slabs[h].slots, i) && Address(Object(h, i)) > 0
              && Multiple(Address(Object(h, i)), c.alignment)
                 && UsableOf(caches, slabs, larges, Object(h, i)) == c.objectSize
    {
      assert LiveIs(slabs, larges, live, Object(h, i));
      SlabFact(pages.Blocks(), caches, slabs, larges, queues, live, h);
      AlignedObject(base, caches, slabs[h].cache, slabs[h], h, i);
    }

    /** Take the top free object of a slab. */
    method HandOut(h: nat, size: nat) returns (i: nat)
      requires
        && Valid() && h in slabs && slabs[h].free != [] && SlabOk(caches, slabs[h])
        && 0 < size <= caches[slabs[h].cache].objectSize
      modifies this
      ensures Valid() && Object(h, i) !in old(live) && live == old(live)[Object(h, i) := size]
      ensures Settled(caches, old(slabs), old(larges), slabs, larges, old(live)) && larges == old(larges)
      ensures slabs.Keys == old(slabs).Keys && slabs[h].cache == old(slabs)[h].cache
    {
      hide HeapOk, Sum, Settled, SlabOk, CacheOk, Multiple;
      SlabFact(pages.Blocks(), caches, slabs, larges, queues, live, h);
      var s := slabs[h];
      var c := s.cache;
      i := s.free[0];
      GiveStep(pages.Blocks(), caches, slabs, larges, queues, live, h, size);
      SumWith(live, Object(h, i), size);
      FewerEmpty(queues, c, KindOf(s), h, KindOf(Given(s, size)));
      queues := queues[c := Push(Drop(queues[c], KindOf(s), h), KindOf(Given(s, size)), h)];
      slabs := slabs[h := Given(s, size)];
      live := live[Object(h, i) := size];
      count := count + 1;
      bytes := bytes + size;
    }

    /** cache_free_object: accepts exactly the address of an object in use. */
    method FreeObject(h: nat, offset: nat) returns (ok: bool, ghost r: Ref)
      requires Valid() && h in slabs
      modifies this, pages.buddy, pages.buddy.pages, pages.buddy.freeHead, pages.buddy.freeCount
      ensures Valid() && Settled(caches, old(slabs), old(larges), slabs, larges, live)
      ensures ok ==>
          r in old(live) && live == old(live) - {r} && r.page == h
              && OffsetOf(caches, old(slabs), old(larges), r) == offset
      ensures !ok ==> live == old(live) && slabs == old(slabs) && larges == old(larges)
      ensures !ok ==> forall i :: Object(h, i) in live ==> OffsetOf(caches, slabs, larges, Object(h, i)) != offset
    {
      hide HeapOk, Sum, Settled, SlabOk, CacheOk, ObjectAt;
      r := Whole(0);
      SlabFact(pages.Blocks(), caches, slabs, larges, queues, live, h);
      SettledSelf(caches, slabs, larges, live);
      var s := slabs[h];
      var cache := caches[s.cache];
      var i := IndexOf(cache, s.slots, offset);
      LiveObjects(pages.Blocks(), caches, slabs, larges, queues, live, h);
      if i.None? || i.value !in s.requested {
        NotInUse(cache, s, offset);
        return false, r;
      }
      r := Object(h, i.value);
      Reinsert(h, i.value);
      ok := true;
    }

    /** Take an object back; a second empty slab of the cache goes back to the pages. */
    method Reinsert(h: nat, i: nat)
      requires Valid() && h in slabs && i in slabs[h].requested
      modifies this, pages.buddy, pages.buddy.pages, pages.buddy.freeHead, pages.buddy.freeCount
      ensures Valid() && Object(h, i) in old(live) && live == old(live) - {Object(h, i)}
      ensures Settled(caches, old(slabs), old(larges), slabs, larges, live)
    {
      hide HeapOk, Sum, Settled, SlabOk, CacheOk, Sound;
      var c := slabs[h].cache;
      ghost var kind := KindOf(slabs[h]);
      TakeBack(h, i);
      if slabs[h].requested == map[] && |queues[c].empty| > 1 {
        ghost var before, was := slabs, queues;
        ReleaseSlab(h);
        OneEmptyLeft(old(queues), was, queues, c, kind, h);
        SettledTwice(caches, old(slabs), old(larges), before, larges, slabs, larges, live);
      }
    }

    method TakeBack(h: nat, i: nat)
      requires Valid() && h in slabs && i in slabs[h].requested
      modifies this
      ensures Sound() && Object(h, i) in old(live) && live == old(live) - {Object(h, i)}
      ensures Settled(caches, old(slabs), old(larges), slabs, larges, live) && larges == old(larges)
      ensures var s, s' := old(slabs)[h], Returned(old(slabs)[h], i);
              && slabs == old(slabs)[h := s'] && s.cache < |queues| == |old(queues)|
              && queues == old(queues)[s.cache := Push(Drop(old(queues)[s.cache], KindOf(s), h), KindOf(s'), h)]
              && KindOf(s) != Empty && (FewEmpty(queues) || (KindOf(s') == Empty && |queues[s.cache].empty| > 1))
    {
      hide HeapOk, Sum, Settled, SlabOk, CacheOk, Pages.Valid, Pages.Blocks, Drop, Push, Multiple;
      SlabFact(pages.Blocks(), caches, slabs, larges, queues, live, h);
      var s := slabs[h];
      var c := s.cache;
      var s' := Returned(s, i);
      ReturnStep(pages.Blocks(), caches, slabs, larges, queues, live, h, i);
      SumWithout(live, Object(h, i));
      SettledFewer(caches, slabs, larges, slabs[h := s'], larges, live, Object(h, i));
      MoreEmpty(queues, c, KindOf(s), h, KindOf(s'));
      queues := queues[c := Push(Drop(queues[c], KindOf(s), h), KindOf(s'), h)];
      slabs := slabs[h := s'];
      live := live - {Object(h, i)};
      count := count - 1;
      bytes := bytes - s.requested[i];
    }

    /** slab_release_locked */
    method ReleaseSlab(h: nat)
      requires Sound() && h in slabs && slabs[h].requested == map[]
      modifies this, pages.buddy, pages.buddy.pages, pages.buddy.freeHead, pages.buddy.freeCount
      ensures Sound() && live == old(live) && larges == old(larges) && slabs == old(slabs) - {h}
      ensures old(slabs)[h].cache < |old(queues)|
      ensures queues == old(queues)[old(slabs)[h].cache := Drop(old(queues)[old(slabs)[h].cache], Empty, h)]
      ensures Settled(caches, old(slabs), old(larges), slabs, larges, live)
    {
      hide HeapOk, Sum, Settled, SlabOk, CacheOk;
      SlabFact(pages.Blocks(), caches, slabs, larges, queues, live, h);
      var c := slabs[h].cache;
      ReleaseStep(pages.Blocks(), caches, slabs, larges, queues, live, h);
      var ok := pages.Free(h, caches[c].order);
      queues := queues[c := Drop(queues[c], Empty, h)];
      slabs := slabs - {h};
    }

    /** large_alloc, for an alignment that is a power of two */
    method LargeAlloc(alignment: nat, size: nat) returns (addr: nat, ghost r: Ref)
      requires Valid() && 0 < alignment && 0 < size
      modifies this, pages.buddy, pages.buddy.pages, pages.buddy.freeHead, pages.buddy.freeCount
      ensures Valid() && Settled(caches, old(slabs), old(larges), slabs, larges, old(live))
      ensures addr == 0 ==> live == old(live)
      ensures addr != 0 <==> old(LargeRoom(alignment, size))
      ensures addr != 0 ==> r !in old(live) && live == old(live)[r := size] && addr == Address(r)
      ensures addr != 0 ==> Multiple(addr, alignment) && UsableOf(caches, slabs, larges, r) >= size
    {
      hide HeapOk, Sum, Settled, AlignUp, Multiple, Bytes, BuddyBlocks.Fits, BuddyBlocks.AlignedRun, Pages.Valid,
          FewEmpty;
      r := Whole(0);
      SettledSelf(caches, slabs, larges, live);
      if alignment > pages.buddy.pages.Length * PAGE { return 0, r; }
      var needed := LARGE_HEADER + size + alignment - 1;
      var n := (needed + PAGE - 1) / PAGE;
      var order := OrderForUnits(n, pages.buddy.configMax);
      LargeOrder(n, order);
      if order > pages.buddy.maxOrder { return 0, r; }
      var h := pages.Alloc(order);
      if h.None? { return 0, r; }
      var start := base + h.value * PAGE;
      addr := AlignUp(start + LARGE_HEADER, alignment);
      AlignUpIs(start + LARGE_HEADER, alignment);
      var l := Large(order, addr - start, size);
      LargeFits(l, alignment, needed, n);
      r := Whole(h.value);
      LargeStep(old(pages.Blocks()), caches, slabs, larges, queues, live, h.value, l);
      SumWith(live, r, size);
      larges := larges[h.value := l];
      live := live[r := size];
      count := count + 1;
      bytes := bytes + size;
    }

    /** The order chosen for n pages decides whether they can be had. */
    lemma LargeOrder(n: nat, order: nat)
      requires Valid() && 0 < n && order <= pages.buddy.configMax + 1 && (0 < order ==> Pow2(order - 1) < n)
      requires order <= pages.buddy.configMax ==> n <= Pow2(order)
      ensures order <= pages.buddy.maxOrder ==> n <= Pow2(order)
      ensures BuddyBlocks.Fits(BuddyBlocks.FreeSet(pages.buddy.pages[..]), n, 0, pages.buddy.maxOrder) <==>
          BlockLeft(order)
    {
      assert pages.buddy.Valid() && pages.buddy.maxOrder <= pages.buddy.configMax;
      var s := BuddyBlocks.FreeSet(pages.buddy.pages[..]);
      if order <= pages.buddy.maxOrder {
        BuddyBlocks.LeastOrderDecides(s, n, 0, pages.buddy.maxOrder, order);
      } else if BuddyBlocks.Fits(s, n, 0, pages.buddy.maxOrder) {
        var o: nat :| 0 <= o <= pages.buddy.maxOrder && n <= Pow2(o) && BuddyBlocks.AlignedRun(s, o);
        Pow2Monotone(o, order - 1);
      }
    }

    /** The large half of free. */
    method FreeLarge(h: nat) returns (ghost r: Ref)
      requires Valid() && h in larges
      modifies this, pages.buddy, pages.buddy.pages, pages.buddy.freeHead, pages.buddy.freeCount
      ensures Valid() && r == Whole(h) && r in old(live) && live == old(live) - {r}
      ensures Settled(caches, old(slabs), old(larges), slabs, larges, live)
    {
      hide HeapOk, Sum, Settled, Multiple, Pages.Valid, FewEmpty;
      r := Whole(h);
      UnlargeStep(pages.Blocks(), caches, slabs, larges, queues, live, h);
      SumWithout(live, r);
      var size := larges[h].requested;
      var ok := pages.Free(h, larges[h].order);
      larges := larges - {h};
      live := live - {r};
      count := count - 1;
      bytes := bytes - size;
    }

    /** free: takes back exactly the address of a live allocation and refuses everything else. */
    method Free(pointer: nat) returns (ok: bool, ghost r: Ref)
      requires Valid()
      modifies this, pages.buddy, pages.buddy.pages, pages.buddy.freeHead, pages.buddy.freeCount
      ensures Valid() && Settled(caches, old(slabs), old(larges), slabs, larges, live)
      ensures ok ==> r in old(live) && old(Address(r)) == pointer && live == old(live) - {r}
      ensures !ok ==> live == old(live) && slabs == old(slabs) && larges == old(larges)
      ensures !ok ==> forall q :: q in live ==> Address(q) != pointer
    {
      hide HeapOk, Sum, Settled, OffsetOf, AddressOf;
      r := Whole(0);
      SettledSelf(caches, slabs, larges, live);
      AddressesInside();
      if pointer < base || pointer >= base + pages.buddy.pages.Length * PAGE { return false, r; }
      var page := (pointer - base) / PAGE;
      var owner := pages.Owner(page);
      OwnersFound(pointer, page, owner);
      if owner.None? { return false, r; }
      var h := owner.value;
      OwnerKind(h, page);
      var offset := pointer - base - h * PAGE;
      AddressParts();
      if h in slabs {
        OnlyObjects(h);
        ok, r := FreeObject(h, offset);
        return;
      }
      NoObjects(h);
      if larges[h].user != offset { return false, r; }
      r := FreeLarge(h);
      ok := true;
    }

    /** No live allocation lies outside the heap. */
    lemma AddressesInside()
      requires Valid()
      ensures forall q :: q in live ==> base < Address(q) < base + pages.buddy.pages.Length * PAGE
    {
      forall q | q in live ensures base < Address(q) < base + pages.buddy.pages.Length * PAGE {
        assert LiveIs(slabs, larges, live, q);
        LiveInside(pages.Blocks(), caches, slabs, larges, q);
        BlockInside(pages.buddy.pages[..], pages.buddy.maxOrder, q.page);
        hide OffsetOf, UsableOf, HeapOk;
      }
    }

    /** The owner of a page is the block of every allocation that starts on it. */
    lemma OwnersFound(pointer: nat, page: nat, owner: Option<nat>)
      requires Valid() && base <= pointer && page == (pointer - base) / PAGE
      requires owner.Some? ==> InAllocated(pages.buddy.pages[..], owner.value, page)
      requires owner.None? ==> forall k :: !InAllocated(pages.buddy.pages[..], k, page)
      ensures forall q :: q in live && Address(q) == pointer ==> owner == Some(q.page)
    {
      forall q | q in live && Address(q) == pointer ensures owner == Some(q.page) {
        assert LiveIs(slabs, larges, live, q);
        OwnPage(pages.Blocks(), base, caches, slabs, larges, q);
        assert InAllocated(pages.buddy.pages[..], q.page, page);
        BlocksApart(pages.buddy.pages[..], pages.buddy.maxOrder, q.page, owner.value, page);
      }
    }

    lemma OwnerKind(h: nat, page: nat)
      requires Valid() && InAllocated(pages.buddy.pages[..], h, page)
      ensures h <= page && (h in slabs || h in larges) && !(h in slabs && h in larges)
    {
      assert BlockOk(pages.Blocks(), caches, slabs, larges, h);
    }

    lemma AddressParts()
      ensures forall q :: Address(q) == base + q.page * PAGE + OffsetOf(caches, slabs, larges, q)
    {}

    lemma OnlyObjects(h: nat)
      requires Valid() && h !in larges
      ensures forall q :: q in live && q.page == h ==> q.Object?
    {
      forall q | q in live && q.page == h ensures q.Object? { assert LiveIs(slabs, larges, live, q); }
    }

    /** In a large block there is one allocation only. */
    lemma NoObjects(h: nat)
      requires Valid() && h !in slabs
      ensures forall q :: q in live && q.page == h ==> q == Whole(h)
      ensures h in larges ==> Whole(h) in live && OffsetOf(caches, slabs, larges, Whole(h)) == larges[h].user
    {
      assert LiveIs(slabs, larges, live, Whole(h));
      forall q | q in live && q.page == h ensures q == Whole(h) { assert LiveIs(slabs, larges, live, q); }
    }

    /** No two live allocations share a byte. */
    lemma NoOverlap(q: Ref, r: Ref)
      requires Valid() && q in live && r in live && q != r
      ensures Address(q) + UsableOf(caches, slabs, larges, q) <= Address(r)
          || Address(r) + UsableOf(caches, slabs, larges, r) <= Address(q)
    {
      assert LiveIs(slabs, larges, live, q) && LiveIs(slabs, larges, live, r);
      assert Apart(pages.Blocks()) by { BlocksAreApart(pages.buddy.pages[..], pages.buddy.maxOrder); }
      LiveApart(pages.Blocks(), base, caches, slabs, larges, q, r);
    }

    /** cache_for_size */
    method CacheFor(size: nat) returns (c: Option<nat>)
      ensures c.Some? ==> ClassOf(size, c.value)
      ensures c.None? ==> forall d :: 0 <= d < |caches| ==> caches[d].objectSize < size
    {
      for i := 0 to |caches|
        invariant forall d :: 0 <= d < i ==> caches[d].objectSize < size
      {
        if size <= caches[i].objectSize { return Some(i); }
      }
      return None;
    }

    /** malloc */
    method Malloc(size: nat) returns (addr: nat, ghost r: Ref)
      requires Valid()
      modifies this, pages.buddy, pages.buddy.pages, pages.buddy.freeHead, pages.buddy.freeCount
      ensures Valid() && Settled(caches, old(slabs), old(larges), slabs, larges, old(live))
      ensures addr == 0 ==> live == old(live)
      ensures addr != 0 <==> old(Room(size))
      ensures addr != 0 ==> r !in old(live) && live == old(live)[r := size] && addr == Address(r)
      ensures addr != 0 ==> 0 < size <= UsableOf(caches, slabs, larges, r)
      ensures addr != 0 ==> Multiple(addr, MIN_ALIGNMENT)
    {
      hide HeapOk, Sum, Settled, Multiple, SlabRoom, LargeRoom;
      r := Whole(0);
      SettledSelf(caches, slabs, larges, live);
      if size == 0 { return 0, r; }
      var c := CacheFor(size);
      if c.Some? {
        CacheFact(caches, c.value);
        addr, r := AllocObject(c.value, size);
        if addr != 0 { MultipleOfMultiple(addr, caches[c.value].alignment, MIN_ALIGNMENT); }
      } else {
        addr, r := LargeAlloc(MIN_ALIGNMENT, size);
      }
    }

    /** aligned_alloc */
    method AlignedAlloc(alignment: nat, size: nat) returns (addr: nat, ghost r: Ref)
      requires Valid()
      modifies this, pages.buddy, pages.buddy.pages, pages.buddy.freeHead, pages.buddy.freeCount
      ensures Valid() && Settled(caches, old(slabs), old(larges), slabs, larges, old(live))
      ensures addr == 0 ==> live == old(live)
      ensures addr != 0 <==>
                && size > 0 && AlignmentOk(alignment) && alignment >= POINTER_SIZE
                && old(if alignment <= MIN_ALIGNMENT then Room(size) else LargeRoom(alignment, size))
      ensures addr != 0 ==> r !in old(live) && live == old(live)[r := size] && addr == Address(r)
      ensures addr != 0 ==> 0 < size <= UsableOf(caches, slabs, larges, r)
      ensures addr != 0 ==> Multiple(addr, alignment)
    {
      hide HeapOk, Sum, Settled, Multiple, Room, LargeRoom, AlignmentOk;
      r := Whole(0);
      SettledSelf(caches, slabs, larges, live);
      var valid := ValidAlignment(alignment);
      if size == 0 || !valid || alignment < POINTER_SIZE { return 0, r; }
      if alignment <= MIN_ALIGNMENT {
        addr, r := Malloc(size);
        if addr != 0 {
          SmallAlignment(alignment);
          MultipleOfMultiple(addr, MIN_ALIGNMENT, alignment);
        }
      } else {
        addr, r := LargeAlloc(alignment, size);
      }
    }

    /** requested_size and usable_size: the allocation a pointer stands for, if there is one. */
    method Find(pointer: nat) returns (r: Option<Ref>)
      requires Valid()
      ensures r.Some? ==> r.value in live && Address(r.value) == pointer
      ensures r.None? ==> forall q :: q in live ==> Address(q) != pointer
    {
      hide HeapOk, Sum, OffsetOf, AddressOf, ObjectAt, CacheOk, SlabOk;
      AddressesInside();
      if pointer < base || pointer >= base + pages.buddy.pages.Length * PAGE { return None; }
      var page := (pointer - base) / PAGE;
      var owner := pages.Owner(page);
      OwnersFound(pointer, page, owner);
      if owner.None? { return None; }
      var h := owner.value;
      OwnerKind(h, page);
      var offset := pointer - base - h * PAGE;
      AddressParts();
      if h in slabs {
        OnlyObjects(h);
        SlabFact(pages.Blocks(), caches, slabs, larges, queues, live, h);
        LiveObjects(pages.Blocks(), caches, slabs, larges, queues, live, h);
        var s := slabs[h];
        var i := IndexOf(caches[s.cache], s.slots, offset);
        ObjectParts(h);
        if i.None? || i.value !in s.requested {
          NotInUse(caches[s.cache], s, offset);
          return None;
        }
        return Some(Object(h, i.value));
      }
      NoObjects(h);
      if larges[h].user != offset { return None; }
      return Some(Whole(h));
    }

    lemma ObjectParts(h: nat)
      requires h in slabs && slabs[h].cache < |caches|
      ensures forall i ::
          OffsetOf(caches, slabs, larges, Object(h, i)) == ObjectAt(caches[slabs[h].cache], slabs[h].slots, i)
    {}

    /** The size asked for changes in place. */
    method Resize(r: Ref, size: nat)
      requires Valid() && r in live && 0 < size <= UsableOf(caches, slabs, larges, r)
      modifies this
      ensures Valid() && live == old(live)[r := size]
      ensures Settled(caches, old(slabs), old(larges), slabs, larges, old(live))
    {
      hide HeapOk, Sum, Settled;
      ResizeStep(pages.Blocks(), caches, slabs, larges, queues, live, r, size);
      SumChanged(live, r, size);
      bytes := bytes - RequestedOf(slabs, larges, r) + size;
      live := live[r := size];
      match r
      case Object(h, i) => slabs := slabs[h := Asked(slabs[h], i, size)];
      case Whole(h) => larges := larges[h := larges[h].(requested := size)];
    }

    /** realloc; q is the allocation of the pointer, r the one of the result. */
    method Realloc(pointer: nat, size: nat) returns (addr: nat, ghost q: Option<Ref>, ghost r: Ref)
      requires Valid()
      modifies this, pages.buddy, pages.buddy.pages, pages.buddy.freeHead, pages.buddy.freeCount
      ensures Valid()
      ensures q.Some? ==> q.value in old(live) && old(Address(q.value)) == pointer
      ensures q.None? ==> forall p :: p in old(live) ==> old(Address(p)) != pointer
      ensures pointer != 0 && q.None? ==> addr == 0 && live == old(live)
      ensures q.Some? && size == 0 ==> addr == 0 && live == old(live) - {q.value}
      ensures q.Some? && 0 < size <= old(UsableOf(caches, slabs, larges, q.value)) ==>
          addr == pointer && live == old(live)[q.value := size]
      ensures q.Some? && size > old(UsableOf(caches, slabs, larges, q.value)) ==>
                && (addr != 0 <==> old(Room(size)))
                && (addr == 0 ==> live == old(live))
                && (addr != 0 ==>
                    r !in old(live) && addr == Address(r) && live == (old(live) - {q.value})[r := size]
                        && size <= UsableOf(caches, slabs, larges, r))
                && (addr != 0 ==> pointer + old(live)[q.value] <= addr || addr + size <= pointer)
      ensures pointer == 0 ==>
          (addr != 0 <==> old(Room(size))) && live == if addr == 0 then old(live) else old(live)[r := size]
      ensures pointer == 0 && addr != 0 ==>
          r !in old(live) && addr == Address(r) && size <= UsableOf(caches, slabs, larges, r)
      ensures Settled(caches, old(slabs), old(larges), slabs, larges,
                      if q.Some? then old(live) - {q.value} else old(live))
    {
      hide HeapOk, Sum, Settled, OffsetOf, AddressOf, UsableOf, Room, Multiple;
      r := Whole(0);
      AddressesInside();
      var found := Find(pointer);
      q := found;
      if pointer == 0 {
        addr, r := Malloc(size);
        return;
      }
      SettledSelf(caches, slabs, larges, live);
      if found.None? { return 0, q, r; }
      var p := found.value;
      SettledFewer(caches, slabs, larges, slabs, larges, live, p);
      if size == 0 {
        FreeKnown(p, pointer);
        return 0, q, r;
      }
      if size <= UsableOf(caches, slabs, larges, p) {
        Resize(p, size);
        SettledFewer(caches, old(slabs), old(larges), slabs, larges, old(live), p);
        return pointer, q, r;
      }
      addr, r := Move(p, pointer, size);
    }

    /** The half of realloc that moves: the bytes are copied between allocations that are both live. */
    method Move(p: Ref, pointer: nat, size: nat) returns (addr: nat, ghost r: Ref)
      requires Valid() && p in live && Address(p) == pointer
      modifies this, pages.buddy, pages.buddy.pages, pages.buddy.freeHead, pages.buddy.freeCount
      ensures Valid() && Settled(caches, old(slabs), old(larges), slabs, larges, old(live) - {p})
      ensures addr != 0 <==> old(Room(size))
      ensures addr == 0 ==> live == old(live)
      ensures addr != 0 ==>
          r !in old(live) && addr == Address(r) && live == (old(live) - {p})[r := size]
              && size <= UsableOf(caches, slabs, larges, r)
      ensures addr != 0 ==> pointer + old(live)[p] <= addr || addr + size <= pointer
    {
      hide HeapOk, Sum, Settled, OffsetOf, AddressOf, UsableOf, Room, Multiple;
      addr, r := Malloc(size);
      SettledFewer(caches, old(slabs), old(larges), slabs, larges, old(live), p);
      if addr == 0 { return; }
      StillThere(old(slabs), old(larges), old(live), p);
      NoOverlap(p, r);
      RequestedFits(p);
      ghost var s, l := slabs, larges;
      FreeKnown(p, pointer);
      assert live == old(live)[r := size] - {p} == (old(live) - {p})[r := size];
      SettledSubset(caches, s, l, slabs, larges, live, old(live) - {p});
      SettledTwice(caches, old(slabs), old(larges), s, l, slabs, larges, old(live) - {p});
      StillThere(s, l, live, r);
    }

    /** A settled allocation keeps its address. */
    lemma StillThere(s: Slabs, l: Larges, m: map<Ref, nat>, r: Ref)
      requires Settled(caches, s, l, slabs, larges, m) && r in m
      ensures
        && Address(r) == AddressOf(base, caches, s, l, r)
        && UsableOf(caches, slabs, larges, r) == UsableOf(caches, s, l, r)
    {}

    lemma RequestedFits(r: Ref)
      requires Valid() && r in live
      ensures 0 < live[r] <= UsableOf(caches, slabs, larges, r)
    {
      assert LiveIs(slabs, larges, live, r);
      assert BlockOk(pages.Blocks(), caches, slabs, larges, r.page);
    }

    /** Free of an address that is known to be live. */
    method FreeKnown(p: Ref, pointer: nat)
      requires Valid() && p in live && Address(p) == pointer
      modifies this, pages.buddy, pages.buddy.pages, pages.buddy.freeHead, pages.buddy.freeCount
      ensures Valid() && live == old(live) - {p} && Settled(caches, old(slabs), old(larges), slabs, larges, live)
    {
      hide HeapOk, Sum, Settled, OffsetOf, AddressOf, UsableOf;
      OneAddress(p);
      var ok, r := Free(pointer);
    }

    /** No other live allocation has the address. */
    lemma OneAddress(p: Ref)
      requires Valid() && p in live
      ensures forall q :: q in live && Address(q) == Address(p) ==> q == p
    {
      forall q | q in live && Address(q) == Address(p) ensures q == p {
        hide HeapOk, OffsetOf, AddressOf, UsableOf;
        RequestedFits(p);
        RequestedFits(q);
        if q != p { NoOverlap(q, p); }
      }
    }
  }

  const POINTER_SIZE: nat := 8

  /** valid_alignment: a power of two that fits a word */
  method ValidAlignment(a: nat) returns (ok: bool)
    ensures ok <==> AlignmentOk(a)
  {
    var k := OrderForUnits(a, 63);
    ok := k <= 63 && Pow2(k) == a;
    if AlignmentOk(a) {
      ghost var j: nat :| j <= 63 && a == Pow2(j);
      if j < k { Pow2Monotone(j, k - 1); }
      if k < j { Pow2Grows(k, j); }
    }
  }

  lemma SmallAlignment(a: nat)
    requires AlignmentOk(a) && a <= MIN_ALIGNMENT
    ensures Multiple(MIN_ALIGNMENT, a)
  {
    var k: nat :| k <= 63 && a == Pow2(k);
    assert MIN_ALIGNMENT == Pow2(4);
    if k > 4 { Pow2Grows(4, k); }
    PowerDivides(k, 4);
  }

  /** A slab one of whose objects has another size asked for. */
  function Asked(s: Slab, i: nat, size: nat): Slab { s.(requested := s.requested[i := size]) }

  lemma SumChanged(m: map<Ref, nat>, r: Ref, n: nat)
    requires r in m
    ensures Sum(m[r := n]) == Sum(m) - m[r] + n && |m[r := n]| == |m|
  {
    SumWithout(m, r);
    SumWithout(m[r := n], r);
    assert m[r := n] - {r} == m - {r};
    assert m[r := n].Keys == m.Keys && |m| == |m.Keys| && |m[r := n]| == |m[r := n].Keys|;
  }

  /** Another size asked for, within what the owner may use, moves nothing. */
  lemma ResizeStep(blocks: map<int, nat>, caches: seq<Cache>, slabs: Slabs, larges: Larges, queues: seq<Queue>,
                   live: map<Ref, nat>, r: Ref, size: nat)
    requires
      && HeapOk(blocks, caches, slabs, larges, queues, live) && r in live
      && 0 < size <= UsableOf(caches, slabs, larges, r)
    ensures live[r] == RequestedOf(slabs, larges, r)
    ensures r.Object? ==>
              && r.page in slabs
              && var slabs' := slabs[r.page := Asked(slabs[r.page], r.i, size)];
                 HeapOk(blocks, caches, slabs', larges, queues, live[r := size])
                     && Settled(caches, slabs, larges, slabs', larges, live)
    ensures r.Whole? ==>
              && r.page in larges
              && var larges' := larges[r.page := larges[r.page].(requested := size)];
                 HeapOk(blocks, caches, slabs, larges', queues, live[r := size])
                     && Settled(caches, slabs, larges, slabs, larges', live)
  {
    assert LiveIs(slabs, larges, live, r);
    match r
    case Object(h, i) => ResizeObject(blocks, caches, slabs, larges, queues, live, h, i, size);
    case Whole(h) => ResizeLarge(blocks, caches, slabs, larges, queues, live, h, size);
  }

  lemma ResizeObject(blocks: map<int, nat>, caches: seq<Cache>, slabs: Slabs, larges: Larges, queues: seq<Queue>,
                     live: map<Ref, nat>, h: nat, i: nat, size: nat)
    requires HeapOk(blocks, caches, slabs, larges, queues, live) && h in slabs && i in slabs[h].requested
    requires 0 < size <= UsableOf(caches, slabs, larges, Object(h, i))
    ensures var slabs' := slabs[h := Asked(slabs[h], i, size)];
            HeapOk(blocks, caches, slabs', larges, queues, live[Object(h, i) := size])
                && Settled(caches, slabs, larges, slabs', larges, live)
  {
    SlabFact(blocks, caches, slabs, larges, queues, live, h);
    var s := slabs[h];
    var s' := Asked(s, i, size);
    assert s'.requested.Keys == s.requested.Keys;
    assert SlabOk(caches, s') by { assert FreeIndices(s') == FreeIndices(s); }
    assert KindOf(s') == KindOf(s) by { assert |s'.requested| == |s'.requested.Keys| == |s.requested|; }
    var slabs', live' := slabs[h := s'], live[Object(h, i) := size];
    hide StateOk, SlabOk, LiveAre, Settled;
    SlabChanged(blocks, caches, slabs, larges, h, s');
    assert AllQueued(slabs', queues) by { forall c, k ensures SlabsOf(slabs', c, k) == SlabsOf(slabs, c, k) {} }
    assert LiveAre(slabs', larges, live') by { LiveAsked(slabs, larges, live, h, i, size); }
    SettledSlab(caches, slabs, larges, h, s', live);
  }

  lemma LiveAsked(slabs: Slabs, larges: Larges, live: map<Ref, nat>, h: nat, i: nat, size: nat)
    requires LiveAre(slabs, larges, live) && h in slabs && i in slabs[h].requested
    ensures LiveAre(slabs[h := Asked(slabs[h], i, size)], larges, live[Object(h, i) := size])
  {
    var slabs', live' := slabs[h := Asked(slabs[h], i, size)], live[Object(h, i) := size];
    forall q ensures LiveIs(slabs', larges, live', q) { assert LiveIs(slabs, larges, live, q); }
  }

  lemma ResizeLarge(blocks: map<int, nat>, caches: seq<Cache>, slabs: Slabs, larges: Larges, queues: seq<Queue>,
                    live: map<Ref, nat>, h: nat, size: nat)
    requires
      && HeapOk(blocks, caches, slabs, larges, queues, live) && h in larges
      && 0 < size <= UsableOf(caches, slabs, larges, Whole(h))
    ensures var larges' := larges[h := larges[h].(requested := size)];
            HeapOk(blocks, caches, slabs, larges', queues, live[Whole(h) := size])
                && Settled(caches, slabs, larges, slabs, larges', live)
  {
    var larges', live' := larges[h := larges[h].(requested := size)], live[Whole(h) := size];
    assert BlockOk(blocks, caches, slabs, larges, h);
    assert LargeOk(larges'[h]);
    hide SlabOk, LargeOk, CachesOk, Bytes;
    forall k ensures BlockOk(blocks, caches, slabs, larges', k) { assert BlockOk(blocks, caches, slabs, larges, k); }
    forall q ensures LiveIs(slabs, larges', live', q) { assert LiveIs(slabs, larges, live, q); }
    forall q ensures OffsetOf(caches, slabs, larges', q) == OffsetOf(caches, slabs, larges, q)
        && UsableOf(caches, slabs, larges', q) == UsableOf(caches, slabs, larges, q) {}
  }

  /** A slab of the cache has a free object. */
  ghost predicate Spare(slabs: Slabs, c: nat) { exists h :: h in slabs && slabs[h].cache == c && slabs[h].free != [] }

  /** The pages of a large allocation: header, bytes and padding. */
  function LargePages(alignment: nat, size: nat): nat
    requires 0 < alignment
  {
    (LARGE_HEADER + size + alignment - 1 + PAGE - 1) / PAGE
  }

  /** The lists of a cache show whether it has a free object. */
  lemma SpareListed(blocks: map<int, nat>, caches: seq<Cache>, slabs: Slabs, larges: Larges, queues: seq<Queue>,
                    live: map<Ref, nat>, c: nat)
    requires HeapOk(blocks, caches, slabs, larges, queues, live) && c < |queues|
    ensures Spare(slabs, c) <==> queues[c].partial != [] || queues[c].empty != []
  {
    if queues[c].partial != [] { HeadOf(blocks, caches, slabs, larges, queues, live, c, Partial); }
    if queues[c].empty != [] { HeadOf(blocks, caches, slabs, larges, queues, live, c, Empty); }
    if Spare(slabs, c) {
      var h :| h in slabs && slabs[h].cache == c && slabs[h].free != [];
      SlabFact(blocks, caches, slabs, larges, queues, live, h);
      InUse(caches, slabs[h]);
      var k := KindOf(slabs[h]);
      assert QueueOk(slabs, queues[c], c) && ListOk(slabs, queues[c], c, k);
      assert h in SlabsOf(slabs, c, k);
    }
  }

  lemma LargeFits(l: Large, alignment: nat, needed: nat, n: nat)
    requires LARGE_HEADER <= l.user < LARGE_HEADER + alignment && 0 < l.requested && n <= Pow2(l.order)
    requires needed == LARGE_HEADER + l.requested + alignment - 1 && n == (needed + PAGE - 1) / PAGE
    ensures LargeOk(l)
  {
    assert needed <= n * PAGE;
  }

  lemma LargeStep(blocks: map<int, nat>, caches: seq<Cache>, slabs: Slabs, larges: Larges, queues: seq<Queue>,
                  live: map<Ref, nat>, h: nat, l: Large)
    requires HeapOk(blocks, caches, slabs, larges, queues, live) && h !in blocks && LargeOk(l)
    ensures
      && Whole(h) !in live
      && HeapOk(blocks[h := l.order], caches, slabs, larges[h := l], queues, live[Whole(h) := l.requested])
    ensures Settled(caches, slabs, larges, slabs, larges[h := l], live)
    ensures
      && UsableOf(caches, slabs, larges[h := l], Whole(h)) >= l.requested
      && OffsetOf(caches, slabs, larges[h := l], Whole(h)) == l.user
  {
    hide StateOk, AllQueued, LiveAre;
    LargeAdded(blocks, caches, slabs, larges, h, l);
    LiveLarge(slabs, larges, live, h, l);
    SettledLarge(caches, slabs, larges, h, l, live);
  }

  lemma UnlargeStep(blocks: map<int, nat>, caches: seq<Cache>, slabs: Slabs, larges: Larges, queues: seq<Queue>,
                    live: map<Ref, nat>, h: nat)
    requires HeapOk(blocks, caches, slabs, larges, queues, live) && h in larges
    ensures Whole(h) in live && live[Whole(h)] == larges[h].requested && h in blocks && blocks[h] == larges[h].order
    ensures HeapOk(blocks - {h}, caches, slabs, larges - {h}, queues, live - {Whole(h)})
    ensures Settled(caches, slabs, larges, slabs, larges - {h}, live - {Whole(h)})
  {
    LargeDropped(blocks, caches, slabs, larges, h);
    LiveLarge(slabs, larges, live, h, larges[h]);
    hide StateOk, AllQueued;
    forall r | r in live - {Whole(h)} ensures r != Whole(h) && Live(slabs, larges, r) {
      assert LiveIs(slabs, larges, live, r);
    }
  }

  lemma BlocksAreApart(pages: seq<BuddyPages.Page>, maxOrder: nat)
    requires BuddyBlocks.BlocksOk(pages, maxOrder)
    ensures Apart(BuddyBlocks.Allocated(pages))
  {
    var blocks := BuddyBlocks.Allocated(pages);
    forall h, k | h in blocks && k in blocks && h < k ensures h + Pow2(blocks[h]) <= k {
      assert InBlock(k, k, blocks[k]) && InAllocated(pages, k, k);
      if k < h + Pow2(blocks[h]) { BlocksApart(pages, maxOrder, h, k, k); }
    }
  }

  lemma NotInUse(c: Cache, s: Slab, offset: nat)
    requires CacheOk(c) && (forall i :: i in s.requested ==> i < s.slots.count)
    requires IndexOf(c, s.slots, offset).None? || IndexOf(c, s.slots, offset).value !in s.requested
    ensures forall j :: j in s.requested ==> ObjectAt(c, s.slots, j) != offset
  {
    IndexSound(c, s.slots, offset);
  }

  /** The head of a list is a slab of its kind, with a free object unless it is full. */
  lemma HeadOf(blocks: map<int, nat>, caches: seq<Cache>, slabs: Slabs, larges: Larges, queues: seq<Queue>,
               live: map<Ref, nat>, c: nat, k: Kind)
    requires
      && HeapOk(blocks, caches, slabs, larges, queues, live) && c < |queues| && ListOf(queues[c], k) != [] && k != Full
    ensures var h := ListOf(queues[c], k)[0];
        h in slabs && slabs[h].cache == c && KindOf(slabs[h]) == k && slabs[h].free != []
  {
    var h := ListOf(queues[c], k)[0];
    assert QueueOk(slabs, queues[c], c) && ListOk(slabs, queues[c], c, k);
    assert h in ListOf(queues[c], k);
    assert h in SlabsOf(slabs, c, k);
    assert BlockOk(blocks, caches, slabs, larges, h);
    InUse(caches, slabs[h]);
  }

  lemma SlabFact(blocks: map<int, nat>, caches: seq<Cache>, slabs: Slabs, larges: Larges, queues: seq<Queue>,
                 live: map<Ref, nat>, h: nat)
    requires HeapOk(blocks, caches, slabs, larges, queues, live) && h in slabs
    ensures SlabOk(caches, slabs[h]) && slabs[h].cache < |caches| == |queues| && CacheOk(caches[slabs[h].cache])
    ensures h in blocks && blocks[h] == caches[slabs[h].cache].order
  {
    assert BlockOk(blocks, caches, slabs, larges, h);
  }

  lemma FewerEmpty(queues: seq<Queue>, c: nat, from: Kind, h: nat, to: Kind)
    requires FewEmpty(queues) && c < |queues| && to != Empty
    ensures FewEmpty(queues[c := Push(Drop(queues[c], from, h), to, h)])
  {
    WithoutShorter(queues[c].empty, h);
  }

  lemma MoreEmpty(queues: seq<Queue>, c: nat, from: Kind, h: nat, to: Kind)
    requires FewEmpty(queues) && c < |queues| && from != Empty
    ensures var queues' := queues[c := Push(Drop(queues[c], from, h), to, h)];
            |queues'[c].empty| <= 2 && (|queues'[c].empty| <= 1 ==> FewEmpty(queues'))
                && (to != Empty ==> FewEmpty(queues'))
  {}

  lemma OneEmptyLeft(first: seq<Queue>, queues: seq<Queue>, after: seq<Queue>, c: nat, from: Kind, h: nat)
    requires FewEmpty(first) && c < |first| && from != Empty
    requires
      && queues == first[c := Push(Drop(first[c], from, h), Empty, h)]
      && after == queues[c := Drop(queues[c], Empty, h)]
    ensures FewEmpty(after)
  {
    assert queues[c].empty == [h] + first[c].empty;
    assert ([h] + first[c].empty)[1..] == first[c].empty;
    WithoutShorter(first[c].empty, h);
  }

  lemma SettledTwice(caches: seq<Cache>, s0: Slabs, l0: Larges, s1: Slabs, l1: Larges, s2: Slabs, l2: Larges,
                     live: map<Ref, nat>)
    requires Settled(caches, s0, l0, s1, l1, live) && Settled(caches, s1, l1, s2, l2, live)
    ensures Settled(caches, s0, l0, s2, l2, live)
  {
    hide OffsetOf, UsableOf;
    forall r | r in live
        ensures
          && OffsetOf(caches, s2, l2, r) == OffsetOf(caches, s0, l0, r)
          && UsableOf(caches, s2, l2, r) == UsableOf(caches, s0, l0, r) {
      assert OffsetOf(caches, s1, l1, r) == OffsetOf(caches, s0, l0, r);
    }
  }

  lemma SettledSubset(caches: seq<Cache>, s0: Slabs, l0: Larges, s1: Slabs, l1: Larges, live: map<Ref, nat>,
                      fewer: map<Ref, nat>)
    requires Settled(caches, s0, l0, s1, l1, live) && fewer.Keys <= live.Keys
    ensures Settled(caches, s0, l0, s1, l1, fewer)
  {}

  lemma SettledFewer(caches: seq<Cache>, s0: Slabs, l0: Larges, s1: Slabs, l1: Larges, live: map<Ref, nat>, r: Ref)
    requires Settled(caches, s0, l0, s1, l1, live)
    ensures Settled(caches, s0, l0, s1, l1, live - {r})
  {}

  lemma AlignedObject(base: nat, caches: seq<Cache>, c: nat, s: Slab, h: nat, i: nat)
    requires
      && Multiple(base, PAGE) && c < |caches| && CacheOk(caches[c]) && SlabOk(caches, s) && s.cache == c
      && i < s.slots.count
    ensures Multiple(base + h * PAGE + ObjectAt(caches[c], s.slots, i), caches[c].alignment)
  {
    var a := caches[c].alignment;
    ObjectInside(caches[c], s.slots, i);
    MultipleOfMultiple(base, PAGE, a);
    MultipleTimes(PAGE, h, a);
    MultipleSum(base, h * PAGE, a);
    MultipleSum(base + h * PAGE, ObjectAt(caches[c], s.slots, i), a);
  }

  lemma MultipleOfMultiple(x: nat, y: nat, a: nat)
    requires Multiple(x, y) && Multiple(y, a)
    ensures Multiple(x, a)
  {
    var q: nat :| x == q * y;
    MultipleTimes(y, q, a);
  }

  /** The object whose payload starts at an offset, computed by division. */
  function IndexOf(c: Cache, s: Slots, offset: nat): (i: Option<nat>)
    requires CacheOk(c)
    ensures i.Some? ==> i.value < s.count && ObjectAt(c, s, i.value) == offset
    ensures i.None? ==> forall j: nat :: j < s.count ==> ObjectAt(c, s, j) != offset
  {
    IndexSound(c, s, offset);
    if offset < s.start + c.payload || (offset - s.start - c.payload) % c.stride != 0
        || (offset - s.start - c.payload) / c.stride >= s.count then None
    else Some((offset - s.start - c.payload) / c.stride)
  }

  lemma IndexSound(c: Cache, s: Slots, offset: nat)
    requires CacheOk(c)
    ensures offset >= s.start + c.payload && (offset - s.start - c.payload) % c.stride == 0 ==>
              ObjectAt(c, s, (offset - s.start - c.payload) / c.stride) == offset
    ensures forall j: nat {:trigger ObjectAt(c, s, j)} :: ObjectAt(c, s, j) == offset ==>
              offset >= s.start + c.payload && (offset - s.start - c.payload) % c.stride == 0
                  && (offset - s.start - c.payload) / c.stride == j
  {
    if offset >= s.start + c.payload {
      var d := offset - s.start - c.payload;
      assert d == d / c.stride * c.stride + d % c.stride;
    }
    forall j: nat | ObjectAt(c, s, j) == offset
      ensures
        && offset >= s.start + c.payload && (offset - s.start - c.payload) % c.stride == 0
        && (offset - s.start - c.payload) / c.stride == j
    {
      ObjectIndex(c, s, j);
    }
  }

  lemma LiveObjects(blocks: map<int, nat>, caches: seq<Cache>, slabs: Slabs, larges: Larges, queues: seq<Queue>,
                    live: map<Ref, nat>, h: nat)
    requires HeapOk(blocks, caches, slabs, larges, queues, live) && h in slabs
    ensures forall i: nat {:trigger Object(h, i)} :: Object(h, i) in live <==> i in slabs[h].requested
    ensures forall i: nat :: i in slabs[h].requested ==> i < slabs[h].slots.count
  {
    forall i: nat ensures Object(h, i) in live <==> i in slabs[h].requested {
      assert LiveIs(slabs, larges, live, Object(h, i));
    }
    assert BlockOk(blocks, caches, slabs, larges, h);
  }

  lemma SettledSelf(caches: seq<Cache>, slabs: Slabs, larges: Larges, live: map<Ref, nat>)
    ensures Settled(caches, slabs, larges, slabs, larges, live)
  {}
}
