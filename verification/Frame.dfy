/**
 The frame layer: reference-counted frames on top of the buddy allocator, with a cache of
 single frames per CPU.  A frame that is logically free is in a buddy free block, in one
 CPU cache, or being handed from one to the other; every other managed frame is owned and
 its tag counts its owners.
 */
module Frame {
  import opened Basics
  import opened BuddyMath
  import opened BuddyPages
  import opened BuddyBlocks
  import opened Buddy
  import BuddyValidate

  const MAX_REFS: nat := 0xffff_ffff
  const PAGE_SIZE: nat := 4096

  // ---- Per-CPU caches ----

  /** All cached frames, with multiplicity. */
  ghost function Bag(caches: seq<seq<nat>>): multiset<nat> {
    if caches == [] then multiset{} else Bag(caches[..|caches| - 1]) + multiset(caches[|caches| - 1])
  }

  lemma {:induction false} BagPush(caches: seq<seq<nat>>, c: nat, f: nat)
    requires c < |caches|
    ensures Bag(caches[c := caches[c] + [f]]) == Bag(caches) + multiset{f}
  {
    var n := |caches| - 1;
    var after := caches[c := caches[c] + [f]];
    if c == n {
      assert after[..n] == caches[..n];
      assert multiset(caches[c] + [f]) == multiset(caches[c]) + multiset{f};
    } else {
      assert after[..n] == caches[..n][c := caches[..n][c] + [f]];
      BagPush(caches[..n], c, f);
      assert after[n] == caches[n];
    }
  }

  lemma {:induction false} InBag(caches: seq<seq<nat>>, c: nat, x: nat)
    requires c < |caches| && x in caches[c]
    ensures x in Bag(caches)
  {
    var n := |caches| - 1;
    if c < n {
      assert caches[..n][c] == caches[c];
      InBag(caches[..n], c, x);
    }
  }

  lemma {:induction false} EmptyBag(caches: seq<seq<nat>>)
    requires forall c :: 0 <= c < |caches| ==> caches[c] == []
    ensures Bag(caches) == multiset{}
  {
    if caches != [] { EmptyBag(caches[..|caches| - 1]); }
  }

  // ---- Who has which frame ----

  /** The owned frames and how many owners each has. */
  ghost function Owned(pages: seq<Page>): map<int, nat> {
    map p | 0 <= p < |pages| && pages[p].state == AllocHead && pages[p].tag > 0 :: pages[p].tag
  }

  /** Allocated to this layer but owned by nobody. */
  ghost predicate Idle(pages: seq<Page>, p: int) {
    0 <= p < |pages| && pages[p].state == AllocHead && pages[p].tag == 0
  }

  /** Blocks are allocated to this layer one page at a time, and a tag is a 32-bit count. */
  ghost predicate SinglePage(pages: seq<Page>, p: int) {
    0 <= p < |pages| && pages[p].state == AllocHead ==> pages[p].order == 0 && pages[p].tag <= MAX_REFS
  }

  /** The account of all frames: caches and pending frames are idle, the rest is free or owned. */
  ghost predicate Ledger(pages: seq<Page>, caches: seq<seq<nat>>, cached: set<int>, pending: set<int>, usable: int) {
    && (forall p {:trigger SinglePage(pages, p)} :: SinglePage(pages, p))
    && (forall x: nat {:trigger Bag(caches)[x]} :: Bag(caches)[x] == if x in cached then 1 else 0)
    && cached !! pending
    && (forall p {:trigger Idle(pages, p)} :: p in cached || p in pending <==> Idle(pages, p))
    && usable == |FreeSet(pages)| + |cached| + |pending|
    && 0 !in FreeSet(pages) && 0 < |pages| && pages[0].state != AllocHead
  }

  /** A pending frame goes back to the buddy allocator. */
  lemma FreedLedger(pages: seq<Page>, pages': seq<Page>, maxOrder: nat, caches: seq<seq<nat>>, cached: set<int>,
                    pending: set<int>, usable: int, f: nat)
    requires Ledger(pages, caches, cached, pending, usable) && f in pending && BlocksOk(pages, maxOrder)
    requires
      && FreeSet(pages') == FreeSet(pages) + Block(f, 0) && KeptOutside(pages, pages', FreeSet(pages'))
      && BlocksOk(pages', maxOrder)
    ensures Ledger(pages', caches, cached, pending - {f}, usable)
    ensures Owned(pages') == Owned(pages)
  {
    assert Idle(pages, f);
    AllocatedNotFree(pages, maxOrder, f, f);
    assert f !in FreeSet(pages) by { assert !IsFree(pages, f); }
    assert Block(f, 0) == {f} by { assert InBlock(f, f, 0); }
    forall p | 0 <= p < |pages| && p in FreeSet(pages')
        ensures pages'[p].state != AllocHead && (p != f ==> pages[p].state != AllocHead) {
      FreePageState(pages', maxOrder, p);
      if p != f { FreePageState(pages, maxOrder, p); }
    }
    forall p ensures (p in cached || p in pending - {f} <==> Idle(pages', p)) && SinglePage(pages', p) {
      assert (p in cached || p in pending <==> Idle(pages, p)) && SinglePage(pages, p);
    }
  }

  /** A cached frame is taken out of the cache of CPU c. */
  lemma PoppedLedger(pages: seq<Page>, caches: seq<seq<nat>>, cached: set<int>, pending: set<int>, usable: int, c: nat)
    requires Ledger(pages, caches, cached, pending, usable) && c < |caches| && caches[c] != []
    ensures var l := caches[c];
            var f := l[|l| - 1];
            f in cached && Ledger(pages, caches[c := l[..|l| - 1]], cached - {f}, pending + {f}, usable)
  {
    var l := caches[c];
    var f := l[|l| - 1];
    InBag(caches, c, f);
    var left := caches[c := l[..|l| - 1]];
    assert left[c] + [f] == l;
    assert caches == left[c := left[c] + [f]];
    BagPush(left, c, f);
    forall x: nat ensures Bag(left)[x] == if x in cached - {f} then 1 else 0 {
      assert Bag(caches)[x] == if x in cached then 1 else 0;
    }
    forall p ensures p in cached - {f} || p in pending + {f} <==> Idle(pages, p) {
      assert p in cached || p in pending <==> Idle(pages, p);
    }
  }

  /** A pending frame is put into the cache of CPU c. */
  lemma PushedLedger(pages: seq<Page>, caches: seq<seq<nat>>, cached: set<int>, pending: set<int>, usable: int, c: nat,
                     f: nat)
    requires Ledger(pages, caches, cached, pending, usable) && c < |caches| && f in pending
    ensures Ledger(pages, caches[c := caches[c] + [f]], cached + {f}, pending - {f}, usable)
  {
    BagPush(caches, c, f);
    forall p ensures p in cached + {f} || p in pending - {f} <==> Idle(pages, p) {
      assert p in cached || p in pending <==> Idle(pages, p);
    }
  }

  /** A pending frame gets its first owner. */
  lemma OwnedLedger(pages: seq<Page>, pages': seq<Page>, caches: seq<seq<nat>>, cached: set<int>, pending: set<int>,
                    usable: int, f: nat)
    requires Ledger(pages, caches, cached, pending, usable) && f in pending && f < |pages|
    requires pages' == pages[f := pages[f].(tag := 1)] && FreeSet(pages') == FreeSet(pages)
    ensures Ledger(pages', caches, cached, pending - {f}, usable - 1)
    ensures Owned(pages') == Owned(pages)[f := 1]
  {
    assert Idle(pages, f);
    forall p ensures (p in cached || p in pending - {f} <==> Idle(pages', p)) && SinglePage(pages', p) {
      assert (p in cached || p in pending <==> Idle(pages, p)) && SinglePage(pages, p);
    }
  }

  /** An owned frame stays owned with another number of owners. */
  lemma RetaggedLedger(pages: seq<Page>, pages': seq<Page>, caches: seq<seq<nat>>, cached: set<int>, pending: set<int>,
                       usable: int, f: nat, tag: nat)
    requires Ledger(pages, caches, cached, pending, usable) && f in Owned(pages) && 0 < tag <= MAX_REFS
    requires pages' == pages[f := pages[f].(tag := tag)] && FreeSet(pages') == FreeSet(pages)
    ensures Ledger(pages', caches, cached, pending, usable)
    ensures Owned(pages') == Owned(pages)[f := tag]
  {
    forall p ensures (p in cached || p in pending <==> Idle(pages', p)) && SinglePage(pages', p) {
      assert (p in cached || p in pending <==> Idle(pages, p)) && SinglePage(pages, p);
    }
  }

  /** An owned frame loses its last owner. */
  lemma DroppedLedger(pages: seq<Page>, pages': seq<Page>, caches: seq<seq<nat>>, cached: set<int>, pending: set<int>,
                      usable: int, f: nat)
    requires Ledger(pages, caches, cached, pending, usable) && f in Owned(pages)
    requires pages' == pages[f := pages[f].(tag := 0)] && FreeSet(pages') == FreeSet(pages)
    ensures Ledger(pages', caches, cached, pending + {f}, usable + 1) && f !in pending && f !in cached
    ensures Owned(pages') == Owned(pages) - {f}
  {
    assert !Idle(pages, f);
    forall p ensures (p in cached || p in pending + {f} <==> Idle(pages', p)) && SinglePage(pages', p) {
      assert (p in cached || p in pending <==> Idle(pages, p)) && SinglePage(pages, p);
    }
  }

  /** Changing the tag of an allocated page disturbs nothing the buddy allocator relies on. */
  lemma TagSound(pages: seq<Page>, heads: seq<int>, counts: seq<nat>, lists: seq<seq<nat>>, maxOrder: nat,
                 freePages: nat, p: nat, tag: nat)
    requires Sound(pages, heads, counts, lists, maxOrder, freePages) && p < |pages| && pages[p].state == AllocHead
    ensures Sound(pages[p := pages[p].(tag := tag)], heads, counts, lists, maxOrder, freePages)
    ensures FreeSet(pages[p := pages[p].(tag := tag)]) == FreeSet(pages)
  {
    var pages' := pages[p := pages[p].(tag := tag)];
    AllocatedNotFree(pages, maxOrder, p, p);
    assert p !in FreeSet(pages) by { assert !IsFree(pages, p); }
    assert Repainted(pages, pages');
    forall j | 0 <= j < |pages'| && pages'[j].state == AllocHead ensures AllocOk(pages', maxOrder, j) {
      assert AllocOk(pages, maxOrder, j);
    }
    RepaintedSound(pages, pages', heads, counts, lists, maxOrder, freePages);
  }

  /** Allocating a block and trimming it leaves its first pages idle and takes nothing else. */
  lemma AllocTrimPages(p: seq<Page>, m: seq<Page>, p': seq<Page>, maxOrder: nat, i: nat, o: nat, keep: nat, q: int)
    requires BlocksOk(p, maxOrder) && BlocksOk(p', maxOrder) && |p'| == |m| == |p| && keep <= Pow2(o)
    requires Block(i, o) <= FreeSet(p)
    requires Allocated(m) == Allocated(p)[i := o] && KeptOutside(p, m, FreeSet(p))
    requires FreeSet(m) == FreeSet(p) - Block(i, o) && FreeSet(p') == FreeSet(m) + Tail(i, o, keep)
    requires Allocated(p') == Allocated(m) - {i} + Ones(i, keep) && KeptOutside(m, p', FreeSet(p') + Block(i, o))
    requires 0 <= q < |p|
    ensures p'[q].state == AllocHead <==> p[q].state == AllocHead || q in Range(i, keep)
    ensures p[q].state == AllocHead ==> q !in Range(i, keep) && p'[q].tag == p[q].tag && p'[q].order == p[q].order
    ensures q in Range(i, keep) ==> p'[q].order == 0
    ensures q in FreeSet(p') <==> q in FreeSet(p) && q !in Range(i, keep)
  {
    assert InRange(q, i, keep) ==> InBlock(q, i, o);
    assert InBlock(q, i, o) <==> InRange(q, i, keep) || InRange(q, i + keep, Pow2(o) - keep);
    assert q in Allocated(p') <==> p'[q].state == AllocHead;
    assert q in Allocated(p) <==> p[q].state == AllocHead;
    if q in FreeSet(p) { FreePageState(p, maxOrder, q); }
    if q in FreeSet(p') { FreePageState(p', maxOrder, q); }
    assert i in Block(i, o) by { assert InBlock(i, i, o); }
  }

  /** The free pages r have become idle units; every other page keeps its role and its tag. */
  ghost predicate TookUnits(p: seq<Page>, p': seq<Page>, r: set<int>) {
    && |p'| == |p| && r <= FreeSet(p) && FreeSet(p') == FreeSet(p) - r
    && forall q :: 0 <= q < |p| ==>
         && (p'[q].state == AllocHead <==> p[q].state == AllocHead || q in r)
         && (p[q].state == AllocHead ==> q !in r && p'[q].tag == p[q].tag && p'[q].order == p[q].order)
         && (q in r ==> p'[q].order == 0 && p'[q].tag == 0)
  }

  lemma AllocTrimTook(p: seq<Page>, m: seq<Page>, p': seq<Page>, maxOrder: nat, i: nat, o: nat, keep: nat)
    requires BlocksOk(p, maxOrder) && BlocksOk(p', maxOrder) && |p'| == |m| == |p| && keep <= Pow2(o)
    requires Block(i, o) <= FreeSet(p)
    requires Allocated(m) == Allocated(p)[i := o] && KeptOutside(p, m, FreeSet(p))
    requires FreeSet(m) == FreeSet(p) - Block(i, o) && FreeSet(p') == FreeSet(m) + Tail(i, o, keep)
    requires Allocated(p') == Allocated(m) - {i} + Ones(i, keep) && KeptOutside(m, p', FreeSet(p') + Block(i, o))
    requires Untagged(p', i, keep)
    ensures TookUnits(p, p', Range(i, keep))
  {
    var r := Range(i, keep);
    forall q | 0 <= q < |p|
      ensures p'[q].state == AllocHead <==> p[q].state == AllocHead || q in r
      ensures p[q].state == AllocHead ==> q !in r && p'[q].tag == p[q].tag && p'[q].order == p[q].order
      ensures q in r ==> p'[q].order == 0 && p'[q].tag == 0
      ensures q in FreeSet(p') <==> q in FreeSet(p) && q !in r
    {
      AllocTrimPages(p, m, p', maxOrder, i, o, keep, q);
      assert q in r ==> InRange(q, i, keep);
    }
    forall q | q in r ensures q in FreeSet(p) { assert InRange(q, i, keep) && InBlock(q, i, o); }
    assert FreeSet(p') == FreeSet(p) - r;
  }

  lemma TookLedger(p: seq<Page>, p': seq<Page>, r: set<int>, maxOrder: nat,
                   caches: seq<seq<nat>>, cached: set<int>, pending: set<int>, usable: int)
    requires Ledger(p, caches, cached, pending, usable) && TookUnits(p, p', r) && BlocksOk(p, maxOrder)
    ensures Ledger(p', caches, cached, pending + r, usable)
    ensures Owned(p') == Owned(p)
  {
    forall q | q in r ensures !Idle(p, q) { FreePageState(p, maxOrder, q); }
    forall q ensures (q in cached || q in pending + r <==> Idle(p', q)) && SinglePage(p', q) {
      assert (q in cached || q in pending <==> Idle(p, q)) && SinglePage(p, q);
    }
    assert pending !! r by { forall q | q in r ensures q !in pending { assert !Idle(p, q); } }
    forall q | 0 <= q < |p| ensures q in Owned(p') <==> q in Owned(p) {}
  }

  /** Frames first .. first + count, each with one owner. */
  ghost function Owners(first: int, count: nat): map<int, nat> { map p | p in Range(first, count) :: 1 }

  lemma NoOwners(first: int)
    ensures Range(first, 0) == {} && Owners(first, 0) == map[]
  {}

  lemma OneOwner(owned: map<int, nat>, f: int)
    ensures Range(f, 1) == {f} && owned[f := 1] == owned + Owners(f, 1)
  {
    assert forall p :: InRange(p, f, 1) <==> p == f;
  }

  lemma RangeStep(first: int, k: nat, count: nat, f: int)
    requires f == first + k && k < count
    ensures f in Range(first, count) - Range(first, k)
    ensures Range(first, count) - Range(first, k) - {f} == Range(first, count) - Range(first, k + 1)
  {
    assert InRange(f, first, count) && !InRange(f, first, k);
    forall p ensures p in Range(first, k + 1) <==> p in Range(first, k) || p == f {
      assert InRange(p, first, k + 1) <==> InRange(p, first, k) || p == f;
    }
  }

  lemma OneMoreOwner(owned: map<int, nat>, first: int, count: nat, f: int)
    requires f == first + count
    ensures (owned + Owners(first, count))[f := 1] == owned + Owners(first, count + 1)
  {
    forall p ensures p in Range(first, count + 1) <==> p in Range(first, count) || p == f {
      assert InRange(p, first, count + 1) <==> InRange(p, first, count) || p == f;
    }
  }

  // ---- When an allocation can be met ----

  lemma AnyFrameFits(s: set<int>, maxOrder: nat)
    requires forall p :: p in s ==> p >= 0
    ensures Fits(s, 1, 0, maxOrder) <==> s != {}
  {
    LeastOrderDecides(s, 1, 0, maxOrder, 0);
    forall p | p in s ensures AlignedRun(s, 0) { PageIsARun(s, p); }
    if AlignedRun(s, 0) {
      var i: nat :| Aligned(i, 0) && Block(i, 0) <= s;
      assert InBlock(i, i, 0) && i in Block(i, 0);
    }
  }

  lemma PageIsARun(s: set<int>, p: nat)
    requires p in s
    ensures AlignedRun(s, 0)
  {
    assert Block(p, 0) == {p} by { assert InBlock(p, p, 0); }
    assert Aligned(p, 0) && Block(p, 0) <= s;
  }

  lemma NothingFits(s: set<int>, count: nat, alignment: nat, maxOrder: nat, limit: nat)
    requires maxOrder <= limit && Pow2(limit) < count
    ensures !Fits(s, count, alignment, maxOrder)
  {
    forall o: nat | o <= maxOrder ensures Pow2(o) < count { Pow2Monotone(o, limit); }
  }

  // ---- Ranges of owned frames ----

  ghost predicate AllOwned(owned: map<int, nat>, first: int, count: nat) {
    forall p {:trigger InRange(p, first, count)} :: InRange(p, first, count) ==> p in owned
  }

  ghost predicate Shareable(owned: map<int, nat>, first: int, count: nat) {
    forall p {:trigger InRange(p, first, count)} :: InRange(p, first, count) ==> p in owned && owned[p] < MAX_REFS
  }

  /** One more owner for each frame of the range. */
  ghost function Retained(owned: map<int, nat>, first: int, count: nat): map<int, nat> {
    map p | p in owned :: if InRange(p, first, count) then owned[p] + 1 else owned[p]
  }

  /** The frames of the range whose only owner lets go. */
  ghost function LastOwned(owned: map<int, nat>, first: int, count: nat): set<int> {
    set p | p in owned && InRange(p, first, count) && owned[p] == 1
  }

  /** One owner fewer for each frame of the range. */
  ghost function Released(owned: map<int, nat>, first: int, count: nat): map<int, nat> {
    map p | p in owned && p !in LastOwned(owned, first, count) ::
        if InRange(p, first, count) && owned[p] > 0 then owned[p] - 1 else owned[p]
  }

  lemma OneMore(first: int, k: nat, f: int)
    requires f == first + k
    ensures forall p {:trigger InRange(p, first, k + 1)} :: InRange(p, first, k + 1) <==> InRange(p, first, k) || p == f
  {}

  lemma OwnedStep(owned: map<int, nat>, first: int, k: nat, f: int)
    requires f == first + k && f in owned
    ensures AllOwned(owned, first, k) ==> AllOwned(owned, first, k + 1)
    ensures Shareable(owned, first, k) && owned[f] < MAX_REFS ==> Shareable(owned, first, k + 1)
  {
    OneMore(first, k, f);
  }

  lemma RetainedStep(owned: map<int, nat>, first: int, k: nat, f: int)
    requires f == first + k && f in owned
    ensures f in Retained(owned, first, k) && Retained(owned, first, k)[f] == owned[f]
    ensures Retained(owned, first, k)[f := owned[f] + 1] == Retained(owned, first, k + 1)
  {
    OneMore(first, k, f);
    assert !InRange(f, first, k);
  }

  lemma ReleasedStep(owned: map<int, nat>, first: int, k: nat, f: int)
    requires f == first + k && f in owned && 0 < owned[f]
    ensures f in Released(owned, first, k) && Released(owned, first, k)[f] == owned[f]
    ensures owned[f] == 1 ==> Released(owned, first, k + 1) == Released(owned, first, k) - {f}
    ensures owned[f] == 1 ==> LastOwned(owned, first, k + 1) == LastOwned(owned, first, k) + {f}
    ensures owned[f] != 1 ==> Released(owned, first, k + 1) == Released(owned, first, k)[f := owned[f] - 1]
    ensures owned[f] != 1 ==> LastOwned(owned, first, k + 1) == LastOwned(owned, first, k)
  {
    OneMore(first, k, f);
    assert !InRange(f, first, k);
    assert owned[f] == 1 ==> LastOwned(owned, first, k + 1) == LastOwned(owned, first, k) + {f};
    assert owned[f] != 1 ==> LastOwned(owned, first, k + 1) == LastOwned(owned, first, k);
  }

  lemma SomeOwner(pages: seq<Page>)
    ensures forall p :: p in Owned(pages) ==> Owned(pages)[p] > 0
  {}

  lemma NothingDone(owned: map<int, nat>, first: int)
    ensures Retained(owned, first, 0) == owned && Released(owned, first, 0) == owned && LastOwned(owned, first, 0) == {}
  {
    assert forall p :: !InRange(p, first, 0);
  }

  class Frames {
    const buddy: Allocator
    const high: nat                      // capacity of a CPU cache
    const batch: nat                     // how much a full cache gives back at once
    var caches: seq<seq<nat>>            // one stack of frames per CPU
    var usable: int
    ghost var cached: set<int>

    ghost predicate Valid(pending: set<int>)
      reads this, buddy, buddy.pages, buddy.freeHead, buddy.freeCount
    {
      && 0 < batch <= high && (forall c :: 0 <= c < |caches| ==> |caches[c]| <= high)
      && buddy.Valid()
      && Ledger(buddy.pages[..], caches, cached, pending, usable)
    }

    /** Frames nobody owns: in the buddy allocator or in a CPU cache. */
    ghost function Available(): set<int>
      reads this, buddy.pages
    {
      FreeSet(buddy.pages[..]) + cached
    }

    /** Empty caches over a buddy allocator that has its ranges and has allocated nothing. */
    constructor (b: Allocator, cpus: nat, h: nat, n: nat)
      requires b.Valid() && 0 < n <= h && 0 < b.pages.Length
      requires forall p :: 0 <= p < b.pages.Length ==> b.pages[p].state != AllocHead
      requires 0 !in FreeSet(b.pages[..])
      ensures Valid({}) && buddy == b && |caches| == cpus && cached == {}
      ensures Owned(buddy.pages[..]) == map[]
    {
      buddy, high, batch := b, h, n;
      caches := seq(cpus, _ => []);
      usable := b.freePages;
      cached := {};
      new;
      EmptyBag(caches);
    }

    /** Write the tag of an allocated page. */
    method SetTag(p: nat, tag: nat)
      requires buddy.Valid() && p < buddy.pages.Length && buddy.pages[p].state == AllocHead
      modifies buddy.pages
      ensures buddy.Valid()
      ensures buddy.pages[..] == old(buddy.pages[..])[p := old(buddy.pages[p]).(tag := tag)]
      ensures FreeSet(buddy.pages[..]) == old(FreeSet(buddy.pages[..]))
    {
      TagSound(buddy.pages[..], buddy.freeHead[..], buddy.freeCount[..], buddy.lists, buddy.maxOrder, buddy.freePages,
               p, tag);
      ghost var before := buddy.pages[..];
      buddy.pages[p] := buddy.pages[p].(tag := tag);
      assert buddy.pages[..] == before[p := before[p].(tag := tag)];
    }

    /** frame_pcp_return_to_buddy, one frame; the buddy allocator never refuses it. */
    method ReturnOne(f: nat, ghost pending: set<int>)
      requires Valid(pending) && f in pending
      modifies buddy, buddy.pages, buddy.freeHead, buddy.freeCount
      ensures Valid(pending - {f})
      ensures Owned(buddy.pages[..]) == old(Owned(buddy.pages[..]))
      ensures FreeSet(buddy.pages[..]) == old(FreeSet(buddy.pages[..])) + {f}
    {
      ghost var before := buddy.pages[..];
      assert Idle(before, f) && SinglePage(before, f);
      var status := buddy.Free(f, 0);
      FreedLedger(before, buddy.pages[..], buddy.maxOrder, caches, cached, pending, usable, f);
      assert Block(f, 0) == {f} by { assert InBlock(f, f, 0); }
    }

    /** frame_pcp_pop, up to making the frame owned. */
    method Pop(cpu: nat, ghost pending: set<int>) returns (f: Option<nat>)
      requires Valid(pending)
      modifies this
      ensures buddy.pages[..] == old(buddy.pages[..])
      ensures f.None? <==> cpu >= |old(caches)| || old(caches)[cpu] == []
      ensures f.None? ==> cached == old(cached)
      ensures f.None? ==> Valid(pending) && caches == old(caches)
      ensures f.Some? ==> f.value in old(cached) && cached == old(cached) - {f.value} && Valid(pending + {f.value})
      ensures f.Some? ==> caches == old(caches)[cpu := old(caches[cpu][..|caches[cpu]| - 1])]
    {
      if cpu >= |caches| || caches[cpu] == [] { return None; }
      PoppedLedger(buddy.pages[..], caches, cached, pending, usable, cpu);
      var l := caches[cpu];
      var x := l[|l| - 1];
      caches := caches[cpu := l[..|l| - 1]];
      cached := cached - {x};
      f := Some(x);
    }

    /** frame_pcp_put: a full cache first gives a batch back to the buddy allocator. */
    method Put(cpu: nat, f: nat, ghost pending: set<int>)
      requires Valid(pending) && f in pending
      modifies this, buddy, buddy.pages, buddy.freeHead, buddy.freeCount
      ensures Valid(pending - {f})
      ensures Owned(buddy.pages[..]) == old(Owned(buddy.pages[..]))
      ensures |caches| == |old(caches)|
      ensures Available() == old(Available()) + {f}
    {
      if cpu >= |caches| {
        ReturnOne(f, pending);
        return;
      }
      if |caches[cpu]| == high {
        Drain(cpu, batch, pending);
      }
      PushedLedger(buddy.pages[..], caches, cached, pending, usable, cpu, f);
      caches := caches[cpu := caches[cpu] + [f]];
      cached := cached + {f};
    }

    /** Give the last n frames of a CPU cache back to the buddy allocator. */
    method Drain(cpu: nat, n: nat, ghost pending: set<int>)
      requires Valid(pending) && cpu < |caches| && n <= |caches[cpu]|
      modifies this, buddy, buddy.pages, buddy.freeHead, buddy.freeCount
      ensures Valid(pending)
      ensures Owned(buddy.pages[..]) == old(Owned(buddy.pages[..]))
      ensures |caches| == |old(caches)| && caches[cpu] == old(caches[cpu][..|caches[cpu]| - n])
      ensures forall c :: 0 <= c < |caches| && c != cpu ==> caches[c] == old(caches)[c]
      ensures Available() == old(Available())
    {
      for i := 0 to n
        invariant Valid(pending)
        invariant Owned(buddy.pages[..]) == old(Owned(buddy.pages[..]))
        invariant |caches| == |old(caches)| && caches[cpu] == old(caches[cpu])[..|old(caches[cpu])| - i]
        invariant forall c :: 0 <= c < |caches| && c != cpu ==> caches[c] == old(caches)[c]
        invariant Available() == old(Available())
      {
        DrainOne(cpu, pending);
      }
    }

    /** Give the last frame of a CPU cache back to the buddy allocator. */
    method DrainOne(cpu: nat, ghost pending: set<int>)
      requires Valid(pending) && cpu < |caches| && caches[cpu] != []
      modifies this, buddy, buddy.pages, buddy.freeHead, buddy.freeCount
      ensures Valid(pending)
      ensures Owned(buddy.pages[..]) == old(Owned(buddy.pages[..]))
      ensures caches == old(caches)[cpu := old(caches[cpu][..|caches[cpu]| - 1])]
      ensures Available() == old(Available())
    {
      var f := Pop(cpu, pending);
      ReturnOne(f.value, pending + {f.value});
      assert pending + {f.value} - {f.value} == pending;
    }

    /** frame_pcp_drain_all */
    method DrainAll(ghost pending: set<int>)
      requires Valid(pending)
      modifies this, buddy, buddy.pages, buddy.freeHead, buddy.freeCount
      ensures Valid(pending) && cached == {} && |caches| == |old(caches)|
      ensures Owned(buddy.pages[..]) == old(Owned(buddy.pages[..]))
      ensures Available() == old(Available())
    {
      for cpu := 0 to |caches|
        invariant Valid(pending) && |caches| == |old(caches)|
        invariant forall c :: 0 <= c < cpu ==> caches[c] == []
        invariant Owned(buddy.pages[..]) == old(Owned(buddy.pages[..]))
        invariant Available() == old(Available())
      {
        Drain(cpu, |caches[cpu]|, pending);
      }
      EmptyBag(caches);
      forall p ensures p !in cached {
        assert p in cached ==> Idle(buddy.pages[..], p);
        assert p >= 0 ==> Bag(caches)[p] == 0;
      }
    }

    /** Allocate a block of the buddy allocator and keep its first pages as idle units. */
    method TakeUnits(order: nat, keep: nat, ghost pending: set<int>) returns (first: Option<nat>)
      requires Valid(pending) && 0 < keep <= Pow2(order)
      modifies buddy, buddy.pages, buddy.freeHead, buddy.freeCount
      ensures first.None? <==> order > buddy.maxOrder || !old(buddy.FreeRun(order))
      ensures first.None? ==> Valid(pending) && buddy.pages[..] == old(buddy.pages[..])
      ensures first.Some? ==>
                && Aligned(first.value, order) && Range(first.value, keep) <= old(FreeSet(buddy.pages[..]))
                && Valid(pending + Range(first.value, keep))
                && FreeSet(buddy.pages[..]) == old(FreeSet(buddy.pages[..])) - Range(first.value, keep)
                && Owned(buddy.pages[..]) == old(Owned(buddy.pages[..]))
    {
      ghost var before := buddy.pages[..];
      first := buddy.Alloc(order);
      if first.None? { return; }
      ghost var mid := buddy.pages[..];
      var status := buddy.Trim(first.value, order, keep);
      AllocTrimTook(before, mid, buddy.pages[..], buddy.maxOrder, first.value, order, keep);
      TookLedger(before, buddy.pages[..], Range(first.value, keep), buddy.maxOrder, caches, cached, pending, usable);
    }

    /** A pending frame becomes owned, with one owner. */
    method Own(f: nat, ghost pending: set<int>)
      requires Valid(pending) && f in pending
      modifies this, buddy.pages
      ensures Valid(pending - {f})
      ensures Owned(buddy.pages[..]) == old(Owned(buddy.pages[..]))[f := 1]
      ensures
        && Available() == old(Available()) && caches == old(caches)
        && FreeSet(buddy.pages[..]) == old(FreeSet(buddy.pages[..]))
    {
      ghost var before := buddy.pages[..];
      assert Idle(before, f);
      SetTag(f, 1);
      OwnedLedger(before, buddy.pages[..], caches, cached, pending, usable, f);
      usable := usable - 1;
    }

    /** Any free page is a free run of order 0. */
    lemma FreePageIsARun()
      ensures FreeSet(buddy.pages[..]) != {} ==> buddy.FreeRun(0)
    {
      if FreeSet(buddy.pages[..]) != {} {
        var p :| p in FreeSet(buddy.pages[..]);
        PageIsARun(FreeSet(buddy.pages[..]), p);
      }
    }

    /** frame_pcp_refill: take up to 16 pages at once, own the first, cache the others. */
    method Refill(cpu: nat) returns (f: Option<nat>)
      requires Valid({})
      modifies this, buddy, buddy.pages, buddy.freeHead, buddy.freeCount
      ensures Valid({})
      ensures f.None? <==> old(FreeSet(buddy.pages[..])) == {}
      ensures f.None? ==> Available() == old(Available()) && Owned(buddy.pages[..]) == old(Owned(buddy.pages[..]))
      ensures f.Some? ==> f.value in old(FreeSet(buddy.pages[..])) && Available() == old(Available()) - {f.value}
      ensures f.Some? ==> Owned(buddy.pages[..]) == old(Owned(buddy.pages[..]))[f.value := 1]
    {
      hide Valid, Owned, FreeSet, Range;
      var order: nat := 4;
      f := TakeUnits(order, Pow2(order), {});
      while f.None? && order > 0
        invariant cached == old(cached)
        invariant f.None? ==>
            Valid({}) && buddy.pages[..] == old(buddy.pages[..]) && (order <= buddy.maxOrder ==> !buddy.FreeRun(order))
        invariant f.Some? ==> Taken(f.value, Pow2(order), old(FreeSet(buddy.pages[..])), old(Owned(buddy.pages[..])))
      {
        order := order - 1;
        f := TakeUnits(order, Pow2(order), {});
        assert f.Some? ==> {} + Range(f.value, Pow2(order)) == Range(f.value, Pow2(order));
      }
      if f.None? {
        FreePageIsARun();
        return;
      }
      CacheRest(cpu, f.value, Pow2(order), old(FreeSet(buddy.pages[..])), old(Owned(buddy.pages[..])));
    }

    /** The free pages first .. first + units are pending and nothing else has changed. */
    ghost predicate Taken(first: nat, units: nat, free: set<int>, owned: map<int, nat>)
      reads this, buddy, buddy.pages, buddy.freeHead, buddy.freeCount
    {
      && 0 < units && Range(first, units) <= free && Valid(Range(first, units))
      && FreeSet(buddy.pages[..]) == free - Range(first, units)
      && Owned(buddy.pages[..]) == owned
    }

    /** Own the first of the taken pages and put the others into the cache of the CPU. */
    method CacheRest(cpu: nat, first: nat, units: nat, ghost free: set<int>, ghost owned: map<int, nat>)
      requires Taken(first, units, free, owned)
      modifies this, buddy, buddy.pages, buddy.freeHead, buddy.freeCount
      ensures Valid({}) && first in free
      ensures Available() == free + old(cached) - {first}
      ensures Owned(buddy.pages[..]) == owned[first := 1]
    {
      ghost var all := Range(first, units);
      assert first in all by { assert InRange(first, first, units); }
      Own(first, all);
      PutAll(cpu, first + 1, first + units, all - {first});
    }

    /** Put the pending frames from .. to into the cache of the CPU. */
    method PutAll(cpu: nat, from: nat, to: nat, ghost pending: set<int>)
      requires from <= to && Valid(pending)
      requires forall p :: p in pending <==> from <= p < to
      modifies this, buddy, buddy.pages, buddy.freeHead, buddy.freeCount
      ensures Valid({})
      ensures Available() == old(Available()) + pending
      ensures Owned(buddy.pages[..]) == old(Owned(buddy.pages[..]))
    {
      hide Valid, Owned, FreeSet;
      ghost var left := pending;
      for f := from to to
        invariant Valid(left)
        invariant forall p :: p in left <==> f <= p < to
        invariant Available() == old(Available()) + (pending - left)
        invariant Owned(buddy.pages[..]) == old(Owned(buddy.pages[..]))
      {
        Put(cpu, f, left);
        left := left - {f};
      }
      assert forall p :: p !in left;
      assert left == {};
    }

    // ---- Allocation ----

    /** The single-frame path of alloc_frames_aligned: CPU cache, then buddy, then the other caches. */
    method AllocOne(cpu: nat) returns (f: Option<nat>)
      requires Valid({})
      modifies this, buddy, buddy.pages, buddy.freeHead, buddy.freeCount
      ensures Valid({})
      ensures f.None? <==> old(Available()) == {}
      ensures f.None? ==> Available() == old(Available()) && Owned(buddy.pages[..]) == old(Owned(buddy.pages[..]))
      ensures f.Some? ==> f.value in old(Available()) && Available() == old(Available()) - {f.value}
      ensures f.Some? ==> Owned(buddy.pages[..]) == old(Owned(buddy.pages[..]))[f.value := 1]
    {
      hide Valid, Owned, FreeSet;
      f := Pop(cpu, {});
      if f.Some? {
        OwnCached(f.value);
        return;
      }
      f := Refill(cpu);
      if f.None? {
        DrainAll({});
        f := Refill(cpu);
      }
    }

    /** A frame just popped becomes owned. */
    method OwnCached(f: nat)
      requires Valid({} + {f})
      modifies this, buddy.pages
      ensures Valid({}) && f !in old(FreeSet(buddy.pages[..]))
      ensures Available() == old(Available())
      ensures Owned(buddy.pages[..]) == old(Owned(buddy.pages[..]))[f := 1]
    {
      PendingNotFree({} + {f}, f);
      Own(f, {} + {f});
      assert {} + {f} - {f} == {};
    }

    lemma PendingNat(pending: set<int>, f: int)
      requires Valid(pending) && f in pending
      ensures f >= 0
    {
      assert Idle(buddy.pages[..], f);
    }

    /** A pending frame is in no free block. */
    lemma PendingNotFree(pending: set<int>, f: int)
      requires Valid(pending) && f in pending
      ensures f !in FreeSet(buddy.pages[..])
    {
      assert Idle(buddy.pages[..], f);
      AllocatedNotFree(buddy.pages[..], buddy.maxOrder, f, f);
      assert !IsFree(buddy.pages[..], f);
    }

    /** The count taken pages all become owned. */
    method OwnAll(first: nat, count: nat)
      requires Valid(Range(first, count))
      modifies this, buddy.pages
      ensures Valid({})
      ensures Owned(buddy.pages[..]) == old(Owned(buddy.pages[..])) + Owners(first, count)
      ensures Available() == old(Available())
    {
      hide *;
      ghost var left := Range(first, count);
      NoOwners(first);
      for k := 0 to count
        invariant Valid(left) && left == Range(first, count) - Range(first, k)
        invariant Owned(buddy.pages[..]) == old(Owned(buddy.pages[..])) + Owners(first, k)
        invariant Available() == old(Available())
      {
        ghost var f := first + k;
        RangeStep(first, k, count, f);
        OneMoreOwner(old(Owned(buddy.pages[..])), first, k, f);
        Own(first + k, left);
        left := left - {f};
      }
      assert left == {};
    }

    /** Free pages taken from the buddy allocator all become owned. */
    method OwnTaken(first: nat, count: nat, ghost free: set<int>)
      requires Valid({} + Range(first, count))
      requires Range(first, count) <= free && FreeSet(buddy.pages[..]) == free - Range(first, count)
      modifies this, buddy.pages
      ensures Valid({})
      ensures Range(first, count) <= free + old(cached) && Available() == free + old(cached) - Range(first, count)
      ensures Owned(buddy.pages[..]) == old(Owned(buddy.pages[..])) + Owners(first, count)
    {
      hide Owned, Owners, FreeSet, Range;
      assert {} + Range(first, count) == Range(first, count);
      assert Range(first, count) !! cached;
      OwnAll(first, count);
    }

    /** The block path of alloc_frames_aligned: buddy first, then again with the caches drained. */
    method AllocBlock(count: nat, order: nat) returns (first: Option<nat>)
      requires Valid({}) && 0 < count <= Pow2(order)
      modifies this, buddy, buddy.pages, buddy.freeHead, buddy.freeCount
      ensures Valid({})
      ensures first.None? <==> order > buddy.maxOrder || !AlignedRun(old(Available()), order)
      ensures first.None? ==> Available() == old(Available()) && Owned(buddy.pages[..]) == old(Owned(buddy.pages[..]))
      ensures first.Some? ==> Aligned(first.value, order) && Range(first.value, count) <= old(Available())
      ensures first.Some? ==> Available() == old(Available()) - Range(first.value, count)
      ensures first.Some? ==> Owned(buddy.pages[..]) == old(Owned(buddy.pages[..])) + Owners(first.value, count)
    {
      hide *;
      MoreRuns(order);
      ghost var free := FreeSet(buddy.pages[..]);
      first := TakeUnits(order, count, {});
      if first.None? {
        MoreRuns(order);
        DrainAll({});
        AllFree();
        free := FreeSet(buddy.pages[..]);
        first := TakeUnits(order, count, {});
        if first.None? { AllFree(); return; }
      }
      OwnTaken(first.value, count, free);
    }

    lemma MoreRuns(order: nat)
      ensures
        && FreeSet(buddy.pages[..]) + cached == Available() && (buddy.FreeRun(order) ==> AlignedRun(Available(), order))
    {}

    lemma AllFree()
      requires cached == {}
      ensures FreeSet(buddy.pages[..]) == Available()
      ensures forall order: nat :: buddy.FreeRun(order) <==> AlignedRun(Available(), order)
    {}

    /** Frame 0 is never handed out, so address 0 can mean failure. */
    lemma NoFrameZero(pending: set<int>)
      requires Valid(pending)
      ensures 0 !in Available() && buddy.maxOrder <= buddy.configMax
      ensures forall p :: p in Available() ==> p >= 0
    {
      assert !Idle(buddy.pages[..], 0);
      forall p | p in cached ensures p >= 0 { assert Idle(buddy.pages[..], p); }
    }

    /** The frames for a request: the single-frame path or the block path. */
    method AllocFrames(count: nat, alignment: nat, cpu: nat) returns (first: Option<nat>)
      requires Valid({})
      modifies this, buddy, buddy.pages, buddy.freeHead, buddy.freeCount
      ensures Valid({})
      ensures first.None? <==> count == 0 || !Fits(old(Available()), count, alignment, buddy.maxOrder)
      ensures first.None? ==> Available() == old(Available()) && Owned(buddy.pages[..]) == old(Owned(buddy.pages[..]))
      ensures first.Some? ==>
          0 < count && Aligned(first.value, alignment) && Range(first.value, count) <= old(Available())
      ensures first.Some? ==> Available() == old(Available()) - Range(first.value, count)
      ensures first.Some? ==> Owned(buddy.pages[..]) == old(Owned(buddy.pages[..])) + Owners(first.value, count)
    {
      NoFrameZero({});
      hide *;
      if count == 0 { return None; }
      var order := OrderForUnits(count, buddy.configMax);
      if order > buddy.configMax {
        NothingFits(Available(), count, alignment, buddy.maxOrder, buddy.configMax);
        return None;
      }
      if alignment > order {
        Pow2Monotone(order, alignment);
        order := alignment;
      }
      LeastOrderDecides(Available(), count, alignment, buddy.maxOrder, order);
      if count == 1 && alignment == 0 {
        AnyFrameFits(Available(), buddy.maxOrder);
        first := AllocOne(cpu);
        if first.Some? { OneOwner(old(Owned(buddy.pages[..])), first.value); }
      } else {
        first := AllocBlock(count, order);
        if first.Some? { AlignedDown(first.value, alignment, order); }
      }
    }

    /** alloc_frames_aligned: the address of count contiguous frames, or 0. */
    method AllocAligned(count: nat, alignment: nat, cpu: nat) returns (addr: nat)
      requires Valid({})
      modifies this, buddy, buddy.pages, buddy.freeHead, buddy.freeCount
      ensures Valid({})
      ensures addr == 0 <==> count == 0 || !Fits(old(Available()), count, alignment, buddy.maxOrder)
      ensures addr == 0 ==> Available() == old(Available()) && Owned(buddy.pages[..]) == old(Owned(buddy.pages[..]))
      ensures addr != 0 ==>
                && 0 < count && addr % PAGE_SIZE == 0 && Aligned(addr / PAGE_SIZE, alignment)
                && Range(addr / PAGE_SIZE, count) <= old(Available())
                && Available() == old(Available()) - Range(addr / PAGE_SIZE, count)
                && Owned(buddy.pages[..]) == old(Owned(buddy.pages[..])) + Owners(addr / PAGE_SIZE, count)
    {
      NoFrameZero({});
      hide *;
      var first := AllocFrames(count, alignment, cpu);
      if first.None? { return 0; }
      assert first.value in Range(first.value, count) by { InItsRange(first.value, count); }
      addr := first.value * PAGE_SIZE;
    }

    lemma InItsRange(f: nat, count: nat)
      requires 0 < count
      ensures f in Range(f, count)
    {
      assert InRange(f, f, count);
    }

    // ---- Reference counts ----

    /** The checks shared by frame_retain_range and frame_release_range. */
    predicate InRam(addr: nat, count: nat) {
      0 < addr && 0 < count && addr % PAGE_SIZE == 0 && addr / PAGE_SIZE + count <= buddy.pages.Length
    }

    /** frame_retain_range */
    method Retain(addr: nat, count: nat) returns (status: Status)
      requires Valid({})
      modifies buddy.pages
      ensures Valid({})
      ensures status == Invalid <==> !InRam(addr, count)
      ensures status == Ok <==> InRam(addr, count) && Shareable(old(Owned(buddy.pages[..])), addr / PAGE_SIZE, count)
      ensures status == Ok ==> Owned(buddy.pages[..]) == Retained(old(Owned(buddy.pages[..])), addr / PAGE_SIZE, count)
      ensures status != Ok ==> Owned(buddy.pages[..]) == old(Owned(buddy.pages[..]))
      ensures FreeSet(buddy.pages[..]) == old(FreeSet(buddy.pages[..]))
    {
      hide Valid, FreeSet, Owned, Retained;
      if addr == 0 || count == 0 || addr % PAGE_SIZE != 0 { return Invalid; }
      var first := addr / PAGE_SIZE;
      if first >= buddy.pages.Length || count > buddy.pages.Length - first { return Invalid; }
      status := CheckShareable(first, count);
      if status != Ok { return; }
      NothingDone(old(Owned(buddy.pages[..])), first);
      for i := 0 to count
        invariant Valid({})
        invariant Owned(buddy.pages[..]) == Retained(old(Owned(buddy.pages[..])), first, i)
        invariant FreeSet(buddy.pages[..]) == old(FreeSet(buddy.pages[..]))
      {
        ghost var f := first + i;
        assert InRange(f, first, count);
        RetainedStep(old(Owned(buddy.pages[..])), first, i, f);
        RetainOne(first + i);
      }
    }

    method CheckShareable(first: nat, count: nat) returns (status: Status)
      requires Valid({}) && first + count <= buddy.pages.Length
      ensures status == Ok <==> Shareable(Owned(buddy.pages[..]), first, count)
      ensures status in {Ok, Fault, Overflow}
    {
      for i := 0 to count
        invariant Shareable(Owned(buddy.pages[..]), first, i)
      {
        var f := first + i;
        var page := buddy.pages[f];
        assert SinglePage(buddy.pages[..], f) && InRange(f, first, count);
        if page.state != AllocHead || page.order != 0 { return Fault; }
        if page.tag == 0 || page.tag == MAX_REFS { return Overflow; }
        OwnedStep(Owned(buddy.pages[..]), first, i, f);
      }
      return Ok;
    }

    method RetainOne(f: nat)
      requires Valid({}) && f in Owned(buddy.pages[..]) && Owned(buddy.pages[..])[f] < MAX_REFS
      modifies buddy.pages
      ensures Valid({}) && FreeSet(buddy.pages[..]) == old(FreeSet(buddy.pages[..]))
      ensures Owned(buddy.pages[..]) == old(Owned(buddy.pages[..]))[f := old(Owned(buddy.pages[..]))[f] + 1]
    {
      ghost var before := buddy.pages[..];
      var tag := buddy.pages[f].tag + 1;
      SetTag(f, tag);
      RetaggedLedger(before, buddy.pages[..], caches, cached, {}, usable, f, tag);
    }

    /** frame_release_range: frames whose last owner lets go become available again, the others stay owned. */
    method Release(addr: nat, count: nat, cpu: nat) returns (status: Status)
      requires Valid({})
      modifies this, buddy, buddy.pages, buddy.freeHead, buddy.freeCount
      ensures Valid({})
      ensures status == Invalid <==> !InRam(addr, count)
      ensures status == Ok <==> InRam(addr, count) && AllOwned(old(Owned(buddy.pages[..])), addr / PAGE_SIZE, count)
      ensures status == Ok ==>
                && Owned(buddy.pages[..]) == Released(old(Owned(buddy.pages[..])), addr / PAGE_SIZE, count)
                && Available() == old(Available()) + LastOwned(old(Owned(buddy.pages[..])), addr / PAGE_SIZE, count)
      ensures status != Ok ==> Owned(buddy.pages[..]) == old(Owned(buddy.pages[..])) && Available() == old(Available())
    {
      hide Valid, FreeSet, Owned, Released, LastOwned, Available;
      if addr == 0 || count == 0 || addr % PAGE_SIZE != 0 { return Invalid; }
      var first := addr / PAGE_SIZE;
      if first >= buddy.pages.Length || count > buddy.pages.Length - first { return Invalid; }
      var owned := CheckOwned(first, count);
      if !owned { return Fault; }
      DropAndHandOff(first, count, cpu);
      return Ok;
    }

    method CheckOwned(first: nat, count: nat) returns (ok: bool)
      requires Valid({}) && first + count <= buddy.pages.Length
      ensures ok <==> AllOwned(Owned(buddy.pages[..]), first, count)
    {
      for i := 0 to count
        invariant AllOwned(Owned(buddy.pages[..]), first, i)
      {
        var f := first + i;
        var page := buddy.pages[f];
        assert SinglePage(buddy.pages[..], f) && InRange(f, first, count);
        if page.state != AllocHead || page.order != 0 || page.tag == 0 { return false; }
        OwnedStep(Owned(buddy.pages[..]), first, i, f);
      }
      return true;
    }

    /** Take one owner from each frame, then hand the ownerless ones to the cache of the CPU. */
    method DropAndHandOff(first: nat, count: nat, cpu: nat)
      requires Valid({}) && AllOwned(Owned(buddy.pages[..]), first, count)
      modifies this, buddy, buddy.pages, buddy.freeHead, buddy.freeCount
      ensures Valid({})
      ensures Owned(buddy.pages[..]) == Released(old(Owned(buddy.pages[..])), first, count)
      ensures Available() == old(Available()) + LastOwned(old(Owned(buddy.pages[..])), first, count)
    {
      hide Valid, FreeSet, Owned, Released, LastOwned, Available;
      ghost var owned := Owned(buddy.pages[..]);
      var handoff: seq<int> := [];
      NothingDone(owned, first);
      SomeOwner(buddy.pages[..]);
      for i := 0 to count
        invariant Lists(handoff, LastOwned(owned, first, i)) && Valid(LastOwned(owned, first, i))
        invariant Owned(buddy.pages[..]) == Released(owned, first, i)
        invariant Available() == old(Available())
      {
        ghost var f := first + i;
        assert InRange(f, first, count);
        ReleasedStep(owned, first, i, f);
        ghost var pending := LastOwned(owned, first, i);
        var last := DropOne(first + i, pending);
        if last {
          ListsMore(handoff, pending, first + i);
          handoff := handoff + [first + i];
        }
      }
      HandOff(handoff, cpu, LastOwned(owned, first, count));
    }

    /** Take one owner from a frame; says whether it was the last. */
    method DropOne(f: nat, ghost pending: set<int>) returns (last: bool)
      requires Valid(pending) && f in Owned(buddy.pages[..])
      modifies this, buddy.pages
      ensures last <==> old(Owned(buddy.pages[..]))[f] == 1
      ensures last ==>
          f !in pending && Valid(pending + {f}) && Owned(buddy.pages[..]) == old(Owned(buddy.pages[..])) - {f}
      ensures !last ==>
                Valid(pending)
                    && Owned(buddy.pages[..]) == old(Owned(buddy.pages[..]))[f := old(Owned(buddy.pages[..]))[f] - 1]
      ensures Available() == old(Available())
    {
      ghost var before := buddy.pages[..];
      assert SinglePage(before, f);
      var tag := buddy.pages[f].tag - 1;
      SetTag(f, tag);
      last := tag == 0;
      if last {
        DroppedLedger(before, buddy.pages[..], caches, cached, pending, usable, f);
        usable := usable + 1;
      } else {
        RetaggedLedger(before, buddy.pages[..], caches, cached, pending, usable, f, tag);
      }
    }

    /** Put the ownerless frames into the cache of the CPU. */
    method HandOff(handoff: seq<int>, cpu: nat, ghost pending: set<int>)
      requires Valid(pending) && Lists(handoff, pending)
      modifies this, buddy, buddy.pages, buddy.freeHead, buddy.freeCount
      ensures Valid({})
      ensures Owned(buddy.pages[..]) == old(Owned(buddy.pages[..]))
      ensures Available() == old(Available()) + pending
    {
      hide Valid, FreeSet, Owned, Available, Lists;
      ghost var left := pending;
      for i := 0 to |handoff|
        invariant Valid(left) && left <= pending && Lists(handoff[i..], left)
        invariant Owned(buddy.pages[..]) == old(Owned(buddy.pages[..]))
        invariant Available() == old(Available()) + (pending - left)
      {
        ListsNext(handoff[i..], left);
        PendingNat(left, handoff[i]);
        Put(cpu, handoff[i], left);
        left := left - {handoff[i]};
        assert handoff[i..][1..] == handoff[i + 1..];
      }
      assert handoff[|handoff|..] == [];
      ListsNone(left);
    }

    /** frame_validate: with the caches drained, the free count of the layer is the buddy allocator's. */
    method Validate() returns (status: Status)
      requires Valid({})
      modifies this, buddy, buddy.pages, buddy.freeHead, buddy.freeCount
      ensures Valid({}) && status == Ok
      ensures Owned(buddy.pages[..]) == old(Owned(buddy.pages[..])) && Available() == old(Available())
    {
      DrainAll({});
      assert usable == buddy.freePages;
      status := BuddyValidate.Validate(buddy);
      if status == Ok && usable != buddy.freePages { return Fault; }
    }
  }
}
