/** Slabs, large blocks and the allocations in them. */
module HeapObjects {
  import opened Basics
  import opened HeapLayout

  /** One slab: its free objects as a stack, and the size asked for of each object handed out. */
  datatype Slab = Slab(cache: nat, slots: Slots, free: seq<nat>, requested: map<nat, nat>)

  /** One large block; user is the offset of the caller's bytes. */
  datatype Large = Large(order: nat, user: nat, requested: nat)

  /** The three lists of a cache, most recent first. */
  datatype Queue = Queue(partial: seq<nat>, full: seq<nat>, empty: seq<nat>)

  datatype Kind = Partial | Full | Empty

  type Slabs = map<nat, Slab>
  type Larges = map<nat, Large>

  // ---- Slabs ----

  ghost function FreeIndices(s: Slab): set<nat> { set i | 0 <= i < s.slots.count && i !in s.requested }

  ghost predicate SlabOk(caches: seq<Cache>, s: Slab) {
    && s.cache < |caches| && SlotsOk(caches[s.cache], s.slots)
    && Lists(s.free, FreeIndices(s))
    && (forall i :: i in s.requested ==> i < s.slots.count && 0 < s.requested[i] <= caches[s.cache].objectSize)
  }

  /** Objects in use and free objects make up the slab. */
  lemma InUse(caches: seq<Cache>, s: Slab)
    requires SlabOk(caches, s)
    ensures |s.requested| + |s.free| == s.slots.count
    ensures |s.requested| == s.slots.count <==> s.free == []
  {
    BelowSize(s.slots.count);
    assert Below(s.slots.count) == s.requested.Keys + FreeIndices(s);
    ListLength(s.free, FreeIndices(s));
  }

  predicate Less(i: nat, n: nat) { i < n }

  ghost function Below(n: nat): set<nat> { set i | 0 <= i < n && Less(i, n) }

  lemma {:induction false} BelowSize(n: nat)
    ensures |Below(n)| == n
  {
    if n > 0 {
      BelowSize(n - 1);
      forall i: nat ensures i in Below(n) <==> i in Below(n - 1) || i == n - 1 {
        assert Less(i, n) <==> Less(i, n - 1) || i == n - 1;
      }
      assert Below(n) == Below(n - 1) + {n - 1};
    }
  }

  lemma {:induction false} ListLength(list: seq<nat>, s: set<nat>)
    requires Lists(list, s)
    ensures |list| == |s|
    decreases |list|
  {
    if list == [] {
      ListsNone(s);
    } else {
      ListsNext(list, s);
      ListLength(list[1..], s - {list[0]});
    }
  }

  function KindOf(s: Slab): Kind {
    if s.requested == map[] then Empty else if |s.requested| == s.slots.count then Full else Partial
  }

  /** The top free object handed out. */
  function Given(s: Slab, size: nat): Slab
    requires s.free != []
  {
    Slab(s.cache, s.slots, s.free[1..], s.requested[s.free[0] := size])
  }

  lemma GivenOk(caches: seq<Cache>, s: Slab, size: nat)
    requires SlabOk(caches, s) && s.free != [] && 0 < size <= caches[s.cache].objectSize
    ensures s.free[0] < s.slots.count && s.free[0] !in s.requested && SlabOk(caches, Given(s, size))
    ensures KindOf(Given(s, size)) == if |s.requested| + 1 == s.slots.count then Full else Partial
  {
    ListsNext(s.free, FreeIndices(s));
    assert FreeIndices(Given(s, size)) == FreeIndices(s) - {s.free[0]};
    assert s.free[0] in Given(s, size).requested;
    assert Given(s, size).requested - {s.free[0]} == s.requested;
  }

  /** An object given back goes on top. */
  function Returned(s: Slab, i: nat): Slab {
    Slab(s.cache, s.slots, [i] + s.free, s.requested - {i})
  }

  lemma ReturnedOk(caches: seq<Cache>, s: Slab, i: nat)
    requires SlabOk(caches, s) && i in s.requested
    ensures SlabOk(caches, Returned(s, i))
    ensures KindOf(Returned(s, i)) == if |s.requested| == 1 then Empty else Partial
  {
    var r := Returned(s, i);
    assert FreeIndices(r) == FreeIndices(s) + {i};
    forall x ensures x in FreeIndices(r) <==> x in r.free { assert x in r.free <==> x == i || x in s.free; }
    assert |r.requested| == |s.requested| - 1;
    InUse(caches, s);
  }

  ghost predicate LargeOk(l: Large) {
    LARGE_HEADER <= l.user && 0 < l.requested && l.user + l.requested <= Bytes(l.order)
  }

  // ---- Allocations ----

  datatype Ref = Object(page: nat, i: nat) | Whole(page: nat)

  ghost predicate Live(slabs: Slabs, larges: Larges, r: Ref) {
    match r
    case Object(page, i) => page in slabs && i in slabs[page].requested
    case Whole(page) => page in larges
  }

  /** The offset of an allocation within its block. */
  function OffsetOf(caches: seq<Cache>, slabs: Slabs, larges: Larges, r: Ref): nat {
    match r
    case Object(page, i) => if page in slabs && slabs[page].cache < |caches|
        then ObjectAt(caches[slabs[page].cache], slabs[page].slots, i) else 0
    case Whole(page) => if page in larges then larges[page].user else 0
  }

  /** How many bytes the owner of an allocation may use. */
  function UsableOf(caches: seq<Cache>, slabs: Slabs, larges: Larges, r: Ref): nat {
    match r
    case Object(page, i) => if page in slabs && slabs[page].cache < |caches| then caches[slabs[page].cache].objectSize
        else 0
    case Whole(page) => if page in larges && larges[page].user <= Bytes(larges[page].order)
        then Bytes(larges[page].order) - larges[page].user else 0
  }

  function AddressOf(base: nat, caches: seq<Cache>, slabs: Slabs, larges: Larges, r: Ref): nat {
    base + r.page * PAGE + OffsetOf(caches, slabs, larges, r)
  }

  // ---- The state of the heap ----

  ghost predicate CachesOk(caches: seq<Cache>) { forall c :: 0 <= c < |caches| ==> CacheOk(caches[c]) }

  /** Every block is one slab or one large allocation. */
  ghost predicate BlockOk(blocks: map<int, nat>, caches: seq<Cache>, slabs: Slabs, larges: Larges, h: int) {
    && (h in blocks <==> h >= 0 && (h in slabs || h in larges))
    && !(h >= 0 && h in slabs && h in larges)
    && (h >= 0 && h in slabs ==> SlabOk(caches, slabs[h]) && blocks[h] == caches[slabs[h].cache].order)
    && (h >= 0 && h in larges ==> LargeOk(larges[h]) && blocks[h] == larges[h].order)
  }

  ghost predicate StateOk(blocks: map<int, nat>, caches: seq<Cache>, slabs: Slabs, larges: Larges) {
    CachesOk(caches) && forall h {:trigger BlockOk(blocks, caches, slabs, larges, h)} ::
        BlockOk(blocks, caches, slabs, larges, h)
  }

  ghost function SlabsOf(slabs: Slabs, c: nat, k: Kind): set<nat> {
    set h | h in slabs && slabs[h].cache == c && KindOf(slabs[h]) == k
  }

  function ListOf(q: Queue, k: Kind): seq<nat> {
    match k
    case Partial => q.partial
    case Full => q.full
    case Empty => q.empty
  }

  /** A list of a cache holds exactly the slabs of its kind. */
  ghost predicate ListOk(slabs: Slabs, q: Queue, c: nat, k: Kind) { Lists(ListOf(q, k), SlabsOf(slabs, c, k)) }

  ghost predicate QueueOk(slabs: Slabs, q: Queue, c: nat) {
    ListOk(slabs, q, c, Partial) && ListOk(slabs, q, c, Full) && ListOk(slabs, q, c, Empty)
  }

  ghost predicate AllQueued(slabs: Slabs, queues: seq<Queue>) {
    forall c {:trigger queues[c]} :: 0 <= c < |queues| ==> QueueOk(slabs, queues[c], c)
  }

  /** A cache keeps at most one empty slab. */
  ghost predicate FewEmpty(queues: seq<Queue>) { forall c :: 0 <= c < |queues| ==> |queues[c].empty| <= 1 }

  // ---- What allocation promises ----

  lemma LiveInside(blocks: map<int, nat>, caches: seq<Cache>, slabs: Slabs, larges: Larges, r: Ref)
    requires StateOk(blocks, caches, slabs, larges) && Live(slabs, larges, r)
    ensures r.page in blocks
    ensures 0 < OffsetOf(caches, slabs, larges, r) && 0 < UsableOf(caches, slabs, larges, r)
    ensures OffsetOf(caches, slabs, larges, r) + UsableOf(caches, slabs, larges, r) <= Bytes(blocks[r.page])
  {
    assert BlockOk(blocks, caches, slabs, larges, r.page);
    if r.Object? { ObjectInside(caches[slabs[r.page].cache], slabs[r.page].slots, r.i); }
  }

  /** The pages of two blocks are apart. */
  ghost predicate Apart(blocks: map<int, nat>) {
    forall h, k :: h in blocks && k in blocks && h < k ==> h + Pow2(blocks[h]) <= k
  }

  /** Live allocations never overlap. */
  lemma LiveApart(blocks: map<int, nat>, base: nat, caches: seq<Cache>, slabs: Slabs, larges: Larges, r: Ref, s: Ref)
    requires
      && StateOk(blocks, caches, slabs, larges) && Apart(blocks) && Live(slabs, larges, r) && Live(slabs, larges, s)
      && r != s
    ensures var a, b := AddressOf(base, caches, slabs, larges, r), AddressOf(base, caches, slabs, larges, s);
            a + UsableOf(caches, slabs, larges, r) <= b || b + UsableOf(caches, slabs, larges, s) <= a
  {
    LiveInside(blocks, caches, slabs, larges, r);
    LiveInside(blocks, caches, slabs, larges, s);
    assert BlockOk(blocks, caches, slabs, larges, r.page) && BlockOk(blocks, caches, slabs, larges, s.page);
    if r.page == s.page {
      var c, slots := caches[slabs[r.page].cache], slabs[r.page].slots;
      if r.i < s.i { ObjectsApart(c, slots, r.i, s.i); } else { ObjectsApart(c, slots, s.i, r.i); }
    } else {
      hide OffsetOf, UsableOf, StateOk;
    }
  }

  /** An address inside an allocation lies on a page of its block. */
  lemma OwnPage(blocks: map<int, nat>, base: nat, caches: seq<Cache>, slabs: Slabs, larges: Larges, r: Ref)
    requires StateOk(blocks, caches, slabs, larges) && Live(slabs, larges, r)
    ensures r.page in blocks
    ensures var p := (AddressOf(base, caches, slabs, larges, r) - base) / PAGE;
        r.page <= p < r.page + Pow2(blocks[r.page])
  {
    LiveInside(blocks, caches, slabs, larges, r);
    hide OffsetOf, UsableOf, StateOk;
  }

  // ---- Moving slabs between lists ----

  function Drop(q: Queue, k: Kind, h: nat): Queue {
    match k
    case Partial => q.(partial := Without(q.partial, h))
    case Full => q.(full := Without(q.full, h))
    case Empty => q.(empty := Without(q.empty, h))
  }

  function Push(q: Queue, k: Kind, h: nat): Queue {
    match k
    case Partial => q.(partial := [h] + q.partial)
    case Full => q.(full := [h] + q.full)
    case Empty => q.(empty := [h] + q.empty)
  }

  lemma SlabsOfUpdate(slabs: Slabs, h: nat, s: Slab, c: nat, k: Kind)
    ensures SlabsOf(slabs[h := s], c, k) == SlabsOf(slabs, c, k) - {h} + if s.cache == c && KindOf(s) == k then {h}
        else {}
  {}

  lemma SlabsOfRemove(slabs: Slabs, h: nat, c: nat, k: Kind)
    ensures SlabsOf(slabs - {h}, c, k) == SlabsOf(slabs, c, k) - {h}
  {}

  /** One list when slab h of cache c has changed from one kind to another. */
  lemma ListRequeued(slabs: Slabs, q: Queue, h: nat, s: Slab, c: nat, k: Kind)
    requires h in slabs && slabs[h].cache == c == s.cache && ListOk(slabs, q, c, k)
    ensures ListOk(slabs[h := s], Push(Drop(q, KindOf(slabs[h]), h), KindOf(s), h), c, k)
  {
    var list, members := ListOf(q, k), SlabsOf(slabs, c, k);
    SlabsOfUpdate(slabs, h, s, c, k);
    assert h in members <==> k == KindOf(slabs[h]);
    hide SlabsOf, Lists;
    ListsWithout(list, members, h);
    ListsPush(list, members, h);
    ListsPush(Without(list, h), members - {h}, h);
    assert h !in members ==> members - {h} == members;
  }

  lemma ListQueued(slabs: Slabs, q: Queue, h: nat, s: Slab, c: nat, k: Kind)
    requires h !in slabs && s.cache == c && ListOk(slabs, q, c, k)
    ensures ListOk(slabs[h := s], Push(q, KindOf(s), h), c, k)
  {
    var list, members := ListOf(q, k), SlabsOf(slabs, c, k);
    SlabsOfUpdate(slabs, h, s, c, k);
    assert h !in members && members - {h} == members;
    hide SlabsOf, Lists;
    ListsPush(list, members, h);
  }

  lemma ListUnqueued(slabs: Slabs, q: Queue, h: nat, c: nat, k: Kind)
    requires h in slabs && slabs[h].cache == c && ListOk(slabs, q, c, k)
    ensures ListOk(slabs - {h}, Drop(q, KindOf(slabs[h]), h), c, k)
  {
    var list, members := ListOf(q, k), SlabsOf(slabs, c, k);
    SlabsOfRemove(slabs, h, c, k);
    assert h in members <==> k == KindOf(slabs[h]);
    hide SlabsOf, Lists;
    ListsWithout(list, members, h);
    assert h !in members ==> members - {h} == members;
  }

  /** The lists of other caches are not touched. */
  lemma OtherCache(slabs: Slabs, slabs': Slabs, h: nat, c: nat, q: Queue, d: nat)
    requires QueueOk(slabs, q, d) && d != c
    requires forall x {:trigger x in slabs'} :: x != h ==>
        (x in slabs' <==> x in slabs) && (x in slabs' ==> slabs'[x] == slabs[x])
    requires (h in slabs ==> slabs[h].cache == c) && (h in slabs' ==> slabs'[h].cache == c)
    ensures QueueOk(slabs', q, d)
  {
    assert forall k :: SlabsOf(slabs', d, k) == SlabsOf(slabs, d, k);
  }

  lemma Requeued(slabs: Slabs, queues: seq<Queue>, h: nat, s: Slab, c: nat)
    requires c < |queues| && h in slabs && slabs[h].cache == c == s.cache && AllQueued(slabs, queues)
    ensures AllQueued(slabs[h := s], queues[c := Push(Drop(queues[c], KindOf(slabs[h]), h), KindOf(s), h)])
  {
    hide ListOk;
    var q := queues[c];
    assert QueueOk(slabs, q, c);
    ListRequeued(slabs, q, h, s, c, Partial);
    ListRequeued(slabs, q, h, s, c, Full);
    ListRequeued(slabs, q, h, s, c, Empty);
    forall d | 0 <= d < |queues| && d != c ensures QueueOk(slabs[h := s], queues[d], d) {
      OtherCache(slabs, slabs[h := s], h, c, queues[d], d);
    }
  }

  lemma Queued(slabs: Slabs, queues: seq<Queue>, h: nat, s: Slab, c: nat)
    requires c < |queues| && h !in slabs && s.cache == c && AllQueued(slabs, queues)
    ensures AllQueued(slabs[h := s], queues[c := Push(queues[c], KindOf(s), h)])
  {
    hide ListOk;
    var q := queues[c];
    assert QueueOk(slabs, q, c);
    ListQueued(slabs, q, h, s, c, Partial);
    ListQueued(slabs, q, h, s, c, Full);
    ListQueued(slabs, q, h, s, c, Empty);
    forall d | 0 <= d < |queues| && d != c ensures QueueOk(slabs[h := s], queues[d], d) {
      OtherCache(slabs, slabs[h := s], h, c, queues[d], d);
    }
  }

  lemma Unqueued(slabs: Slabs, queues: seq<Queue>, h: nat, c: nat)
    requires c < |queues| && h in slabs && slabs[h].cache == c && AllQueued(slabs, queues)
    ensures AllQueued(slabs - {h}, queues[c := Drop(queues[c], KindOf(slabs[h]), h)])
  {
    hide ListOk;
    var q := queues[c];
    assert QueueOk(slabs, q, c);
    ListUnqueued(slabs, q, h, c, Partial);
    ListUnqueued(slabs, q, h, c, Full);
    ListUnqueued(slabs, q, h, c, Empty);
    forall d | 0 <= d < |queues| && d != c ensures QueueOk(slabs - {h}, queues[d], d) {
      OtherCache(slabs, slabs - {h}, h, c, queues[d], d);
    }
  }
}
