/** Cached pages on the global list, most recently used first: chances, counters and list surgery. */
module ReclaimList {
  import opened Basics

  const MIN_SCAN: nat := 4096
  const SCAN_PER_PAGE: nat := 32

  /** What a call asks for: all pages, or so many, and then with a limit on the pages written back. */
  datatype Target = All | AtMost(value: nat, cap: nat)

  /** One cached page; evictable: its mapping may be reclaimed from and is not pinned. */
  datatype Page = Page(referenced: bool, active: bool, dirty: bool, refs: nat, evictable: bool)

  type Pages = map<nat, Page>

  predicate Eligible(p: Page) { p.evictable && p.refs == 0 }

  /** How many visits of the scan the page still survives. */
  function Chances(p: Page): nat { if p.referenced then 2 else if p.active then 1 else 0 }

  function Aged(p: Page): Page {
    if p.referenced then p.(referenced := false, active := true) else p.(active := false)
  }

  // ---- Counting pages ----

  predicate IsActive(p: Page) { p.active }
  predicate IsInactive(p: Page) { !p.active }
  predicate IsDirty(p: Page) { p.dirty }
  predicate IsReferenced(p: Page) { p.referenced }
  predicate IsActiveOnly(p: Page) { p.active && !p.referenced }
  predicate IsPassed(p: Page) { !Eligible(p) || p.dirty } // a walk may pass it without aging it

  ghost function Having(pages: Pages, f: Page -> bool): set<nat> { set k | k in pages && f(pages[k]) }

  ghost function Count(pages: Pages, f: Page -> bool): nat { |Having(pages, f)| }

  function Bit(b: bool): nat { if b then 1 else 0 }

  lemma CountUpdate(pages: Pages, k: nat, p: Page, f: Page -> bool)
    requires k in pages
    ensures Count(pages[k := p], f) == Count(pages, f) - Bit(f(pages[k])) + Bit(f(p))
  {
    var a, b := Having(pages, f), Having(pages[k := p], f);
    assert a - {k} == b - {k};
    assert (k in a <==> f(pages[k])) && (k in b <==> f(p));
    hide Having;
    OneDiffers(a, b, k);
  }

  lemma CountRemove(pages: Pages, k: nat, f: Page -> bool)
    requires k in pages
    ensures Count(pages - {k}, f) == Count(pages, f) - Bit(f(pages[k]))
  {
    var a, b := Having(pages, f), Having(pages - {k}, f);
    assert a - {k} == b;
    assert k !in a ==> a - {k} == a;
  }

  lemma CountAdd(pages: Pages, k: nat, p: Page, f: Page -> bool)
    requires k !in pages
    ensures Count(pages[k := p], f) == Count(pages, f) + Bit(f(p))
  {
    var a, b := Having(pages, f), Having(pages[k := p], f);
    assert b - {k} == a;
    assert k !in b ==> b - {k} == b;
  }

  /** All chances together: what bounds the length of a scan. */
  ghost function TotalChances(pages: Pages): nat { 2 * Count(pages, IsReferenced) + Count(pages, IsActiveOnly) }

  lemma AgingUsesAChance(pages: Pages, k: nat)
    requires k in pages && Chances(pages[k]) > 0
    ensures Chances(Aged(pages[k])) == Chances(pages[k]) - 1
    ensures TotalChances(pages[k := Aged(pages[k])]) == TotalChances(pages) - 1
  {
    hide Count;
    CountUpdate(pages, k, Aged(pages[k]), IsReferenced);
    CountUpdate(pages, k, Aged(pages[k]), IsActiveOnly);
  }

  // ---- The list ----

  /** The list holds exactly the cached pages, each once. */
  ghost predicate Listed(lru: seq<nat>, pages: Pages) {
    && (forall k :: k in pages <==> k in lru)
    && (forall i, j :: 0 <= i < j < |lru| ==> lru[i] != lru[j])
  }

  /** Entry i unlinked and linked again at the head. */
  function ToFront(lru: seq<nat>, i: nat): seq<nat>
    requires i < |lru|
  {
    [lru[i]] + lru[..i] + lru[i + 1..]
  }

  function Unlinked(lru: seq<nat>, i: nat): seq<nat>
    requires i < |lru|
  {
    lru[..i] + lru[i + 1..]
  }

  lemma ToFrontListed(lru: seq<nat>, pages: Pages, i: nat)
    requires Listed(lru, pages) && i < |lru|
    ensures Listed(ToFront(lru, i), pages) && |ToFront(lru, i)| == |lru|
  {
    var after := ToFront(lru, i);
    forall k ensures k in lru <==> k in after {
      assert lru == lru[..i] + [lru[i]] + lru[i + 1..];
    }
  }

  lemma UnlinkedListed(lru: seq<nat>, pages: Pages, i: nat)
    requires Listed(lru, pages) && i < |lru|
    ensures Listed(Unlinked(lru, i), pages - {lru[i]}) && |Unlinked(lru, i)| == |lru| - 1
  {
    var after := Unlinked(lru, i);
    assert lru == lru[..i] + [lru[i]] + lru[i + 1..];
    forall k ensures k in after <==> k in lru && k != lru[i] {
      if k in lru && k != lru[i] { assert k in lru[..i] || k in lru[i + 1..]; }
    }
  }

  lemma ListedAt(lru: seq<nat>, pages: Pages, i: nat)
    requires Listed(lru, pages) && i < |lru|
    ensures lru[i] in pages
  {}

  lemma HeadStays(lru: seq<nat>)
    ensures lru != [] ==> ToFront(lru, 0) == lru
  {}

  lemma UpdateListed(lru: seq<nat>, pages: Pages, k: nat, p: Page)
    requires Listed(lru, pages) && k in pages
    ensures Listed(lru, pages[k := p])
  {}

  lemma InsertListed(lru: seq<nat>, pages: Pages, k: nat, p: Page)
    requires Listed(lru, pages) && k !in pages
    ensures Listed([k] + lru, pages[k := p]) && Listed(lru + [k], pages[k := p])
  {}

  // ---- The counters ----

  ghost predicate Counters(pages: Pages, total: int, active: int, inactive: int, dirty: int) {
    && total == |pages| && active == Count(pages, IsActive) && inactive == Count(pages, IsInactive)
    && dirty == Count(pages, IsDirty)
  }

  /** No chance left, and nothing else keeps the page. */
  predicate Takable(p: Page) { Eligible(p) && Chances(p) == 0 }

  // ---- What a call may do ----

  ghost function Times(visits: map<nat, nat>, k: nat): nat { if k in visits then visits[k] else 0 }

  /** Pages have lost exactly the chances they were visited for; nothing else has changed. */
  ghost predicate Worn(pages: Pages, pages': Pages, visits: map<nat, nat>, visits': map<nat, nat>) {
    && pages'.Keys == pages.Keys
    && (forall k {:trigger pages'[k]} :: k in pages ==>
          && pages'[k].dirty == pages[k].dirty && pages'[k].refs == pages[k].refs
             && pages'[k].evictable == pages[k].evictable
          && (!Eligible(pages[k]) ==> pages'[k] == pages[k])
          && Chances(pages'[k]) + Times(visits', k) == Chances(pages[k]) + Times(visits, k))
    && (forall k {:trigger Times(visits', k)} :: k !in pages ==> Times(visits', k) == Times(visits, k))
  }

  lemma WornSelf(pages: Pages, visits: map<nat, nat>)
    ensures Worn(pages, pages, visits, visits)
  {}

  lemma WornStep(pages: Pages, pages': Pages, visits: map<nat, nat>, visits': map<nat, nat>, k: nat)
    requires Worn(pages, pages', visits, visits') && k in pages' && Eligible(pages'[k]) && Chances(pages'[k]) > 0
    ensures Worn(pages, pages'[k := Aged(pages'[k])], visits, visits'[k := Times(visits', k) + 1])
  {
    forall j | j in pages ensures pages'[k := Aged(pages'[k])][j].refs == pages[j].refs {
      assert pages'[j].refs == pages[j].refs;
    }
    forall j | j !in pages ensures Times(visits'[k := Times(visits', k) + 1], j) == Times(visits, j) {
      assert Times(visits', j) == Times(visits, j);
    }
  }

  /**
   What a call may do: a page that is gone was unused and evictable, was clean or has been written
   back, and was visited once more than it had chances; every other page has at most aged and been cleaned.
   */
  ghost predicate Reclaimed(pages: Pages, pages': Pages, visits: map<nat, nat>, writeFails: set<nat>) {
    && pages'.Keys <= pages.Keys
    && (forall k {:trigger pages[k]} :: k in pages && k !in pages' ==>
          Eligible(pages[k]) && (pages[k].dirty ==> k !in writeFails) && Times(visits, k) == Chances(pages[k]) + 1)
    && (forall k {:trigger pages'[k]} :: k in pages' ==>
          && pages'[k].refs == pages[k].refs && pages'[k].evictable == pages[k].evictable
          && (!Eligible(pages[k]) ==> pages'[k] == pages[k])
          && (pages'[k].dirty ==> pages[k].dirty) && (pages[k].dirty && !pages'[k].dirty ==> k !in writeFails)
          && Chances(pages'[k]) + Times(visits, k) == Chances(pages[k]))
  }

  lemma ReclaimedSelf(pages: Pages, writeFails: set<nat>)
    ensures Reclaimed(pages, pages, map[], writeFails)
  {}

  lemma ReclaimedWorn(pages: Pages, mid: Pages, after: Pages, visits: map<nat, nat>, visits': map<nat, nat>,
                      writeFails: set<nat>)
    requires Reclaimed(pages, mid, visits, writeFails) && Worn(mid, after, visits, visits')
    ensures Reclaimed(pages, after, visits', writeFails)
  {
    forall k | k in pages && k !in after ensures Times(visits', k) == Chances(pages[k]) + 1 {
      assert Times(visits', k) == Times(visits, k);
    }
    forall k | k in after
        ensures Chances(after[k]) + Times(visits', k) == Chances(pages[k]) && after[k].refs == pages[k].refs {
      assert mid[k].refs == pages[k].refs;
    }
    forall k | k in after && !Eligible(pages[k]) ensures after[k] == pages[k] { assert mid[k] == pages[k]; }
    forall k | k in after
        ensures (after[k].dirty ==> pages[k].dirty) && (pages[k].dirty && !after[k].dirty ==> k !in writeFails) {
      assert mid[k].dirty == after[k].dirty;
    }
  }

  lemma ReclaimedClean(pages: Pages, mid: Pages, visits: map<nat, nat>, writeFails: set<nat>, k: nat)
    requires Reclaimed(pages, mid, visits, writeFails) && k in mid && Eligible(mid[k]) && k !in writeFails
    ensures Reclaimed(pages, mid[k := mid[k].(dirty := false)], visits, writeFails)
  {}

  lemma ReclaimedFree(pages: Pages, mid: Pages, visits: map<nat, nat>, writeFails: set<nat>, k: nat)
    requires Reclaimed(pages, mid, visits, writeFails) && k in mid && Takable(mid[k]) && !mid[k].dirty
    ensures Reclaimed(pages, mid - {k}, visits[k := Times(visits, k) + 1], writeFails)
  {
    assert mid[k].refs == pages[k].refs;
  }

  /** Behind the head of the list there is nothing left that could ever be reclaimed. */
  ghost predicate Exhausted(lru: seq<nat>, pages: Pages) {
    forall j :: 0 < j < |lru| ==> lru[j] in pages && !Eligible(pages[lru[j]])
  }

  /** A page that could go cannot be written back. */
  ghost predicate WriteFailed(pages: Pages, writeFails: set<nat>) {
    exists k :: k in pages && k in writeFails && Takable(pages[k]) && pages[k].dirty
  }
}
