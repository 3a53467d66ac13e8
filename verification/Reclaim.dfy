/** Aging and reclaim on the global list of cached pages, most recently used first. */
module Reclaim {
  import opened Basics
  import opened ReclaimList
  import opened ReclaimOrder
  import opened ReclaimPlan
  import opened ReclaimCourse

  // ---- What the condition says ----

  /**
   When nothing reclaimable is dirty: the target has to exceed what is not in use, and one visit beside others
   must do.
   */
  lemma AllClean(lru: seq<nat>, pages: Pages, target: Target, fails: set<nat>)
    requires Listed(lru, pages) && forall k :: k in pages && Eligible(pages[k]) ==> !pages[k].dirty
    ensures InUseGoes(lru, pages, target, fails) <==>
              && (target.AtMost? ==> |Group(pages, false, false)| < target.value)
              && exists r :: r in Group(pages, true, false) && Within(lru, pages, r, 0)
  {
    hide Within;
    assert Group(pages, false, true) == {} && Group(pages, true, true) == {};
    assert Writable(lru, pages, 0, fails);
    if r :| r in Group(pages, true, false) && Within(lru, pages, r, 0) {
      assert (target.AtMost? ==> |Group(pages, false, false)| + 0 < target.value) ==>
          CleanGoes(lru, pages, target, fails);
    }
  }

  /** With two clean pages in use the order of the list no longer matters. */
  lemma SeveralInUse(lru: seq<nat>, pages: Pages, target: Target, fails: set<nat>, p: nat, q: nat)
    requires Listed(lru, pages) && forall k :: k in pages && Eligible(pages[k]) ==> !pages[k].dirty
    requires p in Group(pages, true, false) && q in Group(pages, true, false) && p != q
    ensures InUseGoes(lru, pages, target, fails) <==> (target.AtMost? ==> |Group(pages, false, false)| < target.value)
  {
    AllClean(lru, pages, target, fails);
    OneOrTheOther(lru, pages, p, q);
    if Sooner(lru, pages, p, q) { NotLast(lru, pages, p, q); } else { NotLast(lru, pages, q, p); }
  }

  /** A page in use that is alone on the list is never taken: each walk uses up one chance and gives up. */
  lemma AloneStays(k: nat, page: Page, target: Target, fails: set<nat>)
    requires page.referenced
    ensures Listed([k], map[k := page]) && !InUseGoes([k], map[k := page], target, fails)
  {
    var lru, pages := [k], map[k := page];
    assert lru[0] == k && k in lru && k in pages;
    assert Listed(lru, pages);
    assert Group(pages, false, true) == {};
    if Eligible(page) { assert !Within(lru, pages, k, 0); }
  }

  /**
   One call with target 1 on two pages in use takes all chances of one of them, the comment on aging
   notwithstanding, whatever the limit on writing back and whichever writes fail.
   */
  lemma OneCallTakesAllChances(cap: nat, fails: set<nat>)
    requires cap <= 64
    ensures var page := Page(true, false, false, 0, true);
            var lru, pages := [1, 2], map[1 := page, 2 := page];
            Listed(lru, pages) && InUseGoes(lru, pages, AtMost(1, cap), fails) && Suffices(pages, AtMost(1, cap))
  {
    var page := Page(true, false, false, 0, true);
    var lru, pages := [1, 2], map[1 := page, 2 := page];
    TwoInUse(page);
    SeveralInUse(lru, pages, AtMost(1, cap), fails, 1, 2);
    hide Group, Listed, InUseGoes;
    assert Having(pages, IsPassed) == {} && pages.Keys == {1, 2};
    assert |pages| == |pages.Keys|;
  }

  lemma TwoInUse(page: Page)
    requires Eligible(page) && page.referenced && !page.dirty
    ensures var lru, pages := [1, 2], map[1 := page, 2 := page];
            && Listed(lru, pages) && Group(pages, false, false) == {}
            && 1 in Group(pages, true, false) && 2 in Group(pages, true, false)
  {
    var lru, pages := [1, 2], map[1 := page, 2 := page];
    assert lru[0] == 1 && lru[1] == 2;
  }

  class Cache {
    var lru: seq<nat>               // most recently used first
    var pages: Pages
    var total: int
    var active: int
    var inactive: int
    var dirty: int
    ghost var visits: map<nat, nat> // how often the scans of this call have aged or taken a page

    ghost predicate Valid()
      reads this
    {
      Listed(lru, pages) && Counters(pages, total, active, inactive, dirty)
    }

    constructor ()
      ensures Valid() && lru == []
    {
      lru, pages := [], map[];
      total, active, inactive, dirty := 0, 0, 0, 0;
      visits := map[];
      new;
      assert Having(pages, IsActive) == Having(pages, IsInactive) == Having(pages, IsDirty) == {};
    }

    /** The end of pc_get_page: a page that was asked for goes to the head, one that was read ahead to the tail. */
    method Insert(k: nat, accessed: bool, evictable: bool)
      requires Valid() && k !in pages
      modifies this`lru, this`pages, this`total, this`inactive
      ensures Valid() && pages == old(pages)[k := Page(accessed, false, false, 1, evictable)]
      ensures lru == if accessed then [k] + old(lru) else old(lru) + [k]
    {
      hide Count, Listed;
      var p := Page(accessed, false, false, 1, evictable);
      CountAdd(pages, k, p, IsActive);
      CountAdd(pages, k, p, IsInactive);
      CountAdd(pages, k, p, IsDirty);
      InsertListed(lru, pages, k, p);
      pages := pages[k := p];
      lru := if accessed then [k] + lru else lru + [k];
      total := total + 1;
      inactive := inactive + 1;
    }

    /** pagecache_mark_dirty */
    method MarkDirty(k: nat)
      requires Valid() && k in pages
      modifies this`pages, this`dirty
      ensures Valid() && pages == old(pages)[k := old(pages)[k].(dirty := true, referenced := true)]
    {
      hide Count, Listed;
      var p := pages[k].(dirty := true, referenced := true);
      CountUpdate(pages, k, p, IsActive);
      CountUpdate(pages, k, p, IsInactive);
      CountUpdate(pages, k, p, IsDirty);
      UpdateListed(lru, pages, k, p);
      if !pages[k].dirty { dirty := dirty + 1; }
      pages := pages[k := p];
    }

    /** A user takes or drops a reference. */
    method SetReferences(k: nat, refs: nat)
      requires Valid() && k in pages
      modifies this`pages
      ensures Valid() && pages == old(pages)[k := old(pages)[k].(refs := refs)]
    {
      hide Count, Listed;
      var p := pages[k].(refs := refs);
      CountUpdate(pages, k, p, IsActive);
      CountUpdate(pages, k, p, IsInactive);
      CountUpdate(pages, k, p, IsDirty);
      UpdateListed(lru, pages, k, p);
      assert pages[k := p].Keys == pages.Keys && |pages[k := p]| == |pages[k := p].Keys|;
      pages := pages[k := p];
    }

    /** One step of aging: the page loses a chance and moves to the head. */
    method Age(i: nat)
      requires Valid() && i < |lru| && lru[i] in pages && Chances(pages[lru[i]]) > 0
      modifies this`lru, this`pages, this`active, this`inactive
      ensures Valid()
      ensures lru == ToFront(old(lru), i) && |lru| == |old(lru)|
      ensures pages == old(pages)[old(lru)[i] := Aged(old(pages)[old(lru)[i]])]
      ensures TotalChances(pages) == old(TotalChances(pages)) - 1
    {
      hide Count, Listed, ToFront, TotalChances;
      ListedAt(lru, pages, i);
      var k := lru[i];
      var p := pages[k];
      AgingUsesAChance(pages, k);
      CountUpdate(pages, k, Aged(p), IsActive);
      CountUpdate(pages, k, Aged(p), IsInactive);
      CountUpdate(pages, k, Aged(p), IsDirty);
      UpdateListed(lru, pages, k, Aged(p));
      ToFrontListed(lru, pages[k := Aged(p)], i);
      if p.referenced {
        if !p.active {
          active := active + 1;
          inactive := inactive - 1;
        }
        pages := pages[k := p.(referenced := false, active := true)];
      } else {
        pages := pages[k := p.(active := false)];
        active := active - 1;
        inactive := inactive + 1;
      }
      HeadStays(lru);
      if i != 0 { lru := ToFront(lru, i); }
    }

    /** pc_unlink_page and pc_free_page */
    method Free(i: nat)
      requires Valid() && i < |lru|
      modifies this`lru, this`pages, this`total, this`active, this`inactive, this`dirty
      ensures Valid() && lru == Unlinked(old(lru), i) && pages == old(pages) - {old(lru)[i]}
      ensures TotalChances(pages) <= old(TotalChances(pages)) && |pages| == |old(pages)| - 1
    {
      hide Count, Listed, Unlinked;
      ListedAt(lru, pages, i);
      var k := lru[i];
      CountRemove(pages, k, IsActive);
      CountRemove(pages, k, IsInactive);
      CountRemove(pages, k, IsDirty);
      CountRemove(pages, k, IsReferenced);
      CountRemove(pages, k, IsActiveOnly);
      UnlinkedListed(lru, pages, i);
      if pages[k].dirty { dirty := dirty - 1; }
      if pages[k].active { active := active - 1; } else { inactive := inactive - 1; }
      total := total - 1;
      lru := Unlinked(lru, i);
      assert |pages - {k}| == |pages| - 1;
      pages := pages - {k};
    }

    /** pc_touch for a page that is not being evicted */
    method Touch(i: nat)
      requires Valid() && i < |lru|
      modifies this`lru, this`pages, this`active, this`inactive
      ensures Valid()
      ensures var k := old(lru)[i]; var p := old(pages)[k];
              pages == old(pages)[k := if p.referenced then p.(active := true) else p.(referenced := true)]
      ensures lru == if old(pages)[old(lru)[i]].active then old(lru) else ToFront(old(lru), i)
    {
      hide Count, Listed, ToFront;
      ListedAt(lru, pages, i);
      var k := lru[i];
      var p := pages[k];
      var touched := if p.referenced then p.(active := true) else p.(referenced := true);
      CountUpdate(pages, k, touched, IsActive);
      CountUpdate(pages, k, touched, IsInactive);
      CountUpdate(pages, k, touched, IsDirty);
      UpdateListed(lru, pages, k, touched);
      ToFrontListed(lru, pages[k := touched], i);
      if p.active {
        pages := pages[k := p.(referenced := true)];
        return;
      }
      if p.referenced {
        active := active + 1;
        inactive := inactive - 1;
      }
      pages := pages[k := touched];
      HeadStays(lru);
      if i != 0 { lru := ToFront(lru, i); }
    }

    /**
     One walk from the tail: ages pages until it meets one that can go; remembers a dirty one on the way.
     The ghost parameters tie it to the state when the call began.
     */
    method Scan(unlimited: bool, budget: nat, already: nat, ghost lru0: seq<nat>, ghost pages0: Pages, ghost last: nat,
                ghost s: nat)
      returns (victim: int, found: Option<nat>, scanned: nat, ghost full: bool, ghost visited: bool)
      requires Valid() && Follows(lru0, pages0, lru, pages, last, s) && OnlyLast(lru0, pages0, last)
      modifies this`lru, this`pages, this`active, this`inactive, this`visits
      ensures Valid() && |pages| == |old(pages)| && Worn(old(pages), pages, old(visits), visits)
      ensures Follows(lru0, pages0, lru, pages, last, if visited then s + 1 else s)
      ensures -1 <= victim < |lru|
      ensures victim >= 0 ==> !visited && FirstClean(lru, pages, lru[victim]) && Passed(lru, pages, victim)
      ensures found.Some? ==> found.value in pages && Takable(pages[found.value]) && pages[found.value].dirty
      ensures victim < 0 && full ==> NothingClean(lru0, pages0, lru, pages, last, s, found, visited)
      ensures !full ==> victim < 0 && !visited && !unlimited && budget <= scanned
      ensures scanned <= already + 1 + Count(pages, IsPassed) + old(TotalChances(pages)) - TotalChances(pages)
      ensures Count(pages, IsDirty) == old(Count(pages, IsDirty)) && TotalChances(pages) <= old(TotalChances(pages))
    {
      hide Count, Listed, ToFront, TotalChances, Worn, Follows, OnlyLast, Passed, PassedOver, FoundAt, NothingClean,
          FirstClean;
      WornSelf(pages, visits);
      victim, found, scanned, full, visited := -1, None, already, true, false;
      var i := |lru| - 1;
      ghost var f := 0;
      NonePassed(lru, pages);
      while i >= 0 && (unlimited || scanned < budget)
        invariant -1 <= i < |lru| == |old(lru)| && Valid() && |pages| == |old(pages)|
        invariant Worn(old(pages), pages, old(visits), visits)
        invariant Follows(lru0, pages0, lru, pages, last, s)
        invariant PassedOver(lru, pages, i) && FoundAt(lru, pages, i, found, f)
        invariant found.Some? ==> found.value in pages && Takable(pages[found.value]) && pages[found.value].dirty
        invariant TotalChances(pages) <= old(TotalChances(pages))
        invariant scanned + i + 1 == already + |lru| + old(TotalChances(pages)) - TotalChances(pages)
        decreases TotalChances(pages), i + 1
      {
        ListedAt(lru, pages, i);
        var k := lru[i];
        var p := pages[k];
        scanned := scanned + 1;
        if !Eligible(p) {
          PassOne(lru, pages, i, found, f);
          i := i - 1;
        } else if p.referenced || p.active {
          WornStep(old(pages), pages, old(visits), visits, k);
          if i == 0 {
            VisitAlone(lru0, pages0, lru, pages, last, s, found, f);
            TurnPassed(lru, pages, i, found, f);
            Age(i);
            visits := visits[k := Times(visits, k) + 1];
            visited := true;
            break;
          }
          TurnOne(lru0, pages0, lru, pages, last, s, i, found, f);
          Age(i);
          visits := visits[k := Times(visits, k) + 1];
        } else if p.dirty {
          PassDirty(lru, pages, i, found, f);
          if found.None? { found, f := Some(k), i; }
          i := i - 1;
        } else {
          TakeOne(lru, pages, i);
          victim := i;
          break;
        }
      }
      PassedCount(lru, pages, i);
      if victim < 0 && !visited {
        full := i < 0;
        FollowsParts(lru0, pages0, lru, pages, last, s);
        if full { AllPassed(lru0, pages0, lru, pages, last, s, found, f); }
      }
    }

    /** A successful write-back of the page. */
    method Clean(k: nat)
      requires Valid() && k in pages && pages[k].dirty
      modifies this`pages, this`dirty
      ensures Valid() && pages == old(pages)[k := old(pages)[k].(dirty := false)]
      ensures Count(pages, IsDirty) == old(Count(pages, IsDirty)) - 1 && TotalChances(pages) == old(TotalChances(pages))
    {
      hide Count, Listed;
      var p := pages[k].(dirty := false);
      CountUpdate(pages, k, p, IsActive);
      CountUpdate(pages, k, p, IsInactive);
      CountUpdate(pages, k, p, IsDirty);
      CountUpdate(pages, k, p, IsReferenced);
      CountUpdate(pages, k, p, IsActiveOnly);
      UpdateListed(lru, pages, k, p);
      pages := pages[k := p];
      dirty := dirty - 1;
    }

    /**
     pagecache_reclaim. It frees a page in use at its start only when
     InUseGoes, and, unless the scan budget runs out, exactly when.
     */
    method Reclaim(target: Target, writeFails: set<nat>) returns (reclaimed: nat)
      requires Valid()
      modifies this
      ensures Valid() && reclaimed == |old(pages)| - |pages| && (target.AtMost? ==> reclaimed <= target.value)
      ensures Reclaimed(old(pages), pages, visits, writeFails)
      ensures target.All? ==> Exhausted(lru, pages) || WriteFailed(pages, writeFails)
      ensures TookInUse(old(pages), pages) ==> InUseGoes(old(lru), old(pages), target, writeFails)
      ensures Suffices(old(pages), target) ==>
                (TookInUse(old(pages), pages) <==> InUseGoes(old(lru), old(pages), target, writeFails))
    {
      hide Listed, Counters, Count, TotalChances, Follows, OnlyLast, NothingClean, FirstClean, Passed, Worn, Reclaimed,
        TookInUse, InUseGoes, Keeps, Walked, Exhausted, WriteFailed, Unlinked, Wrote, Freed, Budget, Suffices;
      ghost var lru0, pages0 := lru, pages;
      ghost var last := LastExists(lru, pages);
      ghost var s: nat, plan, spared, exact, settled, rounds := 0, Plan({}, None), true, true, false, 0;
      visits := map[];
      RoundStarts(lru, pages, target, writeFails, last);
      var unlimited := target.All?;
      var budget := if unlimited then 0 else Budget(target.value);
      reclaimed := 0;
      var scanned: nat, written: nat := 0, 0;
      while unlimited || (reclaimed < target.value && scanned < budget)
        invariant Valid() && reclaimed == |pages0| - |pages| && (target.AtMost? ==> reclaimed <= target.value)
        invariant Keeps(lru0, pages0, lru, pages, visits, target, writeFails, last, s, plan, reclaimed, written,
                        spared, exact)
        invariant !exact ==> !unlimited && budget <= scanned
        invariant rounds == reclaimed + written && (!unlimited ==> written <= target.cap)
        invariant scanned + TotalChances(pages) <= rounds * (1 + Count(pages0, IsPassed)) + TotalChances(pages0)
        decreases |pages|, Count(pages, IsDirty)
      {
        ghost var before, list, seen := pages, lru, visits;
        KeepsParts(lru0, pages0, lru, pages, visits, target, writeFails, last, s, plan, reclaimed, written, spared,
                   exact);
        var victim, found;
        ghost var visited;
        victim, found, scanned, exact, visited := Scan(unlimited, budget, scanned, lru0, pages0, last, s);
        OneMoreWalk(rounds, 1 + Count(pages0, IsPassed));
        rounds := rounds + 1;
        RoundWalks(lru0, pages0, list, before, seen, lru, pages, visits,
                   target, writeFails, last, s, plan, reclaimed, written, spared, visited);
        WalkedParts(lru0, pages0, lru, pages, visits, target, writeFails, last, s, plan, reclaimed, written, spared,
                    visited);
        if victim < 0 && found.Some? && (unlimited || written < target.cap) && found.value !in writeFails {
          var d := found.value;
          RoundWrites(lru0, pages0, lru, pages, visits, target, writeFails, last, s, plan, reclaimed, written, spared,
                      exact, visited, d);
          s, plan := if visited then s + 1 else s, Wrote(pages0, plan, d);
          Clean(d);
          written := written + 1;
        } else if victim < 0 {
          if exact {
            RoundEnds(lru0, pages0, lru, pages, visits, target, writeFails, last, s, plan, reclaimed, written, spared,
                      visited, found);
          }
          if unlimited && found.Some? { FailedWrite(pages, writeFails, found.value); }
          settled := true;
          break;
        } else {
          var k := lru[victim];
          RoundFrees(lru0, pages0, lru, pages, visits, target, writeFails, last, s, plan, reclaimed, written, spared,
                     victim);
          plan, spared := Freed(plan, k), spared && !pages0[k].referenced;
          Free(victim);
          visits := visits[k := Times(visits, k) + 1];
          reclaimed := reclaimed + 1;
        }
      }
      if !settled {
        KeepsParts(lru0, pages0, lru, pages, visits, target, writeFails, last, s, plan, reclaimed, written, spared,
                   exact);
      }
      if !unlimited {
        ChancesBound(pages0);
        if budget <= scanned { WalksBound(pages0, target, rounds, scanned); }
      }
    }
  }
}
