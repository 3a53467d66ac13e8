/** One call of reclaim, followed from its first walk to its end. */
module ReclaimCourse {
  import opened Basics
  import opened ReclaimList
  import opened ReclaimOrder
  import opened ReclaimPlan

  /** How many pages a call with this target may look at. */
  function Budget(target: nat): nat {
    if target * SCAN_PER_PAGE < MIN_SCAN then MIN_SCAN else target * SCAN_PER_PAGE
  }

  lemma ReclaimedKind(pages0: Pages, pages: Pages, visits: map<nat, nat>, fails: set<nat>)
    requires Reclaimed(pages0, pages, visits, fails)
    ensures SameKind(pages0, pages)
  {
    forall k | k in pages ensures Eligible(pages[k]) == Eligible(pages0[k]) { assert pages[k].refs == pages0[k].refs; }
  }

  lemma MarksWorn(pages0: Pages, pages: Pages, pages': Pages, fails: set<nat>, plan: Plan)
    requires pages'.Keys == pages.Keys && forall k :: k in pages ==> pages'[k].dirty == pages[k].dirty
    requires Marks(pages0, pages, fails, plan)
    ensures Marks(pages0, pages', fails, plan)
  {
    hide Group;
    assert forall k :: k in pages <==> k in pages';
  }

  lemma CourseWorn(lru0: seq<nat>, pages0: Pages, pages: Pages, pages': Pages, target: Target, fails: set<nat>,
                   last: nat, s: nat, plan: Plan, reclaimed: nat, visits: map<nat, nat>, visits': map<nat, nat>)
    requires Listed(lru0, pages0) && Course(lru0, pages0, pages, target, fails, last, s, plan, reclaimed)
    requires Worn(pages, pages', visits, visits')
    ensures Course(lru0, pages0, pages', target, fails, last, s, plan, reclaimed)
  {
    hide NextIsInUse, Group, Marks, InOrder, Within, Listed;
    assert pages'.Keys == pages.Keys && forall k :: k in pages ==> pages'[k].dirty == pages[k].dirty;
    hide Worn;
    MarksWorn(pages0, pages, pages', fails, plan);
    assert last in pages' <==> last in pages;
  }

  /** Where a call stands: no page in use has gone yet, or one has, and it had to. */
  ghost predicate Stands(lru0: seq<nat>, pages0: Pages, pages: Pages, target: Target, fails: set<nat>,
                         spared: bool)
    requires Listed(lru0, pages0)
  {
    spared != TookInUse(pages0, pages) && (!spared ==> InUseGoes(lru0, pages0, target, fails))
  }

  /** As long as no page in use has gone the call is on its course. */
  ghost predicate OnCourse(lru0: seq<nat>, pages0: Pages, pages: Pages, target: Target, fails: set<nat>,
                           last: nat, s: nat, plan: Plan, reclaimed: nat, written: nat, spared: bool)
    requires Listed(lru0, pages0)
  {
    spared && AnyInUse(pages0) ==>
      Course(lru0, pages0, pages, target, fails, last, s, plan, reclaimed) && written == Writes(pages0, plan)
  }

  lemma Begins(lru: seq<nat>, pages: Pages, target: Target, fails: set<nat>, last: nat)
    requires Listed(lru, pages)
    ensures Stands(lru, pages, pages, target, fails, true)
    ensures OnCourse(lru, pages, pages, target, fails, last, 0, Plan({}, None), 0, 0, true)
  {
    CourseStart(lru, pages, target, fails, last);
  }

  lemma Ages(lru0: seq<nat>, pages0: Pages, pages: Pages, pages': Pages, target: Target, fails: set<nat>,
             spared: bool, visits: map<nat, nat>, visits': map<nat, nat>)
    requires Listed(lru0, pages0) && Stands(lru0, pages0, pages, target, fails, spared)
    requires Worn(pages, pages', visits, visits')
    ensures Stands(lru0, pages0, pages', target, fails, spared)
  {
    hide InUseGoes, Listed;
  }

  lemma AgesOnCourse(lru0: seq<nat>, pages0: Pages, pages: Pages, pages': Pages, target: Target, fails: set<nat>,
                     last: nat, s: nat, plan: Plan, reclaimed: nat, written: nat, spared: bool,
                     visits: map<nat, nat>, visits': map<nat, nat>)
    requires
      && Listed(lru0, pages0) && OnCourse(lru0, pages0, pages, target, fails, last, s, plan, reclaimed, written, spared)
    requires Worn(pages, pages', visits, visits')
    ensures OnCourse(lru0, pages0, pages', target, fails, last, s, plan, reclaimed, written, spared)
  {
    hide Course, Worn, Listed, AnyInUse;
    if spared && AnyInUse(pages0) {
      CourseWorn(lru0, pages0, pages, pages', target, fails, last, s, plan, reclaimed, visits, visits');
    }
  }

  /** A page in use among the eligible ones is enough. */
  lemma InUse(pages: Pages, k: nat)
    requires k in pages && Eligible(pages[k]) && pages[k].referenced
    ensures AnyInUse(pages)
  {
    assert k in Group(pages, true, false) || k in Group(pages, true, true);
  }

  function Freed(plan: Plan, k: nat): Plan { if plan.pending == Some(k) then plan.(pending := None) else plan }

  lemma StandsFree(lru0: seq<nat>, pages0: Pages, pages: Pages, target: Target, fails: set<nat>, spared: bool,
                   k: nat)
    requires Listed(lru0, pages0) && Stands(lru0, pages0, pages, target, fails, spared) && k in pages && k in pages0
    requires pages0[k].referenced ==> InUseGoes(lru0, pages0, target, fails)
    ensures Stands(lru0, pages0, pages - {k}, target, fails, spared && !pages0[k].referenced)
  {
    hide InUseGoes, Listed;
    if pages0[k].referenced {
      assert k !in pages - {k};
    } else if TookInUse(pages0, pages) {
      var j :| j in pages0 && j !in pages && pages0[j].referenced;
      assert j !in pages - {k};
    }
  }

  /** A page in use goes only when it had to. */
  lemma FreesInUse(lru0: seq<nat>, pages0: Pages, lru: seq<nat>, pages: Pages, target: Target, fails: set<nat>,
                   last: nat, s: nat, plan: Plan, reclaimed: nat, written: nat, spared: bool, k: nat)
    requires
      && Follows(lru0, pages0, lru, pages, last, s) && SameKind(pages0, pages) && Listed(lru0, pages0)
      && Listed(lru, pages)
    requires Stands(lru0, pages0, pages, target, fails, spared)
    requires OnCourse(lru0, pages0, pages, target, fails, last, s, plan, reclaimed, written, spared)
    requires FirstClean(lru, pages, k) && k in pages0 && Eligible(pages0[k]) && pages0[k].referenced
    requires target.AtMost? ==> reclaimed < target.value
    ensures InUseGoes(lru0, pages0, target, fails)
  {
    hide Course, Listed, AnyInUse, InUseGoes, Follows, FirstClean, SameKind, TookInUse, Writes;
    InUse(pages0, k);
    if spared { CourseTook(lru0, pages0, lru, pages, target, fails, last, s, plan, reclaimed, k); }
  }

  /** A page not in use keeps the call on its course. */
  lemma FreesUnused(lru0: seq<nat>, pages0: Pages, pages: Pages, target: Target, fails: set<nat>,
                    last: nat, s: nat, plan: Plan, reclaimed: nat, written: nat, spared: bool, k: nat)
    requires Listed(lru0, pages0)
    requires OnCourse(lru0, pages0, pages, target, fails, last, s, plan, reclaimed, written, spared)
    requires k in pages && k in pages0 && Eligible(pages0[k]) && !pages0[k].referenced && !pages[k].dirty
    ensures OnCourse(lru0, pages0, pages - {k}, target, fails, last, s, Freed(plan, k), reclaimed + 1, written, spared)
  {
    hide Course, Listed, AnyInUse;
    if spared && AnyInUse(pages0) {
      CourseFree(lru0, pages0, pages, target, fails, last, s, plan, reclaimed, k);
    }
  }

  /** The page the walk settled on goes. */
  lemma Frees(lru0: seq<nat>, pages0: Pages, lru: seq<nat>, pages: Pages, target: Target, fails: set<nat>,
              last: nat, s: nat, plan: Plan, reclaimed: nat, written: nat, spared: bool, k: nat)
    requires
      && Follows(lru0, pages0, lru, pages, last, s) && SameKind(pages0, pages) && Listed(lru0, pages0)
      && Listed(lru, pages)
    requires Stands(lru0, pages0, pages, target, fails, spared)
    requires OnCourse(lru0, pages0, pages, target, fails, last, s, plan, reclaimed, written, spared)
    requires FirstClean(lru, pages, k) && k in pages && k in pages0 && (target.AtMost? ==> reclaimed < target.value)
    ensures var spared' := spared && !pages0[k].referenced;
            && Stands(lru0, pages0, pages - {k}, target, fails, spared')
            && OnCourse(lru0, pages0, pages - {k}, target, fails, last, s, Freed(plan, k), reclaimed + 1, written,
                        spared')
  {
    hide Course, Listed, AnyInUse, InUseGoes, Follows, FirstClean, TookInUse, Stands, Writes, Freed;
    FirstCleanParts(lru, pages, k);
    assert Eligible(pages0[k]);
    if pages0[k].referenced {
      FreesInUse(lru0, pages0, lru, pages, target, fails, last, s, plan, reclaimed, written, spared, k);
    } else {
      FreesUnused(lru0, pages0, pages, target, fails, last, s, plan, reclaimed, written, spared, k);
    }
    StandsFree(lru0, pages0, pages, target, fails, spared, k);
  }

  lemma FoundFruitless(lru0: seq<nat>, pages0: Pages, lru: seq<nat>, pages: Pages, last: nat, s: nat,
                       found: Option<nat>, visited: bool)
    requires Listed(lru0, pages0) && Listed(lru, pages) && SameKind(pages0, pages)
    requires NothingClean(lru0, pages0, lru, pages, last, s, found, visited)
    ensures Fruitless(lru0, pages0, pages, last, s, visited)
  {}

  lemma FoundParts(lru0: seq<nat>, pages0: Pages, lru: seq<nat>, pages: Pages, last: nat, s: nat, d: nat, visited: bool)
    requires
      && Listed(lru0, pages0) && Listed(lru, pages) && NothingClean(lru0, pages0, lru, pages, last, s, Some(d), visited)
    ensures FirstDirty(lru, pages, d) && (visited ==> d != last) && d in pages && pages[d].dirty
  {}

  lemma WritesOne(pages0: Pages, plan: Plan, d: nat)
    requires d in pages0 && Writes(pages0, plan) == |plan.written| && d !in plan.written
    ensures Writes(pages0, Wrote(pages0, plan, d)) == |plan.written| + 1
  {}

  /** A page that is still dirty has not been written. */
  lemma NotYetWritten(pages0: Pages, pages: Pages, fails: set<nat>, plan: Plan, d: nat)
    requires Marks(pages0, pages, fails, plan) && d in pages && pages[d].dirty
    ensures d !in plan.written
  {}

  lemma WritesNone(pages0: Pages, plan: Plan)
    requires plan.pending == None
    ensures Writes(pages0, plan) == |plan.written|
  {}

  /** What a walk without a clean page leaves: no write is waiting to be used. */
  lemma NothingPending(lru0: seq<nat>, pages0: Pages, pages: Pages, target: Target, fails: set<nat>,
                       last: nat, s: nat, plan: Plan, reclaimed: nat, visited: bool)
    requires Listed(lru0, pages0) && AnyInUse(pages0) && Fruitless(lru0, pages0, pages, last, s, visited)
    requires Course(lru0, pages0, pages, target, fails, last, s, plan, reclaimed)
    ensures Writes(pages0, plan) == |plan.written|
  {
    hide *;
    CourseParts(lru0, pages0, pages, target, fails, last, s, plan, reclaimed);
    StuckPending(lru0, pages0, pages, target, fails, last, s, plan, visited);
    WritesNone(pages0, plan);
  }

  function Wrote(pages0: Pages, plan: Plan, d: nat): Plan {
    Plan(if d in pages0 && pages0[d].referenced then plan.written else plan.written + {d}, Some(d))
  }

  /** The dirty page the walk remembered is written back. */
  lemma WritesBack(lru0: seq<nat>, pages0: Pages, lru: seq<nat>, pages: Pages, target: Target, fails: set<nat>,
                   last: nat, s: nat, plan: Plan, reclaimed: nat, written: nat, spared: bool, visited: bool, d: nat)
    requires Listed(lru0, pages0) && Listed(lru, pages) && SameKind(pages0, pages)
    requires Follows(lru0, pages0, lru, pages, last, if visited then s + 1 else s)
    requires NothingClean(lru0, pages0, lru, pages, last, s, Some(d), visited) && d in pages && d in pages0
    requires OnCourse(lru0, pages0, pages, target, fails, last, s, plan, reclaimed, written, spared)
    requires pages0[d].dirty && d !in fails && (target.AtMost? ==> written < target.cap)
    ensures OnCourse(lru0, pages0, Cleaned(pages, d), target, fails, last, if visited then s + 1 else s,
                     Wrote(pages0, plan, d), reclaimed, written + 1, spared)
  {
    FoundFruitless(lru0, pages0, lru, pages, last, s, Some(d), visited);
    FoundParts(lru0, pages0, lru, pages, last, s, d, visited);
    hide Course, Listed, AnyInUse, Follows, NothingClean, SameKind, FirstDirty, Fruitless, Cleaned, Writes;
    if spared && AnyInUse(pages0) {
      NothingPending(lru0, pages0, pages, target, fails, last, s, plan, reclaimed, visited);
      if pages0[d].referenced {
        CourseWriteInUse(lru0, pages0, lru, pages, target, fails, last, s, plan, reclaimed, visited, d);
      } else {
        CourseWrite(lru0, pages0, lru, pages, target, fails, last, s, plan, reclaimed, visited, d);
      }
      CourseParts(lru0, pages0, pages, target, fails, last, s, plan, reclaimed);
      NotYetWritten(pages0, pages, fails, plan, d);
      WritesOne(pages0, plan, d);
    }
  }

  // ---- The ends of a call ----

  lemma EndsAtTarget(lru0: seq<nat>, pages0: Pages, pages: Pages, target: Target, fails: set<nat>,
                     last: nat, s: nat, plan: Plan, reclaimed: nat, written: nat)
    requires Listed(lru0, pages0) && target.AtMost? && target.value <= reclaimed
    requires OnCourse(lru0, pages0, pages, target, fails, last, s, plan, reclaimed, written, true)
    ensures !InUseGoes(lru0, pages0, target, fails)
  {
    hide Course, Listed, AnyInUse, InUseGoes, Writes;
    if AnyInUse(pages0) {
      EndTarget(lru0, pages0, pages, target, fails, last, s, plan, reclaimed);
    } else {
      NoneInUse(lru0, pages0, target, fails);
    }
  }

  /** A walk that found no clean page ends the call: nothing dirty, too much written, or a write that fails. */
  lemma EndsAtWalk(lru0: seq<nat>, pages0: Pages, lru: seq<nat>, pages: Pages, target: Target, fails: set<nat>,
                   last: nat, s: nat, plan: Plan, reclaimed: nat, written: nat, found: Option<nat>, visited: bool)
    requires Listed(lru0, pages0) && Listed(lru, pages) && SameKind(pages0, pages)
    requires Follows(lru0, pages0, lru, pages, last, if visited then s + 1 else s)
    requires NothingClean(lru0, pages0, lru, pages, last, s, found, visited)
    requires OnCourse(lru0, pages0, pages, target, fails, last, s, plan, reclaimed, written, true)
    requires found.Some? ==> found.value in pages0 && pages0[found.value].dirty
    requires found.None? || (target.AtMost? && target.cap <= written) || found.value in fails
    ensures !InUseGoes(lru0, pages0, target, fails)
  {
    FoundFruitless(lru0, pages0, lru, pages, last, s, found, visited);
    if found.None? {
      assert forall p :: p in pages && Eligible(pages[p]) && pages[p].dirty ==> visited && p == last;
    } else {
      FoundParts(lru0, pages0, lru, pages, last, s, found.value, visited);
    }
    hide Course, Listed, AnyInUse, InUseGoes, Follows, NothingClean, SameKind, FirstDirty, Fruitless, Writes;
    if !AnyInUse(pages0) {
      NoneInUse(lru0, pages0, target, fails);
    } else if found.None? {
      EndNone(lru0, pages0, pages, target, fails, last, s, plan, reclaimed, visited);
    } else if found.value in fails {
      EndFail(lru0, pages0, lru, pages, target, fails, last, s, plan, reclaimed, visited, found.value);
    } else {
      NothingPending(lru0, pages0, pages, target, fails, last, s, plan, reclaimed, visited);
      EndCap(lru0, pages0, pages, target, fails, last, s, plan, reclaimed, visited);
    }
  }

  /** No page has more than two chances. */
  lemma ChancesBound(pages: Pages)
    ensures TotalChances(pages) <= 2 * |pages|
  {
    var a, b := Having(pages, IsReferenced), Having(pages, IsActiveOnly);
    assert a !! b && a + b <= pages.Keys;
    SubsetSize(a + b, pages.Keys);
    assert |a + b| == |a| + |b| && |pages| == |pages.Keys|;
  }

  lemma OneMoreWalk(rounds: nat, n: nat)
    ensures (rounds + 1) * n == rounds * n + n
  {}

  /**
   The scan budget cannot run out: every walk visits at most one page beside those it ages and those it
   passes, no page is aged more than twice, and there are at most as many walks as pages to free and to write,
   and one.
   */
  ghost predicate Suffices(pages: Pages, target: Target) {
    target.AtMost? ==>
      (target.value + target.cap + 1) * (1 + Count(pages, IsPassed)) + 2 * |pages| < Budget(target.value)
  }

  lemma WalksBound(pages: Pages, target: Target, rounds: nat, scanned: nat)
    requires target.AtMost? && rounds <= target.value + target.cap + 1
    requires scanned <= rounds * (1 + Count(pages, IsPassed)) + 2 * |pages| && Budget(target.value) <= scanned
    ensures !Suffices(pages, target)
  {
    MoreWalks(rounds, target.value + target.cap + 1, 1 + Count(pages, IsPassed));
  }

  /** A call leaves no more pages to be passed than there were. */
  lemma FewerPassed(pages0: Pages, pages: Pages, visits: map<nat, nat>, fails: set<nat>)
    requires Reclaimed(pages0, pages, visits, fails)
    ensures Count(pages, IsPassed) <= Count(pages0, IsPassed)
  {
    forall k | k in Having(pages, IsPassed) ensures k in Having(pages0, IsPassed) {
      assert pages[k].refs == pages0[k].refs;
    }
    SubsetSize(Having(pages, IsPassed), Having(pages0, IsPassed));
  }

  lemma MoreWalks(a: nat, b: nat, n: nat)
    requires a <= b
    ensures a * n <= b * n
  {}

  lemma WasDirty(pages0: Pages, pages: Pages, visits: map<nat, nat>, fails: set<nat>, d: nat)
    requires Reclaimed(pages0, pages, visits, fails) && d in pages && pages[d].dirty
    ensures d in pages0 && pages0[d].dirty
  {}

  lemma InStart(pages0: Pages, pages: Pages, k: nat)
    requires SameKind(pages0, pages) && k in pages
    ensures k in pages0 && Eligible(pages0[k]) == Eligible(pages[k])
  {}

  lemma FailedWrite(pages: Pages, fails: set<nat>, d: nat)
    requires d in pages && d in fails && Takable(pages[d]) && pages[d].dirty
    ensures WriteFailed(pages, fails)
  {}

  lemma StandsClean(lru0: seq<nat>, pages0: Pages, pages: Pages, target: Target, fails: set<nat>, spared: bool,
                    d: nat)
    requires Listed(lru0, pages0) && Stands(lru0, pages0, pages, target, fails, spared) && d in pages
    ensures Stands(lru0, pages0, Cleaned(pages, d), target, fails, spared)
  {
    hide InUseGoes, Listed;
  }

  lemma StandsParts(lru0: seq<nat>, pages0: Pages, pages: Pages, target: Target, fails: set<nat>, spared: bool)
    requires Listed(lru0, pages0) && Stands(lru0, pages0, pages, target, fails, spared)
    ensures spared != TookInUse(pages0, pages) && (!spared ==> InUseGoes(lru0, pages0, target, fails))
  {}

  lemma WalkExhausted(lru0: seq<nat>, pages0: Pages, lru: seq<nat>, pages: Pages, last: nat, s: nat, visited: bool)
    requires
      && Listed(lru0, pages0) && Listed(lru, pages) && NothingClean(lru0, pages0, lru, pages, last, s, None, visited)
    ensures Exhausted(lru, pages)
  {
    forall j | 0 < j < |lru| ensures lru[j] in pages && !Eligible(pages[lru[j]]) { assert lru[j] in lru; }
  }

  // ---- The rounds of a call ----

  /** What holds between the rounds of a call. */
  ghost predicate Keeps(lru0: seq<nat>, pages0: Pages, lru: seq<nat>, pages: Pages, visits: map<nat, nat>,
                        target: Target, fails: set<nat>, last: nat, s: nat, plan: Plan,
                        reclaimed: nat, written: nat, spared: bool, exact: bool)
  {
    && Reclaimed(pages0, pages, visits, fails) && Follows(lru0, pages0, lru, pages, last, s)
    && Stands(lru0, pages0, pages, target, fails, spared)
    && (exact ==> OnCourse(lru0, pages0, pages, target, fails, last, s, plan, reclaimed, written, spared))
  }

  /** What holds after the walk of a round. */
  ghost predicate Walked(lru0: seq<nat>, pages0: Pages, lru: seq<nat>, pages: Pages, visits: map<nat, nat>,
                         target: Target, fails: set<nat>, last: nat, s: nat, plan: Plan,
                         reclaimed: nat, written: nat, spared: bool, visited: bool)
  {
    && Reclaimed(pages0, pages, visits, fails) && Follows(lru0, pages0, lru, pages, last, if visited then s + 1 else s)
    && SameKind(pages0, pages) && Stands(lru0, pages0, pages, target, fails, spared)
    && OnCourse(lru0, pages0, pages, target, fails, last, s, plan, reclaimed, written, spared)
  }

  lemma RoundStarts(lru: seq<nat>, pages: Pages, target: Target, fails: set<nat>, last: nat)
    requires Listed(lru, pages)
    ensures Keeps(lru, pages, lru, pages, map[], target, fails, last, 0, Plan({}, None), 0, 0, true, true)
  {
    hide Listed, Reclaimed, Follows, Stands, OnCourse;
    ReclaimedSelf(pages, fails);
    FollowsSelf(lru, pages, last);
    Begins(lru, pages, target, fails, last);
  }

  lemma RoundWalks(lru0: seq<nat>, pages0: Pages, lru: seq<nat>, pages: Pages, visits: map<nat, nat>,
                   lru': seq<nat>, pages': Pages, visits': map<nat, nat>,
                   target: Target, fails: set<nat>, last: nat, s: nat, plan: Plan,
                   reclaimed: nat, written: nat, spared: bool, visited: bool)
    requires Keeps(lru0, pages0, lru, pages, visits, target, fails, last, s, plan, reclaimed, written, spared, true)
    requires
      && Worn(pages, pages', visits, visits') && Follows(lru0, pages0, lru', pages', last, if visited then s + 1 else s)
    ensures Walked(lru0, pages0, lru', pages', visits', target, fails, last, s, plan, reclaimed, written, spared,
                   visited)
  {
    hide Listed, Reclaimed, Follows, Stands, OnCourse, Worn, SameKind;
    FollowsParts(lru0, pages0, lru, pages, last, s);
    ReclaimedWorn(pages0, pages, pages', visits, visits', fails);
    ReclaimedKind(pages0, pages', visits', fails);
    Ages(lru0, pages0, pages, pages', target, fails, spared, visits, visits');
    AgesOnCourse(lru0, pages0, pages, pages', target, fails, last, s, plan, reclaimed, written, spared, visits,
                 visits');
  }

  lemma RoundWrites(lru0: seq<nat>, pages0: Pages, lru: seq<nat>, pages: Pages, visits: map<nat, nat>,
                    target: Target, fails: set<nat>, last: nat, s: nat, plan: Plan,
                    reclaimed: nat, written: nat, spared: bool, exact: bool, visited: bool, d: nat)
    requires Walked(lru0, pages0, lru, pages, visits, target, fails, last, s, plan, reclaimed, written, spared, visited)
    requires Listed(lru0, pages0) && Listed(lru, pages)
    requires exact ==> NothingClean(lru0, pages0, lru, pages, last, s, Some(d), visited)
    requires
      && d in pages && Takable(pages[d]) && pages[d].dirty && d !in fails && (target.AtMost? ==> written < target.cap)
    ensures Keeps(lru0, pages0, lru, Cleaned(pages, d), visits, target, fails, last, if visited then s + 1 else s,
                  Wrote(pages0, plan, d), reclaimed, written + 1, spared, exact)
  {
    hide Listed, Reclaimed, Follows, Stands, OnCourse, SameKind, NothingClean, Wrote;
    WasDirty(pages0, pages, visits, fails, d);
    if exact {
      WritesBack(lru0, pages0, lru, pages, target, fails, last, s, plan, reclaimed, written, spared, visited, d);
    }
    StandsClean(lru0, pages0, pages, target, fails, spared, d);
    ReclaimedClean(pages0, pages, visits, fails, d);
    FollowsClean(lru0, pages0, lru, pages, last, if visited then s + 1 else s, d);
  }

  lemma RoundFrees(lru0: seq<nat>, pages0: Pages, lru: seq<nat>, pages: Pages, visits: map<nat, nat>,
                   target: Target, fails: set<nat>, last: nat, s: nat, plan: Plan,
                   reclaimed: nat, written: nat, spared: bool, i: nat)
    requires Walked(lru0, pages0, lru, pages, visits, target, fails, last, s, plan, reclaimed, written, spared, false)
    requires
      && Listed(lru0, pages0) && Listed(lru, pages) && i < |lru| && FirstClean(lru, pages, lru[i])
      && Passed(lru, pages, i)
    requires target.AtMost? ==> reclaimed < target.value
    ensures lru[i] in pages && lru[i] in pages0
    ensures var k := lru[i];
            Keeps(lru0, pages0, Unlinked(lru, i), pages - {k}, visits[k := Times(visits, k) + 1], target, fails, last,
                  s,
                  Freed(plan, k), reclaimed + 1, written, spared && !pages0[k].referenced, true)
  {
    hide Listed, Reclaimed, Follows, Stands, OnCourse, SameKind, Freed, FirstClean, Unlinked, Times, Passed;
    var k := lru[i];
    FirstCleanParts(lru, pages, k);
    InStart(pages0, pages, k);
    Frees(lru0, pages0, lru, pages, target, fails, last, s, plan, reclaimed, written, spared, k);
    ReclaimedFree(pages0, pages, visits, fails, k);
    FollowsFree(lru0, pages0, lru, pages, last, s, i);
  }

  lemma RoundEnds(lru0: seq<nat>, pages0: Pages, lru: seq<nat>, pages: Pages, visits: map<nat, nat>,
                  target: Target, fails: set<nat>, last: nat, s: nat, plan: Plan,
                  reclaimed: nat, written: nat, spared: bool, visited: bool, found: Option<nat>)
    requires Walked(lru0, pages0, lru, pages, visits, target, fails, last, s, plan, reclaimed, written, spared, visited)
    requires
      && Listed(lru0, pages0) && Listed(lru, pages) && NothingClean(lru0, pages0, lru, pages, last, s, found, visited)
    requires found.Some? ==> found.value in pages && pages[found.value].dirty
    requires found.None? || (target.AtMost? && target.cap <= written) || found.value in fails
    ensures TookInUse(pages0, pages) <==> InUseGoes(lru0, pages0, target, fails)
    ensures found.None? ==> Exhausted(lru, pages)
  {
    hide Listed, Reclaimed, Follows, Stands, OnCourse, SameKind, NothingClean, TookInUse, InUseGoes, Exhausted;
    if found.Some? { WasDirty(pages0, pages, visits, fails, found.value); }
    if found.None? { WalkExhausted(lru0, pages0, lru, pages, last, s, visited); }
    StandsParts(lru0, pages0, pages, target, fails, spared);
    if spared {
      EndsAtWalk(lru0, pages0, lru, pages, target, fails, last, s, plan, reclaimed, written, found, visited);
    }
  }

  lemma WalkedParts(lru0: seq<nat>, pages0: Pages, lru: seq<nat>, pages: Pages, visits: map<nat, nat>,
                    target: Target, fails: set<nat>, last: nat, s: nat, plan: Plan,
                    reclaimed: nat, written: nat, spared: bool, visited: bool)
    requires Walked(lru0, pages0, lru, pages, visits, target, fails, last, s, plan, reclaimed, written, spared, visited)
    requires Listed(lru0, pages0)
    ensures Reclaimed(pages0, pages, visits, fails) && Count(pages, IsPassed) <= Count(pages0, IsPassed)
    ensures TookInUse(pages0, pages) ==> InUseGoes(lru0, pages0, target, fails)
  {
    FewerPassed(pages0, pages, visits, fails);
    hide Count, Listed, Reclaimed, Follows, OnCourse, SameKind, TookInUse, InUseGoes;
  }

  lemma KeepsParts(lru0: seq<nat>, pages0: Pages, lru: seq<nat>, pages: Pages, visits: map<nat, nat>,
                   target: Target, fails: set<nat>, last: nat, s: nat, plan: Plan,
                   reclaimed: nat, written: nat, spared: bool, exact: bool)
    requires Keeps(lru0, pages0, lru, pages, visits, target, fails, last, s, plan, reclaimed, written, spared, exact)
    ensures
      && Listed(lru0, pages0) && Reclaimed(pages0, pages, visits, fails) && Follows(lru0, pages0, lru, pages, last, s)
    ensures TookInUse(pages0, pages) ==> InUseGoes(lru0, pages0, target, fails)
    ensures exact && target.AtMost? && target.value <= reclaimed ==>
              (TookInUse(pages0, pages) <==> InUseGoes(lru0, pages0, target, fails))
  {
    hide Listed, Reclaimed, Follows, OnCourse, TookInUse, InUseGoes;
    FollowsParts(lru0, pages0, lru, pages, last, s);
    if spared && exact && target.AtMost? && target.value <= reclaimed {
      EndsAtTarget(lru0, pages0, pages, target, fails, last, s, plan, reclaimed, written);
    }
  }
}
