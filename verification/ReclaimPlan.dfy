/**
 Which pages a call takes.  As long as no page has gone that was in use when the call began, the
 unreferenced clean pages go first, then unreferenced dirty ones are written back and go, one at a
 time.  From that it follows exactly when a page goes that was in use.
 */
module ReclaimPlan {
  import opened Basics
  import opened ReclaimList
  import opened ReclaimOrder

  /** The reclaimable pages by whether they are in use and whether they are dirty. */
  ghost function Group(pages: Pages, referenced: bool, dirty: bool): set<nat> {
    set k | k in pages && Eligible(pages[k]) && pages[k].referenced == referenced && pages[k].dirty == dirty
  }

  /** Those of a set that go before page d. */
  ghost function Ahead(lru: seq<nat>, pages: Pages, s: set<nat>, d: nat): set<nat>
    requires Listed(lru, pages) && s <= pages.Keys && d in pages
  {
    set e | e in s && e != d && Sooner(lru, pages, e, d)
  }

  /** Page r goes before all others of a set. */
  ghost predicate FirstOf(lru: seq<nat>, pages: Pages, s: set<nat>, r: nat)
    requires Listed(lru, pages) && s <= pages.Keys
  {
    r in s && forall q :: q in s && q != r ==> Sooner(lru, pages, r, q)
  }

  // ---- The condition ----

  /**
   A clean page in use goes: after all unreferenced clean pages and n unreferenced dirty ones, where n
   is how many visits alone the page needs.  The target has to reach that far, and the dirty pages
   before it have to be written.
   */
  ghost predicate CleanGoes(lru: seq<nat>, pages: Pages, target: Target, fails: set<nat>)
    requires Listed(lru, pages)
  {
    exists r, n: nat {:trigger Within(lru, pages, r, n)} ::
      && r in Group(pages, true, false) && n <= |Group(pages, false, true)| && Within(lru, pages, r, n)
      && (target.AtMost? ==> |Group(pages, false, false)| + n < target.value && n <= target.cap)
      && Writable(lru, pages, n, fails)
  }

  /** The first n unreferenced dirty pages can be written back. */
  ghost predicate Writable(lru: seq<nat>, pages: Pages, n: nat, fails: set<nat>)
    requires Listed(lru, pages)
  {
    forall d :: d in Group(pages, false, true) && |Ahead(lru, pages, Group(pages, false, true), d)| < n ==> d !in fails
  }

  /** With no clean page in use, a dirty one goes: after all unreferenced pages, and written back like them. */
  ghost predicate DirtyGoes(lru: seq<nat>, pages: Pages, target: Target, fails: set<nat>)
    requires Listed(lru, pages)
  {
    var ud := |Group(pages, false, true)|;
    && Group(pages, true, false) == {}
    && (exists r {:trigger FirstOf(lru, pages, Group(pages, true, true), r)} ::
          FirstOf(lru, pages, Group(pages, true, true), r) && r !in fails && Within(lru, pages, r, ud))
    && Group(pages, false, true) !! fails
    && (target.AtMost? ==> |Group(pages, false, false)| + ud < target.value && ud < target.cap)
  }

  /** A call with this target takes a page that is in use when it begins. */
  ghost predicate InUseGoes(lru: seq<nat>, pages: Pages, target: Target, fails: set<nat>)
    requires Listed(lru, pages)
  {
    CleanGoes(lru, pages, target, fails) || DirtyGoes(lru, pages, target, fails)
  }

  ghost predicate TookInUse(pages0: Pages, pages: Pages) {
    exists k :: k in pages0 && k !in pages && pages0[k].referenced
  }

  // ---- What a scan finds ----

  /** Whether a page can be reclaimed does not change during a call. */
  ghost predicate SameKind(pages0: Pages, pages: Pages) {
    pages.Keys <= pages0.Keys && forall k :: k in pages ==> Eligible(pages[k]) == Eligible(pages0[k])
  }

  /** A clean page without chances that goes before all other clean pages. */
  ghost predicate FirstClean(lru: seq<nat>, pages: Pages, k: nat)
    requires Listed(lru, pages)
  {
    && k in pages && Takable(pages[k]) && !pages[k].dirty
    && forall c :: c in pages && Eligible(pages[c]) && !pages[c].dirty && c != k ==> Sooner(lru, pages, k, c)
  }

  /** Nothing clean to take; the last page may have had a visit alone. */
  ghost predicate Stuck(pages: Pages, last: nat, visited: bool) {
    forall p :: p in pages && Eligible(pages[p]) && !(visited && p == last) ==> Takable(pages[p]) && pages[p].dirty
  }

  /** A dirty page without chances that goes before all other dirty pages. */
  ghost predicate FirstDirty(lru: seq<nat>, pages: Pages, d: nat)
    requires Listed(lru, pages)
  {
    && d in pages && Takable(pages[d]) && pages[d].dirty
    && forall e :: e in pages && Eligible(pages[e]) && pages[e].dirty && e != d ==> Sooner(lru, pages, d, e)
  }

  /** What a walk has passed can go only after being written back. */
  ghost predicate PassedOver(lru: seq<nat>, pages: Pages, i: int) {
    forall j :: 0 <= j < |lru| && i < j ==>
      lru[j] in pages && (Eligible(pages[lru[j]]) ==> Takable(pages[lru[j]]) && pages[lru[j]].dirty)
  }

  /** The dirty page remembered, at place f, is the first one passed. */
  ghost predicate FoundAt(lru: seq<nat>, pages: Pages, i: int, found: Option<nat>, f: int) {
    if found.None? then
      forall j :: 0 <= j < |lru| && i < j ==> lru[j] in pages && !Eligible(pages[lru[j]])
    else
      && 0 <= f < |lru| && i < f && lru[f] == found.value && found.value in pages
      && Takable(pages[found.value]) && pages[found.value].dirty
      && forall j :: 0 <= j < |lru| && f < j ==> lru[j] in pages && !Eligible(pages[lru[j]])
  }

  lemma NonePassed(lru: seq<nat>, pages: Pages)
    ensures PassedOver(lru, pages, |lru| - 1) && FoundAt(lru, pages, |lru| - 1, None, 0)
  {}

  lemma PassedIsPassed(lru: seq<nat>, pages: Pages, i: int)
    requires PassedOver(lru, pages, i)
    ensures Passed(lru, pages, i)
  {}

  lemma {:induction false} PlacesCount(lru: seq<nat>, pages: Pages, i: int, s: set<nat>)
    requires Listed(lru, pages) && -1 <= i < |lru| && forall j :: i < j < |lru| ==> lru[j] in s
    ensures |lru| - 1 - i <= |s|
    decreases |lru| - i
  {
    if i < |lru| - 1 {
      PlacesCount(lru, pages, i + 1, s - {lru[i + 1]});
    }
  }

  /** Every page a walk has passed is one that it passes without aging it. */
  lemma PassedCount(lru: seq<nat>, pages: Pages, i: int)
    requires Listed(lru, pages) && -1 <= i < |lru| && PassedOver(lru, pages, i)
    ensures |lru| - 1 - i <= Count(pages, IsPassed)
  {
    PlacesCount(lru, pages, i, Having(pages, IsPassed));
  }

  lemma PassOne(lru: seq<nat>, pages: Pages, i: nat, found: Option<nat>, f: int)
    requires PassedOver(lru, pages, i) && FoundAt(lru, pages, i, found, f)
    requires i < |lru| && lru[i] in pages && !Eligible(pages[lru[i]])
    ensures PassedOver(lru, pages, i - 1) && FoundAt(lru, pages, i - 1, found, f)
  {}

  lemma PassDirty(lru: seq<nat>, pages: Pages, i: nat, found: Option<nat>, f: int)
    requires PassedOver(lru, pages, i) && FoundAt(lru, pages, i, found, f)
    requires i < |lru| && lru[i] in pages && Takable(pages[lru[i]]) && pages[lru[i]].dirty
    ensures PassedOver(lru, pages, i - 1)
    ensures if found.None? then FoundAt(lru, pages, i - 1, Some(lru[i]), i) else FoundAt(lru, pages, i - 1, found, f)
  {}

  lemma TurnPassed(lru: seq<nat>, pages: Pages, i: nat, found: Option<nat>, f: int)
    requires Listed(lru, pages) && i < |lru| && lru[i] in pages
    requires PassedOver(lru, pages, i) && FoundAt(lru, pages, i, found, f)
    ensures var lru', pages' := ToFront(lru, i), pages[lru[i] := Aged(pages[lru[i]])];
            PassedOver(lru', pages', i) && FoundAt(lru', pages', i, found, f)
  {
    var lru' := ToFront(lru, i);
    assert |lru'| == |lru| && forall j :: i < j < |lru| ==> lru'[j] == lru[j] != lru[i];
    hide Listed, ToFront, Aged, Takable, Eligible;
  }

  /** A page is aged and moves to the head while others are still ahead. */
  lemma TurnOne(lru0: seq<nat>, pages0: Pages, lru: seq<nat>, pages: Pages, last: nat, s: nat, i: nat,
                found: Option<nat>, f: int)
    requires Follows(lru0, pages0, lru, pages, last, s) && 0 < i < |lru| && lru[i] in pages
    requires Eligible(pages[lru[i]]) && Chances(pages[lru[i]]) > 0
    requires PassedOver(lru, pages, i) && FoundAt(lru, pages, i, found, f)
    ensures var lru', pages' := ToFront(lru, i), pages[lru[i] := Aged(pages[lru[i]])];
            Follows(lru0, pages0, lru', pages', last, s) && PassedOver(lru', pages', i)
                && FoundAt(lru', pages', i, found, f)
  {
    hide *;
    PassedIsPassed(lru, pages, i);
    FollowsTurn(lru0, pages0, lru, pages, last, s, i);
    FollowsParts(lru0, pages0, lru, pages, last, s);
    TurnPassed(lru, pages, i, found, f);
  }

  /** What a full walk that met no clean page without chances tells. */
  ghost predicate NothingClean(lru0: seq<nat>, pages0: Pages, lru: seq<nat>, pages: Pages, last: nat, s: nat,
                               found: Option<nat>, visited: bool)
    requires Listed(lru0, pages0) && Listed(lru, pages)
  {
    && Stuck(pages, last, visited)
    && (visited ==>
        lru != [] && lru[0] == last && last in pages && last in pages0 && Eligible(pages[last])
            && !Within(lru0, pages0, last, s))
    && (found.Some? ==> FirstDirty(lru, pages, found.value) && (visited ==> found.value != last))
    && (found.None? ==> forall p :: p in pages && Eligible(pages[p]) && pages[p].dirty ==> visited && p == last)
  }

  lemma FoundFirst(lru: seq<nat>, pages: Pages, i: int, found: nat, f: int)
    requires Listed(lru, pages) && FoundAt(lru, pages, i, Some(found), f)
    ensures FirstDirty(lru, pages, found) && At(lru, found) == f
  {
    AtIs(lru, pages, f);
    forall e | e in pages && Eligible(pages[e]) && pages[e].dirty && e != found ensures Sooner(lru, pages, found, e) {
      assert lru[At(lru, e)] == e;
    }
  }

  lemma AllPassed(lru0: seq<nat>, pages0: Pages, lru: seq<nat>, pages: Pages, last: nat, s: nat, found: Option<nat>,
                  f: int)
    requires
      && Listed(lru0, pages0) && Listed(lru, pages) && PassedOver(lru, pages, -1) && FoundAt(lru, pages, -1, found, f)
    ensures NothingClean(lru0, pages0, lru, pages, last, s, found, false)
  {
    forall p | p in pages && Eligible(pages[p]) ensures Takable(pages[p]) && pages[p].dirty && found.Some? {
      assert lru[At(lru, p)] == p;
    }
    if found.Some? { FoundFirst(lru, pages, -1, found.value, f); }
  }

  /** The page at the head is aged when all others have been passed. */
  lemma VisitAlone(lru0: seq<nat>, pages0: Pages, lru: seq<nat>, pages: Pages, last: nat, s: nat, found: Option<nat>,
                   f: int)
    requires Follows(lru0, pages0, lru, pages, last, s) && OnlyLast(lru0, pages0, last) && lru != [] && lru[0] in pages
    requires Eligible(pages[lru[0]]) && Chances(pages[lru[0]]) > 0
    requires PassedOver(lru, pages, 0) && FoundAt(lru, pages, 0, found, f)
    ensures var lru', pages' := ToFront(lru, 0), pages[lru[0] := Aged(pages[lru[0]])];
            && Follows(lru0, pages0, lru', pages', last, s + 1)
            && NothingClean(lru0, pages0, lru', pages', last, s, found, true)
  {
    var k := lru[0];
    var pages' := pages[k := Aged(pages[k])];
    PassedIsPassed(lru, pages, 0);
    FollowsAlone(lru0, pages0, lru, pages, last, s);
    FollowsParts(lru0, pages0, lru, pages, last, s);
    FollowsParts(lru0, pages0, lru, pages', last, s + 1);
    HeadStays(lru);
    forall p | p in pages' && p != k
        ensures Eligible(pages'[p]) ==> Takable(pages'[p]) && pages'[p].dirty && found.Some? {
      assert lru[At(lru, p)] == p;
    }
    if found.Some? {
      assert found.value == lru[f] != k;
      FoundFirst(lru, pages', 0, found.value, f);
    }
  }

  /** A clean page without chances, met when all nearer the tail have been passed, goes before all other clean pages. */
  lemma TakeOne(lru: seq<nat>, pages: Pages, i: nat)
    requires Listed(lru, pages) && i < |lru| && lru[i] in pages && Takable(pages[lru[i]]) && !pages[lru[i]].dirty
    requires PassedOver(lru, pages, i)
    ensures FirstClean(lru, pages, lru[i]) && Passed(lru, pages, i)
  {
    PassedIsPassed(lru, pages, i);
    AtIs(lru, pages, i);
    forall c | c in pages && Eligible(pages[c]) && !pages[c].dirty && c != lru[i]
        ensures Sooner(lru, pages, lru[i], c) {
      assert lru[At(lru, c)] == c;
    }
  }

  // ---- The course of a call ----

  /** Unreferenced dirty pages written so far, and the page just written that has not gone yet. */
  datatype Plan = Plan(written: set<nat>, pending: Option<nat>)

  function Writes(pages0: Pages, plan: Plan): nat
  {
    |plan.written| + if plan.pending.Some? && plan.pending.value in pages0 && pages0[plan.pending.value].referenced
        then 1 else 0
  }

  /** Which pages are still there and which of them are dirty. */
  ghost predicate Marks(pages0: Pages, pages: Pages, fails: set<nat>, plan: Plan) {
    var uc, ud := Group(pages0, false, false), Group(pages0, false, true);
    var rc, rd := Group(pages0, true, false), Group(pages0, true, true);
    && rc <= pages.Keys && rd <= pages.Keys && plan.written <= ud && plan.written !! fails
    && (forall k :: k in uc && k in pages ==> !pages[k].dirty) && (forall k :: k in rc ==> !pages[k].dirty)
    && (forall k :: k in rd ==> pages[k].dirty == (plan.pending != Some(k)))
    && (forall k :: k in ud && k !in plan.written ==> k in pages && pages[k].dirty)
    && (forall k :: k in plan.written && k in pages ==> plan.pending == Some(k))
    && (plan.written != {} || plan.pending.Some? ==> uc !! pages.Keys)
    && (plan.pending.Some? ==>
        plan.pending.value in pages && plan.pending.value in plan.written + rd && !pages[plan.pending.value].dirty)
  }

  /** How many pages have gone. */
  ghost predicate Gone(pages0: Pages, pages: Pages, plan: Plan, reclaimed: nat) {
    reclaimed == |Group(pages0, false, false) - pages.Keys| + |plan.written - pages.Keys|
  }

  /** The page in use that is written back and goes next. */
  ghost predicate NextIsInUse(lru0: seq<nat>, pages0: Pages, target: Target, fails: set<nat>, last: nat, s: nat,
                              plan: Plan)
    requires Listed(lru0, pages0)
  {
    plan.pending.Some? && plan.pending.value !in plan.written ==>
      var d := plan.pending.value;
      && d in pages0 && Group(pages0, true, false) == {} && FirstOf(lru0, pages0, Group(pages0, true, true), d)
         && d !in fails
      && plan.written == Group(pages0, false, true) && Within(lru0, pages0, d, Alone(last, s, d))
      && (target.AtMost? ==> |plan.written| < target.cap)
  }

  /** Unreferenced dirty pages were written in order. */
  ghost predicate InOrder(lru0: seq<nat>, pages0: Pages, written: set<nat>)
    requires Listed(lru0, pages0)
  {
    var ud := Group(pages0, false, true);
    written <= ud && forall w, e :: w in written && e in ud && e !in written ==> Sooner(lru0, pages0, w, e)
  }

  /** With every page written the last page got a visit alone if it needed one; a clean page in use did. */
  ghost predicate Visits(lru0: seq<nat>, pages0: Pages, pages: Pages, last: nat, s: nat, written: nat)
    requires Listed(lru0, pages0)
  {
    var rc := Group(pages0, true, false);
    && s <= written && (s < written && last in pages && last in pages0 ==> Within(lru0, pages0, last, s))
    && (rc != {} && written > 0 ==> rc == {last} && last in pages0 && !Within(lru0, pages0, last, written - 1))
  }

  ghost predicate Needs(lru0: seq<nat>, pages0: Pages, pages: Pages, last: nat, s: nat, written: set<nat>)
    requires Listed(lru0, pages0)
  {
    InOrder(lru0, pages0, written) && Visits(lru0, pages0, pages, last, s, |written|)
  }

  /** As long as no page has gone that was in use. */
  ghost predicate Course(lru0: seq<nat>, pages0: Pages, pages: Pages, target: Target, fails: set<nat>,
                         last: nat, s: nat, plan: Plan, reclaimed: nat)
    requires Listed(lru0, pages0)
  {
    && Marks(pages0, pages, fails, plan) && Gone(pages0, pages, plan, reclaimed)
    && NextIsInUse(lru0, pages0, target, fails, last, s, plan) && Needs(lru0, pages0, pages, last, s, plan.written)
    && (target.AtMost? ==> |plan.written| <= target.cap)
  }

  lemma CourseStart(lru: seq<nat>, pages: Pages, target: Target, fails: set<nat>, last: nat)
    requires Listed(lru, pages)
    ensures Course(lru, pages, pages, target, fails, last, 0, Plan({}, None), 0)
  {
    assert Group(pages, false, false) - pages.Keys == {};
    assert {} - pages.Keys == {};
  }

  /** An unreferenced page goes before any page in use. */
  lemma UnusedFirst(lru: seq<nat>, pages: Pages, u: nat, r: nat)
    requires Listed(lru, pages) && u in pages && r in pages && Eligible(pages[u]) && Eligible(pages[r])
    requires !pages[u].referenced && pages[r].referenced
    ensures u != r && Sooner(lru, pages, u, r) && Within(lru, pages, u, 0)
  {
    NotLast(lru, pages, u, r);
  }

  /** Some page that can be reclaimed was in use. */
  ghost predicate AnyInUse(pages: Pages) { Group(pages, true, false) + Group(pages, true, true) != {} }

  lemma SomeInUse(lru: seq<nat>, pages: Pages, u: nat)
    requires Listed(lru, pages) && AnyInUse(pages) && u in pages && Eligible(pages[u]) && !pages[u].referenced
    ensures Within(lru, pages, u, 0)
  {
    var r :| r in Group(pages, true, false) + Group(pages, true, true);
    UnusedFirst(lru, pages, u, r);
  }

  // ---- A page goes ----

  lemma OneMoreGone(s: set<nat>, keys: set<nat>, k: nat)
    requires k in keys
    ensures |s - (keys - {k})| == |s - keys| + if k in s then 1 else 0
  {
    assert s - (keys - {k}) == s - keys + if k in s then {k} else {};
  }

  /** A page goes that was not in use. */
  lemma CourseFree(lru0: seq<nat>, pages0: Pages, pages: Pages, target: Target, fails: set<nat>,
                   last: nat, s: nat, plan: Plan, reclaimed: nat, k: nat)
    requires Listed(lru0, pages0) && Course(lru0, pages0, pages, target, fails, last, s, plan, reclaimed)
    requires k in pages && k in pages0 && Eligible(pages0[k]) && !pages0[k].referenced && !pages[k].dirty
    ensures var plan' := if plan.pending == Some(k) then plan.(pending := None) else plan;
            Course(lru0, pages0, pages - {k}, target, fails, last, s, plan', reclaimed + 1)
  {
    hide Needs, NextIsInUse, Group, Marks;
    Unused(pages0, k);
    MarksFree(pages0, pages, fails, plan, k);
    NoneNext(lru0, pages0, target, fails, last, s, plan);
    GoneFree(pages0, pages, plan, reclaimed, k);
    NeedsFree(lru0, pages0, pages, last, s, plan.written, k);
  }

  lemma NeedsFree(lru0: seq<nat>, pages0: Pages, pages: Pages, last: nat, s: nat, written: set<nat>, k: nat)
    requires Listed(lru0, pages0) && Needs(lru0, pages0, pages, last, s, written)
    ensures Needs(lru0, pages0, pages - {k}, last, s, written)
  {}

  lemma Unused(pages: Pages, k: nat)
    requires k in pages && Eligible(pages[k]) && !pages[k].referenced
    ensures k in Group(pages, false, false) <==> k !in Group(pages, false, true)
    ensures k !in Group(pages, true, false) && k !in Group(pages, true, true)
  {}

  lemma GoneFree(pages0: Pages, pages: Pages, plan: Plan, reclaimed: nat, k: nat)
    requires Gone(pages0, pages, plan, reclaimed) && k in pages && plan.written <= Group(pages0, false, true)
    requires k in Group(pages0, false, false) <==> k !in plan.written
    ensures
      && Gone(pages0, pages - {k}, plan, reclaimed + 1)
      && Gone(pages0, pages - {k}, plan.(pending := None), reclaimed + 1)
  {
    hide Group;
    assert (pages - {k}).Keys == pages.Keys - {k};
    OneMoreGone(Group(pages0, false, false), pages.Keys, k);
    OneMoreGone(plan.written, pages.Keys, k);
  }

  lemma MarksFree(pages0: Pages, pages: Pages, fails: set<nat>, plan: Plan, k: nat)
    requires Marks(pages0, pages, fails, plan) && k in pages && !pages[k].dirty
    requires k in Group(pages0, false, false) || k in Group(pages0, false, true)
    requires k !in Group(pages0, true, false) && k !in Group(pages0, true, true)
    ensures Marks(pages0, pages - {k}, fails, if plan.pending == Some(k) then plan.(pending := None) else plan)
    ensures plan.written <= Group(pages0, false, true)
    ensures k in Group(pages0, false, true) ==> k in plan.written && plan.pending == Some(k)
  {
    hide Group;
  }

  lemma NoneNext(lru0: seq<nat>, pages0: Pages, target: Target, fails: set<nat>, last: nat, s: nat, plan: Plan)
    requires Listed(lru0, pages0)
    ensures NextIsInUse(lru0, pages0, target, fails, last, s, plan.(pending := None))
  {}

  /** A dirty page with fewer than |written| before it has been written. */
  lemma WrittenFirst(lru0: seq<nat>, pages0: Pages, pages: Pages, last: nat, s: nat, written: set<nat>, d: nat)
    requires Listed(lru0, pages0) && Needs(lru0, pages0, pages, last, s, written) && d in Group(pages0, false, true)
    ensures d !in written ==> |written| <= |Ahead(lru0, pages0, Group(pages0, false, true), d)|
  {
    if d !in written {
      assert written <= Ahead(lru0, pages0, Group(pages0, false, true), d);
      SubsetSize(written, Ahead(lru0, pages0, Group(pages0, false, true), d));
    }
  }

  lemma SubsetSize(a: set<nat>, b: set<nat>)
    requires a <= b
    ensures |a| <= |b|
  {
    assert b == a + (b - a);
  }

  /** The page that goes first among the clean ones is not in use if an unreferenced clean one is there. */
  lemma CleanUnusedGoesFirst(lru0: seq<nat>, pages0: Pages, lru: seq<nat>, pages: Pages, last: nat, s: nat, k: nat,
                             u: nat)
    requires Follows(lru0, pages0, lru, pages, last, s) && SameKind(pages0, pages) && FirstClean(lru, pages, k)
    requires u in pages && Eligible(pages0[u]) && !pages[u].dirty && !pages0[u].referenced
    ensures !pages0[k].referenced
  {
    if k != u {
      assert OrderKept(lru0, pages0, lru, pages, k, u);
      OneOrTheOther(lru0, pages0, u, k);
      if pages0[k].referenced {
        UnusedFirst(lru0, pages0, u, k);
        assert false;
      }
    }
  }

  /** A page without chances needs no more visits alone than it has had. */
  lemma NoChanceWithin(lru0: seq<nat>, pages0: Pages, lru: seq<nat>, pages: Pages, last: nat, s: nat, k: nat)
    requires Follows(lru0, pages0, lru, pages, last, s) && k in pages && Takable(pages[k])
    ensures Within(lru0, pages0, k, Alone(last, s, k)) && Within(lru0, pages0, k, s)
  {
    assert NeedKept(lru0, pages0, lru, pages, last, s, k, 0);
    WithinMore(lru0, pages0, k, Alone(last, s, k), s);
  }

  /** How many have gone once all unreferenced clean pages have, and nothing is pending. */
  lemma AllGone(pages0: Pages, pages: Pages, plan: Plan, reclaimed: nat)
    requires
      && Gone(pages0, pages, plan, reclaimed) && Group(pages0, false, false) !! pages.Keys && plan.written !! pages.Keys
    ensures reclaimed == |Group(pages0, false, false)| + |plan.written|
  {
    assert Group(pages0, false, false) - pages.Keys == Group(pages0, false, false);
    assert plan.written - pages.Keys == plan.written;
  }

  lemma WrittenWritable(lru0: seq<nat>, pages0: Pages, pages: Pages, last: nat, s: nat, written: set<nat>,
                        fails: set<nat>)
    requires Listed(lru0, pages0) && Needs(lru0, pages0, pages, last, s, written) && written !! fails
    ensures |written| <= |Group(pages0, false, true)| && Writable(lru0, pages0, |written|, fails)
  {
    SubsetSize(written, Group(pages0, false, true));
    forall d | d in Group(pages0, false, true) && |Ahead(lru0, pages0, Group(pages0, false, true), d)| < |written|
        ensures d !in fails {
      WrittenFirst(lru0, pages0, pages, last, s, written, d);
    }
  }

  /** A page goes that was in use: that is what the condition says. */
  lemma CourseTook(lru0: seq<nat>, pages0: Pages, lru: seq<nat>, pages: Pages, target: Target, fails: set<nat>,
                   last: nat, s: nat, plan: Plan, reclaimed: nat, k: nat)
    requires Follows(lru0, pages0, lru, pages, last, s) && SameKind(pages0, pages)
    requires Course(lru0, pages0, pages, target, fails, last, s, plan, reclaimed)
    requires FirstClean(lru, pages, k) && pages0[k].referenced && (target.AtMost? ==> reclaimed < target.value)
    ensures InUseGoes(lru0, pages0, target, fails)
  {
    hide *;
    FollowsParts(lru0, pages0, lru, pages, last, s);
    CourseParts(lru0, pages0, pages, target, fails, last, s, plan, reclaimed);
    FirstCleanParts(lru, pages, k);
    TookCount(lru0, pages0, lru, pages, last, s, plan, fails, k, reclaimed);
    NoChanceWithin(lru0, pages0, lru, pages, last, s, k);
    MarksWritable(lru0, pages0, pages, last, s, plan, fails);
    WithinMore(lru0, pages0, k, s, |plan.written|);
    InGroup(pages0, pages, k);
    if pages0[k].dirty {
      DirtyTook(lru0, pages0, pages, target, fails, last, s, plan, reclaimed, k);
    } else {
      CleanTook(lru0, pages0, target, fails, |plan.written|, k);
    }
  }

  lemma CourseParts(lru0: seq<nat>, pages0: Pages, pages: Pages, target: Target, fails: set<nat>,
                    last: nat, s: nat, plan: Plan, reclaimed: nat)
    requires Listed(lru0, pages0) && Course(lru0, pages0, pages, target, fails, last, s, plan, reclaimed)
    ensures Marks(pages0, pages, fails, plan) && Gone(pages0, pages, plan, reclaimed)
    ensures NextIsInUse(lru0, pages0, target, fails, last, s, plan) && Needs(lru0, pages0, pages, last, s, plan.written)
    ensures s <= |plan.written| && (target.AtMost? ==> |plan.written| <= target.cap)
  {}

  lemma MarksWritable(lru0: seq<nat>, pages0: Pages, pages: Pages, last: nat, s: nat, plan: Plan, fails: set<nat>)
    requires
      && Listed(lru0, pages0) && Marks(pages0, pages, fails, plan) && Needs(lru0, pages0, pages, last, s, plan.written)
    ensures |plan.written| <= |Group(pages0, false, true)| && Writable(lru0, pages0, |plan.written|, fails)
  {
    hide Group, Needs, Writable;
    WrittenWritable(lru0, pages0, pages, last, s, plan.written, fails);
  }

  lemma TookCount(lru0: seq<nat>, pages0: Pages, lru: seq<nat>, pages: Pages, last: nat, s: nat, plan: Plan,
                  fails: set<nat>,
                  k: nat, reclaimed: nat)
    requires Follows(lru0, pages0, lru, pages, last, s) && SameKind(pages0, pages) && Marks(pages0, pages, fails, plan)
    requires FirstClean(lru, pages, k) && pages0[k].referenced && Gone(pages0, pages, plan, reclaimed)
    ensures reclaimed == |Group(pages0, false, false)| + |plan.written|
  {
    TookLate(lru0, pages0, lru, pages, last, s, plan, fails, k);
    hide *;
    AllGone(pages0, pages, plan, reclaimed);
  }

  lemma FirstCleanParts(lru: seq<nat>, pages: Pages, k: nat)
    requires Listed(lru, pages) && FirstClean(lru, pages, k)
    ensures k in pages && Takable(pages[k]) && Eligible(pages[k]) && !pages[k].dirty
  {}

  lemma FollowsParts(lru0: seq<nat>, pages0: Pages, lru: seq<nat>, pages: Pages, last: nat, s: nat)
    requires Follows(lru0, pages0, lru, pages, last, s)
    ensures Listed(lru0, pages0) && Listed(lru, pages) && pages.Keys <= pages0.Keys
  {}

  lemma CleanTook(lru0: seq<nat>, pages0: Pages, target: Target, fails: set<nat>, n: nat, k: nat)
    requires Listed(lru0, pages0) && k in pages0 && k in Group(pages0, true, false) && Within(lru0, pages0, k, n)
    requires n <= |Group(pages0, false, true)| && Writable(lru0, pages0, n, fails)
    requires target.AtMost? ==> |Group(pages0, false, false)| + n < target.value && n <= target.cap
    ensures InUseGoes(lru0, pages0, target, fails)
  {
    hide Group, Within, Writable;
    assert CleanGoes(lru0, pages0, target, fails);
  }

  lemma DirtyTook(lru0: seq<nat>, pages0: Pages, pages: Pages, target: Target, fails: set<nat>,
                  last: nat, s: nat, plan: Plan, reclaimed: nat, k: nat)
    requires
      && Listed(lru0, pages0) && Marks(pages0, pages, fails, plan)
      && NextIsInUse(lru0, pages0, target, fails, last, s, plan)
    requires k in pages && k in pages0 && pages0[k].referenced && k in Group(pages0, true, true) && !pages[k].dirty
    requires Within(lru0, pages0, k, |plan.written|) && reclaimed == |Group(pages0, false, false)| + |plan.written|
    requires target.AtMost? ==> reclaimed < target.value
    ensures InUseGoes(lru0, pages0, target, fails)
  {
    NotUnused(pages0, k);
    hide Group, Within, Sooner;
    assert plan.pending == Some(k) && k !in plan.written;
    assert DirtyGoes(lru0, pages0, target, fails);
  }

  lemma InGroup(pages0: Pages, pages: Pages, k: nat)
    requires SameKind(pages0, pages) && k in pages && Eligible(pages[k]) && pages0[k].referenced
    ensures k in Group(pages0, true, pages0[k].dirty)
  {}

  /** By the time a page in use goes, all unreferenced clean pages and all that were written have gone. */
  lemma TookLate(lru0: seq<nat>, pages0: Pages, lru: seq<nat>, pages: Pages, last: nat, s: nat, plan: Plan,
                 fails: set<nat>, k: nat)
    requires Follows(lru0, pages0, lru, pages, last, s) && SameKind(pages0, pages) && Marks(pages0, pages, fails, plan)
    requires FirstClean(lru, pages, k) && pages0[k].referenced
    ensures Group(pages0, false, false) !! pages.Keys && plan.written !! pages.Keys
  {
    hide Follows, Within, Sooner;
    forall u | u in Group(pages0, false, false) + plan.written && u in pages ensures false {
      assert !pages[u].dirty;
      CleanUnusedGoesFirst(lru0, pages0, lru, pages, last, s, k, u);
    }
  }

  lemma NotUnused(pages: Pages, k: nat)
    requires k in pages && pages[k].referenced
    ensures k !in Group(pages, false, true) && k !in Group(pages, false, false)
  {}

  // ---- Nothing to take ----

  /** Of two pages with equal chances neither is in need of visits alone. */
  lemma EqualWithin(lru: seq<nat>, pages: Pages, p: nat, q: nat)
    requires Listed(lru, pages) && p in pages && q in pages && p != q && Left(pages[p]) <= Left(pages[q])
    ensures Within(lru, pages, p, 0)
  {
    assert Left(pages[p]) <= Lead(lru, pages, q, p) + 0;
  }

  /** A scan that finds nothing clean: what it says about a page that is still clean. */
  lemma StillClean(lru0: seq<nat>, pages0: Pages, pages: Pages, last: nat, s: nat, visited: bool, c: nat)
    requires Listed(lru0, pages0) && SameKind(pages0, pages) && Stuck(pages, last, visited) && AnyInUse(pages0)
    requires visited ==> last in pages0 && !Within(lru0, pages0, last, s)
    requires c in pages && Eligible(pages0[c]) && !pages[c].dirty
    ensures visited && c == last && pages0[c].referenced && !Within(lru0, pages0, c, s)
  {
    if !pages0[c].referenced {
      SomeInUse(lru0, pages0, c);
      WithinMore(lru0, pages0, c, 0, s);
    }
  }

  /** A scan came back without a clean page; visited: the last page has had a visit alone. */
  ghost predicate Fruitless(lru0: seq<nat>, pages0: Pages, pages: Pages, last: nat, s: nat, visited: bool)
    requires Listed(lru0, pages0)
  {
    && SameKind(pages0, pages) && Stuck(pages, last, visited)
    && (visited ==> last in pages && last in pages0 && Eligible(pages0[last]) && !Within(lru0, pages0, last, s))
  }

  /** All unreferenced clean pages have gone. */
  lemma StuckUnused(lru0: seq<nat>, pages0: Pages, pages: Pages, fails: set<nat>, last: nat, s: nat, plan: Plan,
                    visited: bool)
    requires Listed(lru0, pages0) && AnyInUse(pages0) && Fruitless(lru0, pages0, pages, last, s, visited)
    requires Marks(pages0, pages, fails, plan)
    ensures Group(pages0, false, false) !! pages.Keys
    ensures plan.pending.Some? ==> plan.pending.value !in plan.written
  {
    hide Within, Sooner;
    forall u | u in Group(pages0, false, false) + plan.written && u in pages ensures false {
      assert !pages[u].dirty;
      StillClean(lru0, pages0, pages, last, s, visited, u);
    }
  }

  /** Nothing is pending. */
  lemma StuckPending(lru0: seq<nat>, pages0: Pages, pages: Pages, target: Target, fails: set<nat>,
                     last: nat, s: nat, plan: Plan, visited: bool)
    requires Listed(lru0, pages0) && AnyInUse(pages0) && Fruitless(lru0, pages0, pages, last, s, visited)
    requires Marks(pages0, pages, fails, plan) && NextIsInUse(lru0, pages0, target, fails, last, s, plan)
    ensures plan.pending == None && plan.written !! pages.Keys
  {
    StuckUnused(lru0, pages0, pages, fails, last, s, plan, visited);
    hide Within, Sooner, Group;
    if plan.pending.Some? {
      var d := plan.pending.value;
      GroupKind(pages0, true, true);
      StillClean(lru0, pages0, pages, last, s, visited, d);
      assert false;
    }
  }

  lemma GroupKind(pages: Pages, referenced: bool, dirty: bool)
    ensures forall k :: k in Group(pages, referenced, dirty) ==>
              k in pages && Eligible(pages[k]) && pages[k].referenced == referenced && pages[k].dirty == dirty
  {}

  /** The page that has had a visit alone is the only one in use. */
  lemma VisitedOnly(lru0: seq<nat>, pages0: Pages, pages: Pages, last: nat, s: nat)
    requires Listed(lru0, pages0) && AnyInUse(pages0) && Fruitless(lru0, pages0, pages, last, s, true)
    ensures pages0[last].referenced
    ensures forall q :: q in pages0 && Eligible(pages0[q]) && pages0[q].referenced ==> q == last
  {
    if !pages0[last].referenced {
      SomeInUse(lru0, pages0, last);
      WithinMore(lru0, pages0, last, 0, s);
    }
    forall q | q in pages0 && Eligible(pages0[q]) && pages0[q].referenced ensures q == last {
      if q != last {
        EqualWithin(lru0, pages0, last, q);
        WithinMore(lru0, pages0, last, 0, s);
      }
    }
  }

  /** A clean page in use has had a visit alone, and is the only one in use. */
  lemma StuckInUse(lru0: seq<nat>, pages0: Pages, pages: Pages, fails: set<nat>, last: nat, s: nat, plan: Plan,
                   visited: bool)
    requires Listed(lru0, pages0) && AnyInUse(pages0) && Fruitless(lru0, pages0, pages, last, s, visited)
    requires Marks(pages0, pages, fails, plan)
    ensures Group(pages0, true, false) != {} ==> visited && Group(pages0, true, false) == {last}
    ensures visited ==> Group(pages0, true, false) + Group(pages0, true, true) == {last}
  {
    if visited {
      VisitedOnly(lru0, pages0, pages, last, s);
      assert last in Group(pages0, true, pages0[last].dirty);
    }
    if c :| c in Group(pages0, true, false) {
      hide Within, Sooner;
      StillClean(lru0, pages0, pages, last, s, visited, c);
    }
  }

  function Cleaned(pages: Pages, d: nat): Pages
    requires d in pages
  {
    pages[d := pages[d].(dirty := false)]
  }

  /** Without a visit alone, the last page has used up its chances or cannot be reclaimed. */
  lemma UnvisitedWithin(lru0: seq<nat>, pages0: Pages, lru: seq<nat>, pages: Pages, last: nat, s: nat)
    requires
      && Follows(lru0, pages0, lru, pages, last, s) && Fruitless(lru0, pages0, pages, last, s, false) && last in pages
    ensures Within(lru0, pages0, last, s)
  {
    if Eligible(pages0[last]) { NoChanceWithin(lru0, pages0, lru, pages, last, s, last); }
  }

  lemma VisitedNeeds(lru0: seq<nat>, pages0: Pages, pages: Pages, last: nat, s: nat, written: set<nat>)
    requires
      && Listed(lru0, pages0) && Fruitless(lru0, pages0, pages, last, s, true)
      && Needs(lru0, pages0, pages, last, s, written)
    ensures s == |written|
  {
    hide Within, Sooner, SameKind, Stuck, Group;
  }

  /** The dirty page that goes first goes before all that have not been written. */
  lemma FirstUnwritten(lru0: seq<nat>, pages0: Pages, lru: seq<nat>, pages: Pages, fails: set<nat>, last: nat, s: nat,
                       plan: Plan, d: nat, e: nat)
    requires Follows(lru0, pages0, lru, pages, last, s) && SameKind(pages0, pages) && Marks(pages0, pages, fails, plan)
    requires FirstDirty(lru, pages, d) && e in Group(pages0, false, true) && e !in plan.written && e != d
    ensures Sooner(lru0, pages0, d, e)
  {
    assert e in pages && pages[e].dirty && Eligible(pages[e]);
    assert OrderKept(lru0, pages0, lru, pages, d, e);
  }

  /** The page written next comes after all written so far and before all others. */
  lemma InOrderWrite(lru0: seq<nat>, pages0: Pages, written: set<nat>, d: nat)
    requires Listed(lru0, pages0) && InOrder(lru0, pages0, written) && d in Group(pages0, false, true)
    requires forall e :: e in Group(pages0, false, true) && e !in written && e != d ==> Sooner(lru0, pages0, d, e)
    ensures InOrder(lru0, pages0, written + {d})
  {
    hide Sooner, Listed;
  }

  lemma FirstUnwrittenOfAll(lru0: seq<nat>, pages0: Pages, lru: seq<nat>, pages: Pages, fails: set<nat>,
                            last: nat, s: nat, plan: Plan, d: nat)
    requires Follows(lru0, pages0, lru, pages, last, s) && SameKind(pages0, pages) && Marks(pages0, pages, fails, plan)
    requires FirstDirty(lru, pages, d) && d in Group(pages0, false, true) && d !in plan.written
    ensures forall e :: e in Group(pages0, false, true) && e !in plan.written && e != d ==> Sooner(lru0, pages0, d, e)
  {
    FollowsParts(lru0, pages0, lru, pages, last, s);
    hide Follows, Marks, SameKind, FirstDirty, Sooner;
    forall e | e in Group(pages0, false, true) && e !in plan.written && e != d ensures Sooner(lru0, pages0, d, e) {
      FirstUnwritten(lru0, pages0, lru, pages, fails, last, s, plan, d, e);
    }
  }

  lemma FirstDirtyIn(lru: seq<nat>, pages: Pages, d: nat)
    requires Listed(lru, pages) && FirstDirty(lru, pages, d)
    ensures d in pages
  {}

  lemma NeedsWrite(lru0: seq<nat>, pages0: Pages, lru: seq<nat>, pages: Pages, fails: set<nat>,
                   last: nat, s: nat, plan: Plan, visited: bool, d: nat)
    requires Follows(lru0, pages0, lru, pages, last, if visited then s + 1 else s) && AnyInUse(pages0)
    requires Fruitless(lru0, pages0, pages, last, s, visited)
    requires Marks(pages0, pages, fails, plan) && Needs(lru0, pages0, pages, last, s, plan.written)
    requires FirstDirty(lru, pages, d) && d in Group(pages0, false, true) && d !in plan.written
    ensures Needs(lru0, pages0, Cleaned(pages, d), last, if visited then s + 1 else s, plan.written + {d})
  {
    hide Follows, Group, Marks, SameKind, Stuck, Visits, Listed, InOrder, FirstDirty, Within, Sooner, Cleaned, AnyInUse;
    var next := if visited then s + 1 else s;
    FollowsParts(lru0, pages0, lru, pages, last, next);
    FirstDirtyIn(lru, pages, d);
    FirstUnwrittenOfAll(lru0, pages0, lru, pages, fails, last, next, plan, d);
    InOrderWrite(lru0, pages0, plan.written, d);
    VisitsWrite(lru0, pages0, lru, pages, fails, last, s, plan, visited, d);
    assert |plan.written + {d}| == |plan.written| + 1;
  }

  lemma VisitsWrite(lru0: seq<nat>, pages0: Pages, lru: seq<nat>, pages: Pages, fails: set<nat>,
                    last: nat, s: nat, plan: Plan, visited: bool, d: nat)
    requires Follows(lru0, pages0, lru, pages, last, if visited then s + 1 else s) && AnyInUse(pages0) && d in pages
    requires Fruitless(lru0, pages0, pages, last, s, visited)
    requires Marks(pages0, pages, fails, plan) && Needs(lru0, pages0, pages, last, s, plan.written)
    ensures Visits(lru0, pages0, Cleaned(pages, d), last, if visited then s + 1 else s, |plan.written| + 1)
  {
    FollowsParts(lru0, pages0, lru, pages, last, if visited then s + 1 else s);
    hide Within, Sooner, Group, Marks, Follows, SameKind, Stuck, InOrder;
    StuckInUse(lru0, pages0, pages, fails, last, s, plan, visited);
    if visited {
      VisitedNeeds(lru0, pages0, pages, last, s, plan.written);
    } else if last in pages {
      UnvisitedWithin(lru0, pages0, lru, pages, last, s);
    }
  }

  lemma MarksWrite(pages0: Pages, pages: Pages, fails: set<nat>, plan: Plan, d: nat)
    requires Marks(pages0, pages, fails, plan) && plan.pending == None && plan.written !! pages.Keys
    requires Group(pages0, false, false) !! pages.Keys && d in pages && d in Group(pages0, false, true) && d !in fails
    requires d !in Group(pages0, true, false) && d !in Group(pages0, true, true)
    ensures Marks(pages0, Cleaned(pages, d), fails, Plan(plan.written + {d}, Some(d)))
  {
    hide Group;
  }

  lemma GoneWrite(pages0: Pages, pages: Pages, plan: Plan, reclaimed: nat, d: nat)
    requires Gone(pages0, pages, plan, reclaimed) && d in pages
    ensures Gone(pages0, Cleaned(pages, d), Plan(plan.written + {d}, Some(d)), reclaimed)
    ensures Gone(pages0, Cleaned(pages, d), Plan(plan.written, Some(d)), reclaimed)
  {
    hide Group;
    assert Cleaned(pages, d).Keys == pages.Keys;
    assert plan.written + {d} - pages.Keys == plan.written - pages.Keys;
  }

  /** An unreferenced page is written back. */
  lemma CourseWrite(lru0: seq<nat>, pages0: Pages, lru: seq<nat>, pages: Pages, target: Target, fails: set<nat>,
                    last: nat, s: nat, plan: Plan, reclaimed: nat, visited: bool, d: nat)
    requires Follows(lru0, pages0, lru, pages, last, if visited then s + 1 else s) && AnyInUse(pages0)
    requires Fruitless(lru0, pages0, pages, last, s, visited)
    requires Course(lru0, pages0, pages, target, fails, last, s, plan, reclaimed)
    requires FirstDirty(lru, pages, d) && !pages0[d].referenced && d !in fails
    requires target.AtMost? ==> |plan.written| < target.cap
    ensures Course(lru0, pages0, Cleaned(pages, d), target, fails, last, if visited then s + 1 else s,
                   Plan(plan.written + {d}, Some(d)), reclaimed)
  {
    FollowsParts(lru0, pages0, lru, pages, last, if visited then s + 1 else s);
    hide Within, Sooner, Group, Needs, Follows, Stuck;
    StuckUnused(lru0, pages0, pages, fails, last, s, plan, visited);
    StuckPending(lru0, pages0, pages, target, fails, last, s, plan, visited);
    Unused(pages0, d);
    assert d in Group(pages0, false, true);
    MarksWrite(pages0, pages, fails, plan, d);
    GoneWrite(pages0, pages, plan, reclaimed, d);
    NeedsWrite(lru0, pages0, lru, pages, fails, last, s, plan, visited, d);
    assert |plan.written + {d}| <= |plan.written| + 1;
    hide Marks, FirstDirty, SameKind;
  }

  /** A page in use is written back only when there is no other page left before it. */
  lemma InUseWritten(lru0: seq<nat>, pages0: Pages, lru: seq<nat>, pages: Pages, fails: set<nat>,
                     last: nat, s: nat, plan: Plan, visited: bool, d: nat)
    requires Follows(lru0, pages0, lru, pages, last, if visited then s + 1 else s) && AnyInUse(pages0)
    requires
      && Fruitless(lru0, pages0, pages, last, s, visited) && Marks(pages0, pages, fails, plan) && plan.pending == None
    requires FirstDirty(lru, pages, d) && pages0[d].referenced && pages0[d].dirty && (visited ==> d != last)
    ensures !visited && Group(pages0, true, false) == {} && plan.written == Group(pages0, false, true)
    ensures FirstOf(lru0, pages0, Group(pages0, true, true), d)
  {
    var rd, ud := Group(pages0, true, true), Group(pages0, false, true);
    assert d in rd;
    FollowsParts(lru0, pages0, lru, pages, last, if visited then s + 1 else s);
    StuckInUse(lru0, pages0, pages, fails, last, s, plan, visited);
    forall e | e in ud && e !in plan.written ensures false {
      FirstUnwritten(lru0, pages0, lru, pages, fails, last, if visited then s + 1 else s, plan, d, e);
      OneOrTheOther(lru0, pages0, d, e);
      UnusedFirst(lru0, pages0, e, d);
    }
    forall q | q in rd && q != d ensures Sooner(lru0, pages0, d, q) {
      assert pages[q].dirty && Eligible(pages[q]);
      assert OrderKept(lru0, pages0, lru, pages, d, q);
    }
  }

  lemma MarksWriteInUse(pages0: Pages, pages: Pages, fails: set<nat>, plan: Plan, d: nat)
    requires Marks(pages0, pages, fails, plan) && plan.pending == None && plan.written !! pages.Keys
    requires Group(pages0, false, false) !! pages.Keys && d in pages && d in Group(pages0, true, true)
    requires Group(pages0, true, false) == {} && plan.written == Group(pages0, false, true)
    ensures Marks(pages0, Cleaned(pages, d), fails, Plan(plan.written, Some(d)))
  {
    hide Group;
  }

  /** A page in use is written back. */
  lemma CourseWriteInUse(lru0: seq<nat>, pages0: Pages, lru: seq<nat>, pages: Pages, target: Target,
                         fails: set<nat>,
                         last: nat, s: nat, plan: Plan, reclaimed: nat, visited: bool, d: nat)
    requires Follows(lru0, pages0, lru, pages, last, if visited then s + 1 else s) && AnyInUse(pages0)
    requires Fruitless(lru0, pages0, pages, last, s, visited)
    requires Course(lru0, pages0, pages, target, fails, last, s, plan, reclaimed)
    requires
      && FirstDirty(lru, pages, d) && pages0[d].referenced && pages0[d].dirty && d !in fails && (visited ==> d != last)
    requires target.AtMost? ==> |plan.written| < target.cap
    ensures
      && !visited
      && Course(lru0, pages0, Cleaned(pages, d), target, fails, last, s, Plan(plan.written, Some(d)), reclaimed)
  {
    var s' := if visited then s + 1 else s;
    FollowsParts(lru0, pages0, lru, pages, last, s');
    hide Within, Sooner, Group, Needs, Follows, Stuck;
    StuckUnused(lru0, pages0, pages, fails, last, s, plan, visited);
    StuckPending(lru0, pages0, pages, target, fails, last, s, plan, visited);
    InUseWritten(lru0, pages0, lru, pages, fails, last, s, plan, visited, d);
    InGroup(pages0, pages, d);
    NotUnused(pages0, d);
    MarksWriteInUse(pages0, pages, fails, plan, d);
    GoneWrite(pages0, pages, plan, reclaimed, d);
    NoChanceWithin(lru0, pages0, lru, pages, last, s, d);
    NeedsClean(lru0, pages0, pages, last, s, plan.written, d);
    hide Marks, SameKind, FirstOf;
  }

  lemma NeedsClean(lru0: seq<nat>, pages0: Pages, pages: Pages, last: nat, s: nat, written: set<nat>, d: nat)
    requires Listed(lru0, pages0) && Needs(lru0, pages0, pages, last, s, written) && d in pages
    ensures Needs(lru0, pages0, Cleaned(pages, d), last, s, written)
  {}

  // ---- The call is over ----

  lemma NoneInUse(lru: seq<nat>, pages: Pages, target: Target, fails: set<nat>)
    requires Listed(lru, pages) && !AnyInUse(pages)
    ensures !InUseGoes(lru, pages, target, fails)
  {
    hide Group, Within, Sooner;
    assert Group(pages, true, false) == {} && Group(pages, true, true) == {};
  }

  lemma GoneAtMost(pages0: Pages, pages: Pages, plan: Plan, reclaimed: nat)
    requires Gone(pages0, pages, plan, reclaimed)
    ensures reclaimed <= |Group(pages0, false, false)| + |plan.written|
  {
    SubsetSize(Group(pages0, false, false) - pages.Keys, Group(pages0, false, false));
    SubsetSize(plan.written - pages.Keys, plan.written);
  }

  /** The target has been reached before a page in use was. */
  lemma EndTarget(lru0: seq<nat>, pages0: Pages, pages: Pages, target: Target, fails: set<nat>,
                  last: nat, s: nat, plan: Plan, reclaimed: nat)
    requires Listed(lru0, pages0) && Course(lru0, pages0, pages, target, fails, last, s, plan, reclaimed)
    requires target.AtMost? && target.value <= reclaimed
    ensures !InUseGoes(lru0, pages0, target, fails)
  {
    hide Within, Sooner, Group, Marks, Gone, NextIsInUse;
    GoneAtMost(pages0, pages, plan, reclaimed);
    SubsetSize(plan.written, Group(pages0, false, true));
    GroupKind(pages0, true, false);
    forall r, n: nat | r in Group(pages0, true, false) && Within(lru0, pages0, r, n)
      ensures !(|Group(pages0, false, false)| + n < target.value)
    {
      if |Group(pages0, false, false)| + n < target.value {
        assert r == last;
        WithinMore(lru0, pages0, last, n, |plan.written| - 1);
      }
    }
  }

  /** A clean page in use that a fruitless scan left needs more visits alone than pages were written. */
  lemma CleanNeedsMore(lru0: seq<nat>, pages0: Pages, pages: Pages, fails: set<nat>, last: nat, s: nat, plan: Plan,
                       visited: bool,
                       r: nat, n: nat)
    requires Listed(lru0, pages0) && AnyInUse(pages0) && Fruitless(lru0, pages0, pages, last, s, visited)
    requires Marks(pages0, pages, fails, plan) && Needs(lru0, pages0, pages, last, s, plan.written)
    requires r in pages0 && r in Group(pages0, true, false) && Within(lru0, pages0, r, n)
    ensures visited && r == last && |plan.written| < n && Group(pages0, true, true) == {}
  {
    hide Within, Sooner, Marks, Needs, SameKind, Stuck;
    StuckInUse(lru0, pages0, pages, fails, last, s, plan, visited);
    VisitedNeeds(lru0, pages0, pages, last, s, plan.written);
    if n <= s { WithinMore(lru0, pages0, last, n, s); }
    assert last !in Group(pages0, true, true);
  }

  /** No more pages may be written. */
  lemma EndCap(lru0: seq<nat>, pages0: Pages, pages: Pages, target: Target, fails: set<nat>,
               last: nat, s: nat, plan: Plan, reclaimed: nat, visited: bool)
    requires Listed(lru0, pages0) && AnyInUse(pages0) && Fruitless(lru0, pages0, pages, last, s, visited)
    requires Course(lru0, pages0, pages, target, fails, last, s, plan, reclaimed)
    requires target.AtMost? && target.cap <= |plan.written|
    ensures !InUseGoes(lru0, pages0, target, fails)
  {
    hide Sooner, Within, Group, Marks, Gone, NextIsInUse, Visits, Fruitless;
    SubsetSize(plan.written, Group(pages0, false, true));
    GroupKind(pages0, true, false);
    forall r, n: nat | r in Group(pages0, true, false) && Within(lru0, pages0, r, n) ensures target.cap < n {
      CleanNeedsMore(lru0, pages0, pages, fails, last, s, plan, visited, r, n);
    }
  }

  /** Those that go before the first page not written have been written. */
  lemma AheadWritten(lru0: seq<nat>, pages0: Pages, lru: seq<nat>, pages: Pages, fails: set<nat>, last: nat, s: nat,
                     plan: Plan, d: nat)
    requires Follows(lru0, pages0, lru, pages, last, s) && SameKind(pages0, pages) && Marks(pages0, pages, fails, plan)
    requires FirstDirty(lru, pages, d) && d in Group(pages0, false, true)
    ensures |Ahead(lru0, pages0, Group(pages0, false, true), d)| <= |plan.written|
  {
    var ahead := Ahead(lru0, pages0, Group(pages0, false, true), d);
    forall e | e in ahead ensures e in plan.written {
      if e !in plan.written {
        FirstUnwritten(lru0, pages0, lru, pages, fails, last, s, plan, d, e);
        OneOrTheOther(lru0, pages0, d, e);
      }
    }
    SubsetSize(ahead, plan.written);
  }

  /** A page cannot be written back. */
  lemma EndFail(lru0: seq<nat>, pages0: Pages, lru: seq<nat>, pages: Pages, target: Target, fails: set<nat>,
                last: nat, s: nat, plan: Plan, reclaimed: nat, visited: bool, d: nat)
    requires Follows(lru0, pages0, lru, pages, last, if visited then s + 1 else s) && AnyInUse(pages0)
    requires Fruitless(lru0, pages0, pages, last, s, visited)
    requires Course(lru0, pages0, pages, target, fails, last, s, plan, reclaimed)
    requires FirstDirty(lru, pages, d) && pages0[d].dirty && d in fails && (visited ==> d != last)
    ensures !InUseGoes(lru0, pages0, target, fails)
  {
    assert d in pages;
    hide *;
    var s' := if visited then s + 1 else s;
    FollowsParts(lru0, pages0, lru, pages, last, s');
    CourseParts(lru0, pages0, pages, target, fails, last, s, plan, reclaimed);
    if pages0[d].referenced {
      InUseNotWritable(lru0, pages0, lru, pages, target, fails, last, s, plan, visited, d);
    } else {
      UnusedNotWritable(lru0, pages0, lru, pages, target, fails, last, s, plan, visited, d);
    }
  }

  lemma InUseNotWritable(lru0: seq<nat>, pages0: Pages, lru: seq<nat>, pages: Pages, target: Target,
                         fails: set<nat>,
                         last: nat, s: nat, plan: Plan, visited: bool, d: nat)
    requires Follows(lru0, pages0, lru, pages, last, if visited then s + 1 else s) && AnyInUse(pages0)
    requires Fruitless(lru0, pages0, pages, last, s, visited) && Marks(pages0, pages, fails, plan)
    requires NextIsInUse(lru0, pages0, target, fails, last, s, plan)
    requires
      && FirstDirty(lru, pages, d) && pages0[d].referenced && pages0[d].dirty && d in fails && (visited ==> d != last)
    ensures !InUseGoes(lru0, pages0, target, fails)
  {
    FollowsParts(lru0, pages0, lru, pages, last, if visited then s + 1 else s);
    GroupKind(pages0, true, true);
    hide Follows, Fruitless, Marks, NextIsInUse, Group, Within, FirstOf;
    StuckPending(lru0, pages0, pages, target, fails, last, s, plan, visited);
    InUseWritten(lru0, pages0, lru, pages, fails, last, s, plan, visited, d);
    FirstUnique(lru0, pages0, Group(pages0, true, true), d);
  }

  lemma UnusedNotWritable(lru0: seq<nat>, pages0: Pages, lru: seq<nat>, pages: Pages, target: Target,
                          fails: set<nat>,
                          last: nat, s: nat, plan: Plan, visited: bool, d: nat)
    requires Follows(lru0, pages0, lru, pages, last, if visited then s + 1 else s) && AnyInUse(pages0)
    requires Fruitless(lru0, pages0, pages, last, s, visited) && Marks(pages0, pages, fails, plan)
    requires Needs(lru0, pages0, pages, last, s, plan.written)
    requires FirstDirty(lru, pages, d) && !pages0[d].referenced && pages0[d].dirty && d in fails
    ensures !InUseGoes(lru0, pages0, target, fails)
  {
    assert d in Group(pages0, false, true);
    hide Follows, Marks, Group, Within, Needs, Stuck;
    AheadWritten(lru0, pages0, lru, pages, fails, last, if visited then s + 1 else s, plan, d);
    GroupKind(pages0, true, false);
    forall r, n: nat | r in Group(pages0, true, false) && Within(lru0, pages0, r, n)
        ensures !Writable(lru0, pages0, n, fails) {
      CleanNeedsMore(lru0, pages0, pages, fails, last, s, plan, visited, r, n);
    }
  }

  lemma FirstUnique(lru: seq<nat>, pages: Pages, group: set<nat>, d: nat)
    requires Listed(lru, pages) && group <= pages.Keys && FirstOf(lru, pages, group, d)
    ensures forall r :: FirstOf(lru, pages, group, r) ==> r == d
  {
    forall r | FirstOf(lru, pages, group, r) ensures r == d {
      if r != d { OneOrTheOther(lru, pages, r, d); }
    }
  }

  /** Nothing is left but the page that has had its visit alone. */
  lemma EndNone(lru0: seq<nat>, pages0: Pages, pages: Pages, target: Target, fails: set<nat>,
                last: nat, s: nat, plan: Plan, reclaimed: nat, visited: bool)
    requires Listed(lru0, pages0) && AnyInUse(pages0) && Fruitless(lru0, pages0, pages, last, s, visited)
    requires Course(lru0, pages0, pages, target, fails, last, s, plan, reclaimed)
    requires forall p :: p in pages && Eligible(pages[p]) && pages[p].dirty ==> visited && p == last
    ensures !InUseGoes(lru0, pages0, target, fails)
  {
    hide Within, Sooner, Group, Marks, Gone, NextIsInUse, Needs, Stuck, SameKind;
    StuckPending(lru0, pages0, pages, target, fails, last, s, plan, visited);
    StuckInUse(lru0, pages0, pages, fails, last, s, plan, visited);
    if visited { VisitedNeeds(lru0, pages0, pages, last, s, plan.written); }
    AllWritten(pages0, pages, fails, last, plan, visited);
    NoneClean(lru0, pages0, pages, target, fails, last, s, plan, visited);
  }

  lemma NoneClean(lru0: seq<nat>, pages0: Pages, pages: Pages, target: Target, fails: set<nat>,
                  last: nat, s: nat, plan: Plan, visited: bool)
    requires Listed(lru0, pages0) && AnyInUse(pages0) && Fruitless(lru0, pages0, pages, last, s, visited)
    requires Marks(pages0, pages, fails, plan) && Needs(lru0, pages0, pages, last, s, plan.written)
    requires plan.written == Group(pages0, false, true)
    ensures !CleanGoes(lru0, pages0, target, fails)
  {
    hide Within, Sooner, Group, Marks, Needs, Fruitless;
    GroupKind(pages0, true, false);
    forall r, n: nat | r in Group(pages0, true, false) && Within(lru0, pages0, r, n)
        ensures |Group(pages0, false, true)| < n {
      CleanNeedsMore(lru0, pages0, pages, fails, last, s, plan, visited, r, n);
    }
  }

  lemma AllWritten(pages0: Pages, pages: Pages, fails: set<nat>, last: nat, plan: Plan, visited: bool)
    requires SameKind(pages0, pages) && Marks(pages0, pages, fails, plan) && plan.pending == None
    requires forall p :: p in pages && Eligible(pages[p]) && pages[p].dirty ==> visited && p == last
    requires visited ==> last in Group(pages0, true, false) + Group(pages0, true, true)
    ensures plan.written == Group(pages0, false, true)
    ensures Group(pages0, true, true) != {} ==> visited && Group(pages0, true, true) == {last}
  {
    forall q | q in Group(pages0, true, true) ensures visited && q == last { assert pages[q].dirty; }
    forall e | e in Group(pages0, false, true) && e !in plan.written ensures false {}
  }
}
