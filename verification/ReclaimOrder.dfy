/**
 Who goes before whom.  Pages go in the order of the chances they have left, of those with equally
 many the one nearest the tail first.  Aging a page and turning it to the head never changes that
 order, nor how far the page that goes last is from going at all.
 */
module ReclaimOrder {
  import opened ReclaimList

  /** The place of a page on the list; 0 is the head. */
  ghost function At(lru: seq<nat>, k: nat): (i: nat)
    requires k in lru
    ensures i < |lru| && lru[i] == k
  {
    var i :| 0 <= i < |lru| && lru[i] == k;
    i
  }

  lemma AtIs(lru: seq<nat>, pages: Pages, i: nat)
    requires Listed(lru, pages) && i < |lru|
    ensures At(lru, lru[i]) == i
  {}

  /** Visits a page survives; a page that cannot be reclaimed is passed over at once. */
  function Left(p: Page): nat { if Eligible(p) then Chances(p) else 0 }

  /** Page j goes before page k. */
  ghost predicate Sooner(lru: seq<nat>, pages: Pages, j: nat, k: nat)
    requires j in pages && k in pages && j in lru && k in lru
  {
    Left(pages[j]) < Left(pages[k]) || (Left(pages[j]) == Left(pages[k]) && At(lru, k) < At(lru, j))
  }

  /** How often page p is visited before page u has been visited once more than it has chances. */
  ghost function Lead(lru: seq<nat>, pages: Pages, u: nat, p: nat): nat
    requires u in pages && u in lru && p in lru
  {
    Left(pages[u]) + if At(lru, u) < At(lru, p) then 1 else 0
  }

  /** All chances of p are used up by the visits it gets beside another page and n visits alone. */
  ghost predicate Within(lru: seq<nat>, pages: Pages, p: nat, n: nat)
    requires Listed(lru, pages) && p in pages
  {
    Left(pages[p]) <= n || exists u :: u in pages && u != p && Left(pages[p]) <= Lead(lru, pages, u, p) + n
  }

  lemma WithinMore(lru: seq<nat>, pages: Pages, p: nat, n: nat, m: nat)
    requires Listed(lru, pages) && p in pages && Within(lru, pages, p, n) && n <= m
    ensures Within(lru, pages, p, m)
  {
    if Left(pages[p]) > n {
      var u :| u in pages && u != p && Left(pages[p]) <= Lead(lru, pages, u, p) + n;
      assert Left(pages[p]) <= Lead(lru, pages, u, p) + m;
    }
  }

  /** A page with another one behind it in the order needs no visit alone. */
  lemma NotLast(lru: seq<nat>, pages: Pages, p: nat, q: nat)
    requires Listed(lru, pages) && p in pages && q in pages && p != q && Sooner(lru, pages, p, q)
    ensures Within(lru, pages, p, 0)
  {
    assert Left(pages[p]) <= Lead(lru, pages, q, p) + 0;
  }

  lemma OneOrTheOther(lru: seq<nat>, pages: Pages, p: nat, q: nat)
    requires Listed(lru, pages) && p in pages && q in pages && p != q
    ensures Sooner(lru, pages, p, q) <==> !Sooner(lru, pages, q, p)
  {
    assert lru[At(lru, p)] != lru[At(lru, q)];
  }

  // ---- Aging ----

  /** Everything nearer the tail than place i has been passed: it has no chance left or cannot be reclaimed. */
  ghost predicate Passed(lru: seq<nat>, pages: Pages, i: int) {
    forall j :: 0 <= j < |lru| && i < j ==> lru[j] in pages && Left(pages[lru[j]]) == 0
  }

  /** Places after page i has moved to the head. */
  lemma TurnedAt(lru: seq<nat>, pages: Pages, i: nat, k: nat)
    requires Listed(lru, pages) && i < |lru| && k in lru
    ensures k in ToFront(lru, i)
    ensures At(ToFront(lru, i), k) == if k == lru[i] then 0 else if At(lru, k) < i then At(lru, k) + 1 else At(lru, k)
  {
    var lru', j := ToFront(lru, i), At(lru, k);
    ToFrontListed(lru, pages, i);
    var j' := if k == lru[i] then 0 else if j < i then j + 1 else j;
    assert k != lru[i] ==> j != i;
    assert lru'[j'] == k;
    AtIs(lru', pages, j');
  }

  lemma TurnKeepsOrder(lru: seq<nat>, pages: Pages, i: nat, j: nat, k: nat)
    requires Listed(lru, pages) && i < |lru| && lru[i] in pages && Passed(lru, pages, i)
    requires Eligible(pages[lru[i]]) && Chances(pages[lru[i]]) > 0
    requires j in pages && k in pages && j != k
    ensures j in ToFront(lru, i) && k in ToFront(lru, i)
    ensures var pages' := pages[lru[i] := Aged(pages[lru[i]])];
            Sooner(ToFront(lru, i), pages', j, k) <==> Sooner(lru, pages, j, k)
  {
    TurnedAt(lru, pages, i, j);
    TurnedAt(lru, pages, i, k);
    AtIs(lru, pages, i);
    assert lru[At(lru, j)] != lru[At(lru, k)];
  }

  lemma TurnLead(lru: seq<nat>, pages: Pages, i: nat, u: nat, p: nat)
    requires Listed(lru, pages) && 0 < i < |lru| && lru[i] in pages && Passed(lru, pages, i)
    requires Eligible(pages[lru[i]]) && Chances(pages[lru[i]]) > 0
    requires u in pages && p in pages && u != p
    ensures u in ToFront(lru, i) && p in ToFront(lru, i)
    ensures var k := lru[i];
            var pages' := pages[k := Aged(pages[k])];
            var lead, lead' := Lead(lru, pages, u, p), Lead(ToFront(lru, i), pages', u, p);
            && (p == k && At(lru, u) < i ==> lead' == lead - 1)
            && (p == k && At(lru, u) > i ==> lead' == lead == 0)
            && (p != k && At(lru, p) < i ==> lead' == lead)
  {
    TurnedAt(lru, pages, i, u);
    TurnedAt(lru, pages, i, p);
    AtIs(lru, pages, i);
    assert lru[At(lru, u)] != lru[At(lru, p)];
  }

  /** A page that is visited while others are still ahead gets no nearer to going. */
  lemma TurnKeepsNeed(lru: seq<nat>, pages: Pages, i: nat, p: nat, n: nat)
    requires Listed(lru, pages) && 0 < i < |lru| && lru[i] in pages && Passed(lru, pages, i)
    requires Eligible(pages[lru[i]]) && Chances(pages[lru[i]]) > 0 && p in pages
    ensures var lru', pages' := ToFront(lru, i), pages[lru[i] := Aged(pages[lru[i]])];
            Listed(lru', pages') && (Within(lru', pages', p, n) <==> Within(lru, pages, p, n))
  {
    var k := lru[i];
    var lru', pages' := ToFront(lru, i), pages[k := Aged(pages[k])];
    UpdateListed(lru, pages, k, Aged(pages[k]));
    ToFrontListed(lru, pages', i);
    AtIs(lru, pages, i);
    forall u | u in pages && u != p ensures u in lru' && p in lru' { TurnLead(lru, pages, i, u, p); }
    if p == k {
      var h := lru[0];
      AtIs(lru, pages, 0);
      TurnLead(lru, pages, i, h, p);
      if Within(lru, pages, p, n) && Left(pages[p]) > n + 1 {
        var u :| u in pages && u != p && Left(pages[p]) <= Lead(lru, pages, u, p) + n;
        TurnLead(lru, pages, i, u, p);
        assert Left(pages'[p]) <= Lead(lru', pages', u, p) + n;
      }
      if Within(lru', pages', p, n) {
        if Left(pages'[p]) <= n {
          assert Left(pages[p]) <= Lead(lru, pages, h, p) + n;
        } else {
          var u :| u in pages' && u != p && Left(pages'[p]) <= Lead(lru', pages', u, p) + n;
          TurnLead(lru, pages, i, u, p);
          assert Left(pages[p]) <= Lead(lru, pages, u, p) + n;
        }
      }
    } else if At(lru, p) < i {
      if u :| u in pages && u != p && Left(pages[p]) <= Lead(lru, pages, u, p) + n {
        TurnLead(lru, pages, i, u, p);
        assert Left(pages'[p]) <= Lead(lru', pages', u, p) + n;
      }
      if u :| u in pages' && u != p && Left(pages'[p]) <= Lead(lru', pages', u, p) + n {
        TurnLead(lru, pages, i, u, p);
        assert Left(pages[p]) <= Lead(lru, pages, u, p) + n;
      }
    } else {
      assert lru[At(lru, p)] == p && At(lru, p) != i;
    }
  }

  /** The page at the head, visited when all others have been passed: one visit alone. */
  lemma AloneKeeps(lru: seq<nat>, pages: Pages)
    requires Listed(lru, pages) && lru != [] && lru[0] in pages && Passed(lru, pages, 0)
    requires Eligible(pages[lru[0]]) && Chances(pages[lru[0]]) > 0
    ensures var k := lru[0];
            var pages' := pages[k := Aged(pages[k])];
            && Listed(lru, pages') && !Within(lru, pages, k, 0)
            && (forall p, n: nat :: p in pages ==>
                  (Within(lru, pages', p, n) <==> Within(lru, pages, p, if p == k then n + 1 else n)))
            && (forall p, q :: p in pages && q in pages && p != q ==>
                (Sooner(lru, pages', p, q) <==> Sooner(lru, pages, p, q)))
  {
    var k := lru[0];
    var pages' := pages[k := Aged(pages[k])];
    UpdateListed(lru, pages, k, Aged(pages[k]));
    AtIs(lru, pages, 0);
    forall u | u in pages && u != k ensures Left(pages[u]) == 0 && At(lru, u) > 0 { assert lru[At(lru, u)] == u; }
    forall p, n: nat | p in pages
      ensures Within(lru, pages', p, n) <==> Within(lru, pages, p, if p == k then n + 1 else n)
    {
      assert forall u :: u in pages && u != k ==> Lead(lru, pages, u, k) == Lead(lru, pages', u, k) == 0;
    }
  }

  /** Places after a page has left the list. */
  lemma UnlinkedAt(lru: seq<nat>, pages: Pages, i: nat, k: nat)
    requires Listed(lru, pages) && i < |lru| && k in lru && k != lru[i]
    ensures k in Unlinked(lru, i)
    ensures At(Unlinked(lru, i), k) == if At(lru, k) < i then At(lru, k) else At(lru, k) - 1
  {
    var lru', j := Unlinked(lru, i), At(lru, k);
    UnlinkedListed(lru, pages, i);
    var j' := if j < i then j else j - 1;
    assert lru'[j'] == k;
    AtIs(lru', pages - {lru[i]}, j');
  }

  /** A page without chances that goes, all behind it passed, takes nothing from the others. */
  lemma FreeKeeps(lru: seq<nat>, pages: Pages, i: nat, p: nat, n: nat)
    requires Listed(lru, pages) && i < |lru| && lru[i] in pages && Passed(lru, pages, i) && Left(pages[lru[i]]) == 0
    requires p in pages && p != lru[i]
    ensures var lru', pages' := Unlinked(lru, i), pages - {lru[i]};
            Listed(lru', pages') && (Within(lru', pages', p, n) <==> Within(lru, pages, p, n))
  {
    var lru', pages' := Unlinked(lru, i), pages - {lru[i]};
    UnlinkedListed(lru, pages, i);
    AtIs(lru, pages, i);
    UnlinkedAt(lru, pages, i, p);
    forall u | u in pages' && u != p ensures u in lru' && Lead(lru', pages', u, p) == Lead(lru, pages, u, p) {
      UnlinkedAt(lru, pages, i, u);
      assert lru[At(lru, u)] != lru[At(lru, p)];
    }
    if Left(pages[p]) > n {
      assert At(lru, p) < i by { assert lru[At(lru, p)] == p; }
      assert Lead(lru, pages, lru[i], p) == 0;
    }
  }

  lemma FreeKeepsOrder(lru: seq<nat>, pages: Pages, i: nat, j: nat, k: nat)
    requires Listed(lru, pages) && i < |lru| && j in pages && k in pages && j != lru[i] && k != lru[i]
    ensures j in Unlinked(lru, i) && k in Unlinked(lru, i)
    ensures Sooner(Unlinked(lru, i), pages - {lru[i]}, j, k) <==> Sooner(lru, pages, j, k)
  {
    UnlinkedAt(lru, pages, i, j);
    UnlinkedAt(lru, pages, i, k);
    AtIs(lru, pages, i);
    assert lru[At(lru, j)] == j && lru[At(lru, k)] == k;
  }

  // ---- Since the call began ----

  /** Visits alone that a page has had; only one page ever gets any. */
  function Alone(last: nat, s: nat, p: nat): nat { if p == last then s else 0 }

  ghost predicate OrderKept(lru0: seq<nat>, pages0: Pages, lru: seq<nat>, pages: Pages, j: nat, k: nat)
    requires Listed(lru0, pages0) && Listed(lru, pages) && pages.Keys <= pages0.Keys && j in pages && k in pages
  {
    Sooner(lru, pages, j, k) <==> Sooner(lru0, pages0, j, k)
  }

  ghost predicate NeedKept(lru0: seq<nat>, pages0: Pages, lru: seq<nat>, pages: Pages, last: nat, s: nat, p: nat,
                           n: nat)
    requires Listed(lru0, pages0) && Listed(lru, pages) && pages.Keys <= pages0.Keys && p in pages
  {
    Within(lru, pages, p, n) <==> Within(lru0, pages0, p, n + Alone(last, s, p))
  }

  /** The order is what it was, and so is how far each page is from going, but for its visits alone. */
  ghost predicate Follows(lru0: seq<nat>, pages0: Pages, lru: seq<nat>, pages: Pages, last: nat, s: nat) {
    && Listed(lru0, pages0) && Listed(lru, pages) && pages.Keys <= pages0.Keys
    && (forall j, k {:trigger OrderKept(lru0, pages0, lru, pages, j, k)} ::
          j in pages && k in pages && j != k ==> OrderKept(lru0, pages0, lru, pages, j, k))
    && (forall p, n: nat {:trigger NeedKept(lru0, pages0, lru, pages, last, s, p, n)} ::
          p in pages ==> NeedKept(lru0, pages0, lru, pages, last, s, p, n))
  }

  /** No page but this one is in need of visits alone. */
  ghost predicate OnlyLast(lru: seq<nat>, pages: Pages, last: nat)
    requires Listed(lru, pages)
  {
    forall p :: p in pages && !Within(lru, pages, p, 0) ==> p == last
  }

  /** There is one such page at most: the last in the order. */
  lemma LastExists(lru: seq<nat>, pages: Pages) returns (last: nat)
    requires Listed(lru, pages)
    ensures OnlyLast(lru, pages, last)
  {
    if p :| p in pages && !Within(lru, pages, p, 0) {
      last := p;
      forall q | q in pages && !Within(lru, pages, q, 0) ensures q == p {
        if q != p {
          OneOrTheOther(lru, pages, p, q);
          if Sooner(lru, pages, p, q) { NotLast(lru, pages, p, q); } else { NotLast(lru, pages, q, p); }
        }
      }
    } else {
      last := 0;
    }
  }

  lemma FollowsSelf(lru: seq<nat>, pages: Pages, last: nat)
    requires Listed(lru, pages)
    ensures Follows(lru, pages, lru, pages, last, 0)
  {}

  lemma FollowsTurn(lru0: seq<nat>, pages0: Pages, lru: seq<nat>, pages: Pages, last: nat, s: nat, i: nat)
    requires Follows(lru0, pages0, lru, pages, last, s) && 0 < i < |lru| && lru[i] in pages && Passed(lru, pages, i)
    requires Eligible(pages[lru[i]]) && Chances(pages[lru[i]]) > 0
    ensures Follows(lru0, pages0, ToFront(lru, i), pages[lru[i] := Aged(pages[lru[i]])], last, s)
  {
    var lru', pages' := ToFront(lru, i), pages[lru[i] := Aged(pages[lru[i]])];
    UpdateListed(lru, pages, lru[i], Aged(pages[lru[i]]));
    ToFrontListed(lru, pages', i);
    hide Within, Sooner, ToFront, Listed, Passed;
    forall j, k | j in pages' && k in pages' && j != k ensures OrderKept(lru0, pages0, lru', pages', j, k) {
      TurnKeepsOrder(lru, pages, i, j, k);
      assert OrderKept(lru0, pages0, lru, pages, j, k);
    }
    forall p, n: nat | p in pages' ensures NeedKept(lru0, pages0, lru', pages', last, s, p, n) {
      TurnKeepsNeed(lru, pages, i, p, n);
      assert NeedKept(lru0, pages0, lru, pages, last, s, p, n);
    }
  }

  lemma FollowsAlone(lru0: seq<nat>, pages0: Pages, lru: seq<nat>, pages: Pages, last: nat, s: nat)
    requires Follows(lru0, pages0, lru, pages, last, s) && OnlyLast(lru0, pages0, last)
    requires lru != [] && lru[0] in pages && Passed(lru, pages, 0)
    requires Eligible(pages[lru[0]]) && Chances(pages[lru[0]]) > 0
    ensures lru[0] == last && last in pages0 && !Within(lru0, pages0, last, s)
    ensures Follows(lru0, pages0, lru, pages[lru[0] := Aged(pages[lru[0]])], last, s + 1)
  {
    var k := lru[0];
    var pages' := pages[k := Aged(pages[k])];
    AloneKeeps(lru, pages);
    assert NeedKept(lru0, pages0, lru, pages, last, s, k, 0);
    if Within(lru0, pages0, k, 0) { WithinMore(lru0, pages0, k, 0, Alone(last, s, k)); }
    assert k == last;
    var s' := s + 1;
    hide Within, Sooner, Listed, Passed;
    forall i, j | i in pages' && j in pages' && i != j ensures OrderKept(lru0, pages0, lru, pages', i, j) {
      assert OrderKept(lru0, pages0, lru, pages, i, j);
    }
    forall p, n: nat | p in pages' ensures NeedKept(lru0, pages0, lru, pages', last, s', p, n) {
      assert NeedKept(lru0, pages0, lru, pages, last, s, p, if p == k then n + 1 else n);
    }
  }

  lemma FollowsFree(lru0: seq<nat>, pages0: Pages, lru: seq<nat>, pages: Pages, last: nat, s: nat, i: nat)
    requires Follows(lru0, pages0, lru, pages, last, s) && i < |lru| && lru[i] in pages && Passed(lru, pages, i)
    requires Left(pages[lru[i]]) == 0
    ensures Follows(lru0, pages0, Unlinked(lru, i), pages - {lru[i]}, last, s)
  {
    var lru', pages' := Unlinked(lru, i), pages - {lru[i]};
    UnlinkedListed(lru, pages, i);
    hide Within, Sooner, Unlinked, Listed, Passed;
    forall j, k | j in pages' && k in pages' && j != k ensures OrderKept(lru0, pages0, lru', pages', j, k) {
      FreeKeepsOrder(lru, pages, i, j, k);
      assert OrderKept(lru0, pages0, lru, pages, j, k);
    }
    forall p, n: nat | p in pages' ensures NeedKept(lru0, pages0, lru', pages', last, s, p, n) {
      FreeKeeps(lru, pages, i, p, n);
      assert NeedKept(lru0, pages0, lru, pages, last, s, p, n);
    }
  }

  lemma FollowsClean(lru0: seq<nat>, pages0: Pages, lru: seq<nat>, pages: Pages, last: nat, s: nat, d: nat)
    requires Follows(lru0, pages0, lru, pages, last, s) && d in pages
    ensures Follows(lru0, pages0, lru, pages[d := pages[d].(dirty := false)], last, s)
  {
    var pages' := pages[d := pages[d].(dirty := false)];
    UpdateListed(lru, pages, d, pages'[d]);
    assert forall k :: k in pages ==> Left(pages'[k]) == Left(pages[k]);
    forall j, k | j in pages' && k in pages' && j != k ensures OrderKept(lru0, pages0, lru, pages', j, k) {
      assert OrderKept(lru0, pages0, lru, pages, j, k);
    }
    forall p, n: nat | p in pages' ensures NeedKept(lru0, pages0, lru, pages', last, s, p, n) {
      assert NeedKept(lru0, pages0, lru, pages, last, s, p, n);
      assert forall u :: u in pages && u != p ==> Lead(lru, pages', u, p) == Lead(lru, pages, u, p);
    }
  }
}
