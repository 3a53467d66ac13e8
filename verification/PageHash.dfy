/** The hash table of a mapping: chains of pages by index, doubled when they get long. */
module PageHash {
  import opened Basics

  type Id = nat          // a page structure
  type Index = bv64      // its place in the file

  const MIN_SIZE: nat := 64
  const LOAD: nat := 4

  /** A page on its way out is skipped by lookups and can have a successor with the same index. */
  datatype Page = Page(index: Index, evicting: bool)

  type Pages = map<Id, Page>

  function Mixed(index: Index): Index {
    var a := index ^ (index >> 33);
    var b := a * 0xff51_afd7_ed55_8ccd;
    b ^ (b >> 33)
  }

  /** pc_hash: the low bits of the mixed index; counts are powers of two. */
  function Hash(index: Index, count: nat): (bucket: nat)
    requires count > 0
    ensures bucket < count
  {
    Mixed(index) as nat % count
  }

  /** The pages that belong to a bucket of a table that holds the pages in done. */
  ghost function Home(pages: Pages, done: set<Id>, count: nat, b: nat): set<Id>
    requires count > 0
  {
    set id | id in done && id in pages && Hash(pages[id].index, count) == b
  }

  ghost predicate ChainOk(chains: seq<seq<Id>>, pages: Pages, done: set<Id>, b: nat)
    requires b < |chains|
  {
    Lists(chains[b], Home(pages, done, |chains|, b))
  }

  /** Every chain lists exactly the pages that belong to it. */
  ghost predicate Filled(chains: seq<seq<Id>>, pages: Pages, done: set<Id>) {
    |chains| > 0 && forall b {:trigger ChainOk(chains, pages, done, b)} :: 0 <= b < |chains| ==>
        ChainOk(chains, pages, done, b)
  }

  /** Of the pages with one index at most one is not on its way out. */
  ghost predicate OneEach(pages: Pages) {
    forall id, id' ::
      id in pages && id' in pages && pages[id].index == pages[id'].index && !pages[id].evicting && !pages[id'].evicting
      ==> id == id'
  }

  predicate IsLive(pages: Pages, id: Id, index: Index) { id in pages && pages[id] == Page(index, false) }

  /** A page put at the head of its chain. */
  lemma Pushed(chains: seq<seq<Id>>, pages: Pages, done: set<Id>, id: Id)
    requires Filled(chains, pages, done) && id in pages && id !in done
    ensures var b := Hash(pages[id].index, |chains|); Filled(chains[b := [id] + chains[b]], pages, done + {id})
  {
    hide Hash, Lists;
    var n := |chains|;
    var b := Hash(pages[id].index, n);
    var chains' := chains[b := [id] + chains[b]];
    forall c | 0 <= c < n ensures ChainOk(chains', pages, done + {id}, c) {
      assert ChainOk(chains, pages, done, c);
      if c == b {
        ListsPush(chains[b], Home(pages, done, n, b), id);
        assert Home(pages, done + {id}, n, b) == Home(pages, done, n, b) + {id};
      } else {
        assert Home(pages, done + {id}, n, c) == Home(pages, done, n, c);
      }
    }
  }

  /** A page unlinked from its chain, wherever in it. */
  lemma Removed(chains: seq<seq<Id>>, pages: Pages, b: nat, k: nat)
    requires Filled(chains, pages, pages.Keys) && b < |chains| && k < |chains[b]|
    ensures chains[b][k] in pages
    ensures var pages' := pages - {chains[b][k]};
        Filled(chains[b := chains[b][..k] + chains[b][k + 1..]], pages', pages'.Keys)
  {
    hide Hash, Lists;
    var n, id := |chains|, chains[b][k];
    OnChain(chains, pages, pages.Keys, id, b);
    var chains', pages' := chains[b := chains[b][..k] + chains[b][k + 1..]], pages - {id};
    forall c | 0 <= c < n ensures ChainOk(chains', pages', pages'.Keys, c) {
      assert ChainOk(chains, pages, pages.Keys, c);
      if c == b {
        ListsCut(chains[b], Home(pages, pages.Keys, n, b), k);
        assert Home(pages', pages'.Keys, n, b) == Home(pages, pages.Keys, n, b) - {id};
      } else {
        assert Home(pages', pages'.Keys, n, c) == Home(pages, pages.Keys, n, c);
      }
    }
  }

  lemma ListsCut(list: seq<Id>, s: set<Id>, k: nat)
    requires Lists(list, s) && k < |list|
    ensures Lists(list[..k] + list[k + 1..], s - {list[k]})
  {
    assert list == list[..k] + [list[k]] + list[k + 1..];
    forall x ensures x in s - {list[k]} <==> x in list[..k] + list[k + 1..] {
      assert x in list <==> x in list[..k] || x == list[k] || x in list[k + 1..];
    }
  }

  /** A page that is new to the table, or whose bit changes, leaves the other chains as they are. */
  lemma Relabelled(chains: seq<seq<Id>>, pages: Pages, pages': Pages, done: set<Id>)
    requires Filled(chains, pages, done) && done <= pages.Keys && done <= pages'.Keys
    requires forall id :: id in done ==> pages'[id].index == pages[id].index
    ensures Filled(chains, pages', done)
  {
    hide Hash, Lists;
    forall c | 0 <= c < |chains| ensures ChainOk(chains, pages', done, c) {
      assert ChainOk(chains, pages, done, c);
      assert Home(pages', done, |chains|, c) == Home(pages, done, |chains|, c);
    }
  }

  /** A new page at the head of its chain. */
  lemma Linked(chains: seq<seq<Id>>, pages: Pages, id: Id, index: Index)
    requires Filled(chains, pages, pages.Keys) && OneEach(pages) && id !in pages && forall other ::
        !IsLive(pages, other, index)
    ensures var pages', b := pages[id := Page(index, false)], Hash(index, |chains|);
            Filled(chains[b := [id] + chains[b]], pages', pages'.Keys) && OneEach(pages') && |pages'| == |pages| + 1
  {
    var pages' := pages[id := Page(index, false)];
    forall x, y | x in pages' && y in pages' && pages'[x].index == pages'[y].index && !pages'[x].evicting
        && !pages'[y].evicting ensures x == y {
      assert !IsLive(pages, x, index) && !IsLive(pages, y, index);
    }
    hide Hash, Filled;
    Relabelled(chains, pages, pages', pages.Keys);
    Pushed(chains, pages', pages.Keys, id);
    assert pages.Keys + {id} == pages'.Keys;
  }

  lemma EmptyFilled(chains: seq<seq<Id>>, pages: Pages)
    requires |chains| > 0 && forall b :: 0 <= b < |chains| ==> chains[b] == []
    ensures Filled(chains, pages, {})
  {
    forall b | 0 <= b < |chains| ensures ChainOk(chains, pages, {}, b) { ListsNone(Home(pages, {}, |chains|, b)); }
  }

  /** What a chain says about the pages on it. */
  lemma OnChain(chains: seq<seq<Id>>, pages: Pages, done: set<Id>, id: Id, b: nat)
    requires Filled(chains, pages, done) && b < |chains|
    ensures id in chains[b] <==> id in done && id in pages && Hash(pages[id].index, |chains|) == b
  {
    hide Hash;
    assert ChainOk(chains, pages, done, b);
  }

  class Table {
    const maxSize: nat
    var buckets: array<seq<Id>>
    var pages: Pages              // the structures on the chains
    var count: nat                // how many

    ghost predicate Valid()
      reads this, buckets
    {
      Filled(buckets[..], pages, pages.Keys) && OneEach(pages) && count == |pages|
    }

    /** The table of a new mapping. */
    constructor (limit: nat)
      ensures Valid() && fresh(buckets) && buckets.Length == MIN_SIZE && pages == map[] && maxSize == limit
    {
      maxSize := limit;
      buckets := new seq<Id>[MIN_SIZE](_ => []);
      pages, count := map[], 0;
      new;
      EmptyFilled(buckets[..], pages);
    }

    /** pc_find_locked: the page of that index that is not on its way out. */
    method Find(index: Index) returns (r: Option<Id>)
      requires Valid()
      ensures r.Some? ==> IsLive(pages, r.value, index)
      ensures r.None? ==> forall id :: !IsLive(pages, id, index)
    {
      hide Hash, Filled, Lists;
      FilledSome();
      var b := Hash(index, buckets.Length);
      var chain := buckets[b];
      ChainFacts(index, b);
      for k := 0 to |chain|
        invariant forall j :: 0 <= j < k ==> !IsLive(pages, chain[j], index)
      {
        var id := chain[k];
        assert id in chain;
        if pages[id].index == index && !pages[id].evicting { return Some(id); }
      }
      return None;
    }

    lemma FilledSome()
      requires Valid()
      ensures buckets.Length > 0
    {}

    lemma ChainFacts(index: Index, b: nat)
      requires Valid() && b < buckets.Length && b == Hash(index, buckets.Length)
      ensures forall id :: id in buckets[b] ==> id in pages
      ensures forall id :: IsLive(pages, id, index) ==> id in buckets[b]
    {
      hide Hash, Filled;
      forall id ensures (id in buckets[b] ==> id in pages) && (IsLive(pages, id, index) ==> id in buckets[b]) {
        OnChain(buckets[..], pages, pages.Keys, id, b);
      }
    }

    /** pc_grow_hash_locked: every page moves to its chain in the new table. */
    method Grow(memory: bool)
      requires Valid()
      modifies this`buckets
      ensures Valid() && (buckets == old(buckets) || fresh(buckets))
      ensures buckets.Length ==
              if memory && old(buckets.Length) < maxSize && count >= old(buckets.Length) * LOAD
                  then Min(2 * old(buckets.Length), maxSize)
              else old(buckets.Length)
    {
      hide Hash, Filled, Lists;
      FilledSome();
      var n := buckets.Length;
      if n >= maxSize || count < n * LOAD || !memory { return; }
      var table := new seq<Id>[Min(2 * n, maxSize)](_ => []);
      EmptyFilled(table[..], pages);
      ghost var done: set<Id> := {};
      for i := 0 to n
        modifies table
        invariant Filled(table[..], pages, done) && done <= pages.Keys
        invariant forall id :: id in pages ==> (id in done <==> Hash(pages[id].index, n) < i)
      {
        var chain := buckets[i];
        ghost var home, before := Home(pages, pages.Keys, n, i), done;
        ghost var rest := home;
        assert Lists(chain, rest) by { OneChain(buckets[..], pages, pages.Keys, i); }
        while chain != []
          modifies table
          invariant Lists(chain, rest) && rest <= home && done == before + (home - rest)
          invariant Filled(table[..], pages, done)
          decreases |chain|
        {
          ListsNext(chain, rest);
          var id := chain[0];
          Pushed(table[..], pages, done, id);
          var b := Hash(pages[id].index, table.Length);
          ghost var chains := table[..];
          table[b] := [id] + table[b];
          assert table[..] == chains[b := [id] + chains[b]];
          done, rest := done + {id}, rest - {id};
          chain := chain[1..];
        }
        ListsNone(rest);
      }
      assert done == pages.Keys;
      buckets := table;
    }

    /** The end of pc_get_page, under the lock: the page that is there already, or the new one. */
    method Add(id: Id, index: Index, memory: bool) returns (r: Id)
      requires Valid() && id !in pages
      modifies this, buckets
      ensures Valid() && (buckets == old(buckets) || fresh(buckets)) && IsLive(pages, r, index)
      ensures (exists other :: IsLive(old(pages), other, index)) ==> pages == old(pages)
      ensures (forall other :: !IsLive(old(pages), other, index)) ==>
          r == id && pages == old(pages)[id := Page(index, false)]
    {
      hide Hash, Filled, Lists;
      var existing := Find(index);
      if existing.Some? { return existing.value; }
      Grow(memory);
      Link(id, index);
      return id;
    }

    /** A page goes to the head of its chain. */
    method Link(id: Id, index: Index)
      requires Valid() && id !in pages && forall other :: !IsLive(pages, other, index)
      modifies this`pages, this`count, buckets
      ensures Valid() && pages == old(pages)[id := Page(index, false)]
    {
      hide Hash, Filled, Lists;
      FilledSome();
      var b := Hash(index, buckets.Length);
      ghost var chains := buckets[..];
      Linked(chains, pages, id, index);
      buckets[b] := [id] + buckets[b];
      assert buckets[..] == chains[b := [id] + chains[b]];
      pages := pages[id := Page(index, false)];
      count := count + 1;
    }

    /** A lookup does not find the page any more. */
    method StartEviction(id: Id)
      requires Valid() && id in pages
      modifies this`pages
      ensures Valid() && pages == old(pages)[id := old(pages)[id].(evicting := true)]
    {
      hide Hash, Filled, Lists;
      ghost var was := pages;
      pages := pages[id := pages[id].(evicting := true)];
      assert pages.Keys == was.Keys;
      Relabelled(buckets[..], was, pages, was.Keys);
      assert |pages| == |pages.Keys| == |was.Keys| == |was|;
    }

    /** The hash half of pc_unlink_page: refused exactly when the page is on no chain any more. */
    method Unlink(id: Id, index: Index) returns (ok: bool)
      requires Valid() && (id in pages ==> pages[id].index == index)
      modifies this`pages, this`count, buckets
      ensures Valid() && (ok <==> id in old(pages)) && pages == old(pages) - {id}
    {
      hide Hash, Filled, Lists;
      FilledSome();
      var b := Hash(index, buckets.Length);
      OnChain(buckets[..], pages, pages.Keys, id, b);
      var chain := buckets[b];
      for k := 0 to |chain|
        invariant id !in chain[..k]
      {
        if chain[k] == id {
          Removed(buckets[..], pages, b, k);
          ghost var chains := buckets[..];
          buckets[b] := chain[..k] + chain[k + 1..];
          assert buckets[..] == chains[b := chain[..k] + chain[k + 1..]];
          pages := pages - {id};
          count := count - 1;
          return true;
        }
      }
      assert chain[..|chain|] == chain;
      assert pages - {id} == pages;
      return false;
    }
  }

  lemma OneChain(chains: seq<seq<Id>>, pages: Pages, done: set<Id>, b: nat)
    requires Filled(chains, pages, done) && b < |chains|
    ensures Lists(chains[b], Home(pages, done, |chains|, b))
  {
    assert ChainOk(chains, pages, done, b);
  }
}
