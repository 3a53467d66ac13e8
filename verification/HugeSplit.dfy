/** Splitting a large page and unmapping one page of it. */
module HugeSplit {
  import opened Basics
  import opened HugePages

  function Store(ts: Tables, t: nat, i: nat, e: Entry): Tables
    requires t in ts && i < |ts[t]|
  {
    ts[t := ts[t][i := e]]
  }

  function SmallTable(v: Entry, level: nat, base: nat): (r: Table)
    ensures |r| == 512 && forall i :: 0 <= i < 512 ==> r[i] == SmallPage(v, level, base, i)
  {
    seq(512, i requires 0 <= i => SmallPage(v, level, base, i))
  }

  function LargeTable(v: Entry): (r: Table)
    ensures |r| == 512 && forall i :: 0 <= i < 512 ==> r[i] == LargePage(v, i)
  {
    seq(512, i requires 0 <= i => LargePage(v, i))
  }

  ghost predicate NoParent(ts: Tables, levels: map<nat, nat>, n: nat) {
    forall t, i {:trigger Link(ts, levels, t, i, n)} :: !Link(ts, levels, t, i, n)
  }

  /** A new table of leaves, not linked from anywhere yet. */
  lemma AddTable(ts: Tables, levels: map<nat, nat>, root: nat, n: nat, table: Table, level: nat)
    requires Tree(ts, levels, root) && n !in ts && |table| == 512 && 1 <= level <= 3
    requires forall i :: 0 <= i < 512 ==>
        !IsLink(table[i], level) && (table[i].flags.present && IsLeaf(table[i], level) ==> LeafOk(table[i], level))
    ensures Tree(ts[n := table], levels[n := level], root) && NoParent(ts[n := table], levels[n := level], n)
    ensures forall m :: m !in ts && m != n ==> NoParent(ts[n := table], levels[n := level], m)
  {
    var ts', levels' := ts[n := table], levels[n := level];
    forall t, i, c | Link(ts', levels', t, i, c) ensures Link(ts, levels, t, i, c) && t != n {}
    assert forall t, i :: t in ts' && 0 <= i < 512 ==> ts'[t][i] == (if t == n then table[i] else ts[t][i]);
  }

  /** A link to a table that had none, in place of an entry that was no link. */
  lemma SetLink(ts: Tables, levels: map<nat, nat>, root: nat, t: nat, i: nat, n: nat, v: Entry)
    requires Tree(ts, levels, root) && t in ts && i < 512 && n in ts && levels[n] == levels[t] - 1
    requires NoParent(ts, levels, n) && !IsLink(ts[t][i], levels[t])
    ensures Tree(Store(ts, t, i, LinkFor(n, v)), levels, root)
    ensures forall m :: m != n && NoParent(ts, levels, m) ==> NoParent(Store(ts, t, i, LinkFor(n, v)), levels, m)
  {
    var ts' := Store(ts, t, i, LinkFor(n, v));
    forall u, j, c | Link(ts', levels, u, j, c) ensures Link(ts, levels, u, j, c) || (u == t && j == i && c == n) {}
    assert forall u, j :: u in ts' && 0 <= j < 512 ==>
        ts'[u][j] == (if u == t && j == i then LinkFor(n, v) else ts[u][j]);
    assert !IsLeaf(LinkFor(n, v), levels[t]);
  }

  /** The tables after a two-megabyte leaf has been split. */
  function Split2M(ts: Tables, t: nat, i: nat, n: nat): Tables
    requires t in ts && i < |ts[t]| && n != t
  {
    var v := ts[t][i];
    Store(ts[n := SmallTable(v, 2, Base(v, 2))], t, i, LinkFor(n, v))
  }

  /** The tables after a one-gigabyte leaf has been split down to the target. */
  function Split1G(ts: Tables, t: nat, i: nat, target: nat, n: nat, m: nat): Tables
    requires t in ts && i < |ts[t]| && target < 512 && n != t && m != t && m != n
  {
    var v := ts[t][i];
    var filled := ts[m := SmallTable(v, 3, Base(v, 3) + target * 512)][n := LargeTable(v)];
    Store(Store(filled, n, target, LinkFor(m, v)), t, i, LinkFor(n, v))
  }

  lemma Split2MTree(ts: Tables, levels: map<nat, nat>, root: nat, t: nat, i: nat, n: nat)
    requires Tree(ts, levels, root) && t in ts && i < 512 && levels[t] == 2 && n !in ts
    requires ts[t][i].flags.present && IsLeaf(ts[t][i], 2)
    ensures Tree(Split2M(ts, t, i, n), levels[n := 1], root)
  {
    var v := ts[t][i];
    AddTable(ts, levels, root, n, SmallTable(v, 2, Base(v, 2)), 1);
    SetLink(ts[n := SmallTable(v, 2, Base(v, 2))], levels[n := 1], root, t, i, n, v);
  }

  lemma Split1GTree(ts: Tables, levels: map<nat, nat>, root: nat, t: nat, i: nat, target: nat, n: nat, m: nat)
    requires
      && Tree(ts, levels, root) && t in ts && i < 512 && levels[t] == 3 && n !in ts && m !in ts && m != n
      && target < 512
    requires ts[t][i].flags.present && IsLeaf(ts[t][i], 3)
    ensures Tree(Split1G(ts, t, i, target, n, m), levels[m := 1][n := 2], root)
  {
    var v := ts[t][i];
    var filled, levels' := ts[m := SmallTable(v, 3, Base(v, 3) + target * 512)][n := LargeTable(v)],
        levels[m := 1][n := 2];
    Split1GFilled(ts, levels, root, t, i, target, n, m);
    assert !IsLink(filled[n][target], 2) && !IsLink(filled[t][i], 3);
    hide Tree, NoParent, SmallTable, LargeTable, IsLink, IsLeaf, LinkFor;
    SetLink(filled, levels', root, n, target, m, v);
    SetLink(Store(filled, n, target, LinkFor(m, v)), levels', root, t, i, n, v);
  }

  /** Both new tables filled, neither linked yet. */
  lemma Split1GFilled(ts: Tables, levels: map<nat, nat>, root: nat, t: nat, i: nat, target: nat, n: nat, m: nat)
    requires
      && Tree(ts, levels, root) && t in ts && i < 512 && levels[t] == 3 && n !in ts && m !in ts && m != n
      && target < 512
    requires ts[t][i].flags.present && IsLeaf(ts[t][i], 3)
    ensures var v := ts[t][i];
            var filled, levels' := ts[m := SmallTable(v, 3, Base(v, 3) + target * 512)][n := LargeTable(v)],
                levels[m := 1][n := 2];
            Tree(filled, levels', root) && NoParent(filled, levels', m) && NoParent(filled, levels', n)
  {
    var v := ts[t][i];
    assert LeafOk(v, 3);
    var small := SmallTable(v, 3, Base(v, 3) + target * 512);
    AddTable(ts, levels, root, m, small, 1);
    forall j | 0 <= j < 512 ensures LeafOk(LargeTable(v)[j], 2) && !IsLink(LargeTable(v)[j], 2) { LargeBase(v, j); }
    hide Tree, NoParent;
    AddTable(ts[m := small], levels[m := 1], root, n, LargeTable(v), 2);
    StillNoParent(ts[m := small], levels[m := 1], n, LargeTable(v), 2, m);
  }

  lemma StillNoParent(ts: Tables, levels: map<nat, nat>, n: nat, table: Table, level: nat, m: nat)
    requires NoParent(ts, levels, m) && n !in ts && forall i :: 0 <= i < |table| ==> !IsLink(table[i], level)
    ensures NoParent(ts[n := table], levels[n := level], m)
  {
    var ts', levels' := ts[n := table], levels[n := level];
    forall t, i ensures !Link(ts', levels', t, i, m) { assert !Link(ts, levels, t, i, m); }
  }

  // ---- Nothing else moves ----

  /** The walk of a ends at the leaf in entry i of table t. */
  ghost predicate LeafAt(ts: Tables, root: nat, a: Address, level: nat, t: nat, i: nat) {
    && AddressOk(a) && 1 <= level <= 3 && TableAt(ts, root, a, level) == Some(t) && IndexAt(a, level) == i
    && t in ts && |ts[t]| == 512 && ts[t][i].flags.present && IsLeaf(ts[t][i], level)
  }

  lemma LeafTranslates(ts: Tables, root: nat, a: Address, level: nat, t: nat, i: nat)
    requires LeafAt(ts, root, a, level, t, i)
    ensures Translate(ts, root, a) == AsLeaf(ts[t][i], level, a, Way(ts, root, a, level))
  {
    if level < 3 { assert EntryAt(ts, root, a, 3).Some?; }
    if level == 1 { assert EntryAt(ts, root, a, 2).Some? && EntryAt(ts, root, a, 3).Some?; }
  }

  /** After the exchange the walk of an address inside the leaf goes on to the new table. */
  lemma GoesOn(ts: Tables, levels: map<nat, nat>, after: Tables, root: nat, a: Address, level: nat, t: nat, i: nat,
               n: nat)
    requires Tree(ts, levels, root) && LeafAt(ts, root, a, level, t, i) && level > 1
    requires Patched(ts, after, t, i) && after[t][i] == LinkFor(n, ts[t][i])
    ensures TableAt(after, root, a, level - 1) == Some(n)
    ensures Way(after, root, a, level - 1) == Through(Way(ts, root, a, level), LinkFor(n, ts[t][i]))
  {
    forall l | level < l <= 4 ensures TableAt(ts, root, a, l) != Some(t) {
      TableLevel(ts, levels, root, a, l);
      TableLevel(ts, levels, root, a, level);
    }
    WayKept(ts, levels, after, root, a, t, i, level);
    hide Tree;
    assert EntryAt(after, root, a, level) == Some(LinkFor(n, ts[t][i]));
  }

  lemma Split2MPatched(ts: Tables, t: nat, i: nat, n: nat)
    requires t in ts && i < |ts[t]| && n !in ts
    ensures Patched(ts, Split2M(ts, t, i, n), t, i)
  {}

  lemma Split1GPatched(ts: Tables, t: nat, i: nat, target: nat, n: nat, m: nat)
    requires t in ts && i < |ts[t]| && n !in ts && m !in ts && m != n && target < 512
    ensures Patched(ts, Split1G(ts, t, i, target, n, m), t, i)
  {}

  /** Splitting a two-megabyte page changes the translation of no address. */
  lemma Split2MSame(ts: Tables, levels: map<nat, nat>, root: nat, a: Address, t: nat, i: nat, n: nat, b: Address)
    requires Tree(ts, levels, root) && LeafAt(ts, root, a, 2, t, i) && n !in ts && AddressOk(b)
    ensures Translate(Split2M(ts, t, i, n), root, b) == Translate(ts, root, b)
  {
    hide Tree;
    var after, v := Split2M(ts, t, i, n), ts[t][i];
    Split2MPatched(ts, t, i, n);
    if !Reads(ts, root, b, t, i) {
      AvoidsChange(ts, levels, after, root, b, t, i);
    } else {
      ReadsSame(ts, levels, root, a, b, t, 2);
      assert IndexAt(b, 2) == i;
      GoesOn(ts, levels, after, root, b, 2, t, i, n);
      assert LeafAt(after, root, b, 1, n, b.i1);
      LeafTranslates(after, root, b, 1, n, b.i1);
      LeafTranslates(ts, root, b, 2, t, i);
      SmallPageSame(v, n, b, Way(ts, root, b, 2));
    }
  }

  /** Splitting a one-gigabyte page changes the translation of no address. */
  lemma Split1GSame(ts: Tables, levels: map<nat, nat>, root: nat, a: Address, t: nat, i: nat, n: nat, m: nat,
                    b: Address)
    requires
      && Tree(ts, levels, root) && LeafAt(ts, root, a, 3, t, i) && n !in ts && m !in ts && m != n && AddressOk(b)
      && LeafOk(ts[t][i], 3)
    ensures Translate(Split1G(ts, t, i, a.i2, n, m), root, b) == Translate(ts, root, b)
  {
    hide Tree;
    var after := Split1G(ts, t, i, a.i2, n, m);
    Split1GPatched(ts, t, i, a.i2, n, m);
    if !Reads(ts, root, b, t, i) {
      AvoidsChange(ts, levels, after, root, b, t, i);
    } else {
      ReadsSame(ts, levels, root, a, b, t, 3);
      assert IndexAt(b, 3) == i;
      GoesOn(ts, levels, after, root, b, 3, t, i, n);
      LeafTranslates(ts, root, b, 3, t, i);
      if b.i2 == a.i2 { InTarget(ts, root, after, a, t, i, n, m, b); } else {
        OutsideTarget(ts, root, after, a, t, i, n, m, b);
      }
    }
  }

  lemma InTarget(ts: Tables, root: nat, after: Tables, a: Address, t: nat, i: nat, n: nat, m: nat, b: Address)
    requires LeafAt(ts, root, b, 3, t, i) && t != n && t != m && m != n && AddressOk(a) && AddressOk(b) && a.i2 == b.i2
    requires after == Split1G(ts, t, i, a.i2, n, m) && TableAt(after, root, b, 2) == Some(n)
    requires Way(after, root, b, 2) == Through(Way(ts, root, b, 3), LinkFor(n, ts[t][i]))
    ensures Translate(after, root, b) == AsLeaf(ts[t][i], 3, b, Way(ts, root, b, 3))
  {
    var v := ts[t][i];
    assert EntryAt(after, root, b, 2) == Some(LinkFor(m, v));
    assert LeafAt(after, root, b, 1, m, b.i1);
    LeafTranslates(after, root, b, 1, m, b.i1);
    SmallPageSameTwice(v, Base(v, 3) + a.i2 * 512, n, m, b, Way(ts, root, b, 3));
  }

  lemma OutsideTarget(ts: Tables, root: nat, after: Tables, a: Address, t: nat, i: nat, n: nat, m: nat, b: Address)
    requires
      && LeafAt(ts, root, b, 3, t, i) && t != n && t != m && m != n && AddressOk(a) && AddressOk(b) && a.i2 != b.i2
      && LeafOk(ts[t][i], 3)
    requires after == Split1G(ts, t, i, a.i2, n, m) && TableAt(after, root, b, 2) == Some(n)
    requires Way(after, root, b, 2) == Through(Way(ts, root, b, 3), LinkFor(n, ts[t][i]))
    ensures Translate(after, root, b) == AsLeaf(ts[t][i], 3, b, Way(ts, root, b, 3))
  {
    var v := ts[t][i];
    assert LeafAt(after, root, b, 2, n, b.i2);
    LeafTranslates(after, root, b, 2, n, b.i2);
    LargePageSame(v, n, b, Way(ts, root, b, 3));
  }

  /** Clearing the entry of a small page unmaps that page and no other. */
  lemma ClearedOnly(ts: Tables, levels: map<nat, nat>, root: nat, a: Address, t: nat, b: Address, none: Entry)
    requires Tree(ts, levels, root) && AddressOk(a) && AddressOk(b)
    requires TableAt(ts, root, a, 1) == Some(t) && t in ts && |ts[t]| == 512 && !none.flags.present
    ensures var after := Store(ts, t, a.i1, none);
        Translate(after, root, b) == if b == a then Unmapped else Translate(ts, root, b)
  {
    var after := Store(ts, t, a.i1, none);
    assert Patched(ts, after, t, a.i1);
    if b == a {
      forall l | 1 < l <= 4 ensures TableAt(ts, root, a, l) != Some(t) {
        TableLevel(ts, levels, root, a, l);
        TableLevel(ts, levels, root, a, 1);
      }
      ClearedHere(ts, levels, root, a, t, after);
    } else {
      hide Tree;
      OwnEntry(ts, levels, root, a, b, t);
      AvoidsChange(ts, levels, after, root, b, t, a.i1);
    }
  }

  /** No other page is translated by the entry of a small page. */
  lemma OwnEntry(ts: Tables, levels: map<nat, nat>, root: nat, a: Address, b: Address, t: nat)
    requires Tree(ts, levels, root) && AddressOk(a) && AddressOk(b) && TableAt(ts, root, a, 1) == Some(t)
    ensures Reads(ts, root, b, t, a.i1) ==> b == a
  {
    hide Tree;
    if Reads(ts, root, b, t, a.i1) {
      ReadsSame(ts, levels, root, a, b, t, 1);
      assert IndexAt(a, 1) == IndexAt(b, 1) && IndexAt(a, 2) == IndexAt(b, 2) && IndexAt(a, 3) == IndexAt(b, 3)
          && IndexAt(a, 4) == IndexAt(b, 4);
    }
  }

  lemma ClearTree(ts: Tables, levels: map<nat, nat>, root: nat, t: nat, i: nat)
    requires Tree(ts, levels, root) && t in ts && i < 512 && levels[t] == 1
    ensures Tree(Store(ts, t, i, CLEAR), levels, root)
  {
    var ts' := Store(ts, t, i, CLEAR);
    forall u, j, c | Link(ts', levels, u, j, c) ensures Link(ts, levels, u, j, c) {}
    assert forall u, j :: u in ts' && 0 <= j < 512 ==> ts'[u][j] == (if u == t && j == i then CLEAR else ts[u][j]);
  }

  lemma TreeFacts(ts: Tables, levels: map<nat, nat>, root: nat, a: Address, level: nat, t: nat)
    requires Tree(ts, levels, root) && LeafAt(ts, root, a, level, t, IndexAt(a, level))
    ensures t in levels && levels[t] == level && LeafOk(ts[t][IndexAt(a, level)], level)
  {
    TableLevel(ts, levels, root, a, level);
  }

  lemma ClearedHere(ts: Tables, levels: map<nat, nat>, root: nat, a: Address, t: nat, after: Tables)
    requires Tree(ts, levels, root) && AddressOk(a) && TableAt(ts, root, a, 1) == Some(t) && t in ts && |ts[t]| == 512
    requires Patched(ts, after, t, a.i1) && !after[t][a.i1].flags.present
    requires forall l :: 1 < l <= 4 ==> TableAt(ts, root, a, l) != Some(t)
    ensures Translate(after, root, a) == Unmapped
  {
    hide Tree;
    WayKept(ts, levels, after, root, a, t, a.i1, 1);
    WayKept(ts, levels, after, root, a, t, a.i1, 2);
    WayKept(ts, levels, after, root, a, t, a.i1, 3);
    EntryKept(ts, levels, after, root, a, t, a.i1, 2);
    EntryKept(ts, levels, after, root, a, t, a.i1, 3);
    assert EntryAt(ts, root, a, 2).Some? && EntryAt(ts, root, a, 3).Some?;
  }

  // ---- page_unmap_release ----

  datatype Status = Ok | Invalid | NoMemory | Busy | Fault

  /** What an unmapped page gives back. */
  datatype Released = Nothing | Page(frame: nat) | Slot(entry: Entry)

  /** An entry that holds a swap slot: not present, marked in bit 11, with a slot number, in bits 17 to 51, above 0. */
  predicate IsSwap(e: Entry) { !e.flags.present && e.flags.bit11 && e.frame / 32 != 0 }

  /** Bit 52: the page is being swapped. */
  predicate IsBusy(e: Entry) { e.high % 2 == 1 }

  datatype Leaf = Leaf(table: nat, level: nat, value: Entry)

  const CLEAR := Entry(Flags(false, false, false, false, false, false, false, false, false, false, false, false), 0,
                       false, 0)

  class Directory {
    var tables: Tables
    const root: nat
    ghost var levels: map<nat, nat>

    ghost predicate Valid()
      reads this
    {
      Tree(tables, levels, root)
    }

    /** A directory with a cleared top table maps nothing. */
    constructor (top: nat)
      ensures Valid() && root == top && tables.Keys == {top}
      ensures forall b :: AddressOk(b) ==> Translate(tables, root, b) == Unmapped
    {
      tables := map[top := seq(512, _ => CLEAR)];
      root := top;
      levels := map[top := 4];
    }

    /** find_cow_leaf */
    method FindLeaf(a: Address) returns (leaf: Option<Leaf>)
      requires Valid() && AddressOk(a)
      ensures leaf.None? ==> Translate(tables, root, a) == Unmapped
      ensures leaf.Some? ==>
                && LeafAt(tables, root, a, leaf.value.level, leaf.value.table, IndexAt(a, leaf.value.level))
                && leaf.value.value == tables[leaf.value.table][IndexAt(a, leaf.value.level)]
                && levels[leaf.value.table] == leaf.value.level
    {
      TableLevel(tables, levels, root, a, 3);
      TableLevel(tables, levels, root, a, 2);
      TableLevel(tables, levels, root, a, 1);
      hide Tree;
      var e := tables[root][a.i4];
      if !e.flags.present || e.flags.bit7 { return None; }
      var t := e.frame;
      e := tables[t][a.i3];
      if !e.flags.present { return None; }
      if e.flags.bit7 { return Some(Leaf(t, 3, e)); }
      t := e.frame;
      e := tables[t][a.i2];
      if !e.flags.present { return None; }
      if e.flags.bit7 { return Some(Leaf(t, 2, e)); }
      t := e.frame;
      e := tables[t][a.i1];
      if !e.flags.present { return None; }
      return Some(Leaf(t, 1, e));
    }

    method FillSmall(v: Entry, level: nat, base: nat) returns (table: Table)
      ensures table == SmallTable(v, level, base)
    {
      table := seq(512, _ => CLEAR);
      for i := 0 to 512
        invariant |table| == 512 && forall j :: 0 <= j < i ==> table[j] == SmallPage(v, level, base, j)
      {
        table := table[i := SmallPage(v, level, base, i)];
      }
    }

    method FillLarge(v: Entry) returns (table: Table)
      ensures table == LargeTable(v)
    {
      table := seq(512, _ => CLEAR);
      for i := 0 to 512
        invariant |table| == 512 && forall j :: 0 <= j < i ==> table[j] == LargePage(v, j)
      {
        table := table[i := LargePage(v, i)];
      }
    }

    /** The two ways of splitting in page_unmap_release; the frames for new tables are allocated already. */
    method Split(a: Address, leaf: Leaf, n: nat, second: Option<nat>)
      requires Valid() && AddressOk(a) && leaf.level in {2, 3} && n !in tables
      requires leaf.level == 3 ==> second.Some? && second.value !in tables && second.value != n
      requires LeafAt(tables, root, a, leaf.level, leaf.table, IndexAt(a, leaf.level))
      requires leaf.value == tables[leaf.table][IndexAt(a, leaf.level)]
      modifies this`tables, this`levels
      ensures Valid()
      ensures forall b :: AddressOk(b) ==> Translate(tables, root, b) == old(Translate(tables, root, b))
      ensures exists t :: LeafAt(tables, root, a, 1, t, a.i1)
    {
      hide Tree, Translate;
      var t, i, v := leaf.table, IndexAt(a, leaf.level), leaf.value;
      TreeFacts(tables, levels, root, a, leaf.level, t);
      ghost var ts, before := tables, levels;
      if leaf.level == 3 {
        var m := second.value;
        var large := FillLarge(v);
        var small := FillSmall(v, 3, Base(v, 3) + a.i2 * 512);
        large := large[a.i2 := LinkFor(m, v)];
        tables := tables[m := small][n := large];
        tables := tables[t := tables[t][i := LinkFor(n, v)]];
        levels := levels[m := 1][n := 2];
        assert tables == Split1G(ts, t, i, a.i2, n, m);
        Split1GTree(ts, before, root, t, i, a.i2, n, m);
        Split1GReaches(ts, before, root, a, t, i, n, m);
        forall b | AddressOk(b) ensures Translate(tables, root, b) == Translate(ts, root, b) {
          Split1GSame(ts, before, root, a, t, i, n, m, b);
        }
      } else {
        var small := FillSmall(v, 2, Base(v, 2));
        tables := tables[n := small];
        tables := tables[t := tables[t][i := LinkFor(n, v)]];
        levels := levels[n := 1];
        assert tables == Split2M(ts, t, i, n);
        Split2MTree(ts, before, root, t, i, n);
        Split2MReaches(ts, before, root, a, t, i, n);
        forall b | AddressOk(b) ensures Translate(tables, root, b) == Translate(ts, root, b) {
          Split2MSame(ts, before, root, a, t, i, n, b);
        }
      }
    }

    /** The address is mapped by a leaf of this level. */
    ghost predicate LeafLevel(a: Address, level: nat)
      requires 1 <= level <= 3
      reads this
    {
      exists t :: LeafAt(tables, root, a, level, t, IndexAt(a, level))
    }

    lemma OneLevel(a: Address, found: Option<Leaf>)
      requires AddressOk(a) && (found.None? ==> Translate(tables, root, a) == Unmapped)
      requires found.Some? ==>
          LeafAt(tables, root, a, found.value.level, found.value.table, IndexAt(a, found.value.level))
      ensures forall l :: 1 <= l <= 3 ==> (LeafLevel(a, l) <==> found.Some? && found.value.level == l)
    {
      forall l, t | 1 <= l <= 3 && LeafAt(tables, root, a, l, t, IndexAt(a, l))
          ensures found.Some? && found.value.level == l {
        LeafTranslates(tables, root, a, l, t, IndexAt(a, l));
        LeafOnce(tables, root, a, l, t, found.value.level, found.value.table);
      }
    }

    /** The swap entry of an address. */
    ghost function SwapAt(a: Address): Option<Entry>
      requires AddressOk(a)
      reads this
    {
      var e := EntryAt(tables, root, a, 1);
      if e.Some? && IsSwap(e.value) then e else None
    }

    /** find_4k_pte */
    method FindSmall(a: Address) returns (t: Option<nat>)
      requires Valid() && AddressOk(a)
      ensures t == TableAt(tables, root, a, 1)
      ensures t.Some? ==> t.value in tables && |tables[t.value]| == 512 && t.value in levels && levels[t.value] == 1
    {
      TableLevel(tables, levels, root, a, 3);
      TableLevel(tables, levels, root, a, 2);
      TableLevel(tables, levels, root, a, 1);
      var e := tables[root][a.i4];
      if !e.flags.present || e.flags.bit7 { return None; }
      e := tables[e.frame][a.i3];
      if !e.flags.present || e.flags.bit7 { return None; }
      e := tables[e.frame][a.i2];
      if !e.flags.present || e.flags.bit7 { return None; }
      return Some(e.frame);
    }

    /** The entry of a small page is cleared: that page is unmapped, and nothing else changes. */
    method Clear(a: Address, t: nat)
      requires Valid() && AddressOk(a) && TableAt(tables, root, a, 1) == Some(t)
      requires t in tables && |tables[t]| == 512 && t in levels && levels[t] == 1
      modifies this`tables
      ensures Valid() && tables == old(tables)[t := old(tables)[t][a.i1 := CLEAR]]
      ensures forall b :: AddressOk(b) ==>
                Translate(tables, root, b) == if b == a then Unmapped else old(Translate(tables, root, b))
    {
      hide Tree, Translate;
      ghost var ts := tables;
      tables := tables[t := tables[t][a.i1 := CLEAR]];
      ClearTree(ts, levels, root, t, a.i1);
      forall b | AddressOk(b)
        ensures Translate(tables, root, b) == if b == a then Unmapped else Translate(ts, root, b)
      {
        ClearedOnly(ts, levels, root, a, t, b, CLEAR);
      }
    }

    /** page_unmap_release; first and second are the frames for new tables, and Busy means that it tries again. */
    method UnmapRelease(a: Address, first: Option<nat>, second: Option<nat>)
      returns (status: Status, released: Released)
      requires Valid() && AddressOk(a)
      requires (first.Some? ==> first.value !in tables) && (second.Some? ==> second.value !in tables && first != second)
      modifies this`tables, this`levels
      ensures Valid() && status != Fault
      ensures status == Invalid <==> a.i4 >= 256
      ensures status == Busy <==> a.i4 < 256 && old(SwapAt(a)).Some? && IsBusy(old(SwapAt(a)).value)
      ensures status != Ok ==> tables == old(tables) && released == Nothing
      ensures status == Ok ==>
                forall b :: AddressOk(b) ==>
                    Translate(tables, root, b) == if b == a then Unmapped else old(Translate(tables, root, b))
      ensures status == Ok ==>
                var was := old(Translate(tables, root, a));
                released == if old(SwapAt(a)).Some? then Slot(old(SwapAt(a)).value)
                            else if was.Mapped? then Page(was.page) else Nothing
      ensures released == Nothing ==> tables == old(tables)
      ensures status == NoMemory <==>
                a.i4 < 256
                && ((old(LeafLevel(a, 2)) && first.None?) || (old(LeafLevel(a, 3)) && (first.None? || second.None?)))
    {
      hide Tree, Translate, LeafLevel, IsSwap, IsBusy;
      released := Nothing;
      if a.i4 >= 256 { return Invalid, Nothing; }
      var small := FindSmall(a);
      if small.Some? && IsSwap(tables[small.value][a.i1]) {
        var e := tables[small.value][a.i1];
        NoLeafAbove(a, small.value);
        if IsBusy(e) { return Busy, Nothing; }
        Clear(a, small.value);
        return Ok, Slot(e);
      }
      assert SwapAt(a) == None;
      status, released := UnmapMapped(a, first, second);
    }

    /** An address with an entry for a small page that is not present is not mapped. */
    lemma NoLeafAbove(a: Address, t: nat)
      requires AddressOk(a) && TableAt(tables, root, a, 1) == Some(t) && t in tables && |tables[t]| == 512
      requires IsSwap(tables[t][a.i1])
      ensures !LeafLevel(a, 2) && !LeafLevel(a, 3) && Translate(tables, root, a) == Unmapped
    {
      assert EntryAt(tables, root, a, 2).Some? && EntryAt(tables, root, a, 3).Some?;
    }

    /** What is left when the address holds no swap entry. */
    method UnmapMapped(a: Address, first: Option<nat>, second: Option<nat>)
      returns (status: Status, released: Released)
      requires Valid() && AddressOk(a) && a.i4 < 256
      requires (first.Some? ==> first.value !in tables) && (second.Some? ==> second.value !in tables && first != second)
      modifies this`tables, this`levels
      ensures Valid() && status in {Ok, NoMemory}
      ensures status != Ok ==> tables == old(tables) && released == Nothing
      ensures status == Ok ==>
                forall b :: AddressOk(b) ==>
                    Translate(tables, root, b) == if b == a then Unmapped else old(Translate(tables, root, b))
      ensures status == Ok ==>
                var was := old(Translate(tables, root, a));
                released == if was.Mapped? then Page(was.page) else Nothing
      ensures released == Nothing ==> tables == old(tables)
      ensures status == NoMemory <==>
                (old(LeafLevel(a, 2)) && first.None?) || (old(LeafLevel(a, 3)) && (first.None? || second.None?))
    {
      hide Tree, Translate, LeafLevel;
      released := Nothing;
      var found := FindLeaf(a);
      OneLevel(a, found);
      assert (old(LeafLevel(a, 2)) <==> LeafLevel(a, 2)) && (old(LeafLevel(a, 3)) <==> LeafLevel(a, 3));
      if found.None? { return Ok, Nothing; }
      var leaf := found.value;
      LeafPage(tables, root, a, leaf.level, leaf.table);
      if leaf.level != 1 {
        if first.None? { return NoMemory, Nothing; }
        if leaf.level == 3 && second.None? { return NoMemory, Nothing; }
        Split(a, leaf, first.value, second);
        found := FindLeaf(a);
        ghost var t :| LeafAt(tables, root, a, 1, t, a.i1);
        OneLeaf(tables, root, a, t, found);
        if found.None? || found.value.level != 1 { return Fault, Nothing; }
        leaf := found.value;
      }
      TreeFacts(tables, levels, root, a, 1, leaf.table);
      LeafPage(tables, root, a, 1, leaf.table);
      Clear(a, leaf.table);
      return Ok, Page(leaf.value.frame);
    }
  }

  /** A leaf is what the address translates by; for a small page its frame is the page. */
  lemma LeafPage(ts: Tables, root: nat, a: Address, level: nat, t: nat)
    requires LeafAt(ts, root, a, level, t, IndexAt(a, level))
    ensures Translate(ts, root, a).Mapped? && (level == 1 ==> Translate(ts, root, a).page == ts[t][a.i1].frame)
  {
    LeafTranslates(ts, root, a, level, t, IndexAt(a, level));
    SmallBase(ts[t][IndexAt(a, level)]);
  }

  /** A walk ends at one leaf. */
  lemma LeafOnce(ts: Tables, root: nat, a: Address, l: nat, t: nat, m: nat, u: nat)
    requires 1 <= l <= 3 && 1 <= m <= 3
    requires LeafAt(ts, root, a, l, t, IndexAt(a, l)) && LeafAt(ts, root, a, m, u, IndexAt(a, m))
    ensures l == m
  {
    if l < m { LeafStops(ts, root, a, l, m, u); }
    if m < l { LeafStops(ts, root, a, m, l, t); }
  }

  lemma {:induction false} LeafStops(ts: Tables, root: nat, a: Address, l: nat, m: nat, u: nat)
    requires 1 <= l < m <= 3 && LeafAt(ts, root, a, m, u, IndexAt(a, m))
    ensures EntryAt(ts, root, a, l).None?
    decreases m - l
  {
    if l + 1 < m { LeafStops(ts, root, a, l + 1, m, u); }
  }

  lemma OneLeaf(ts: Tables, root: nat, a: Address, t: nat, found: Option<Leaf>)
    requires LeafAt(ts, root, a, 1, t, a.i1)
    requires found.None? ==> Translate(ts, root, a) == Unmapped
    requires found.Some? ==> LeafAt(ts, root, a, found.value.level, found.value.table, IndexAt(a, found.value.level))
    ensures found.Some? && found.value.level == 1
  {
    LeafTranslates(ts, root, a, 1, t, a.i1);
    assert EntryAt(ts, root, a, 2).Some? && EntryAt(ts, root, a, 3).Some?;
  }

  lemma Split2MReaches(ts: Tables, levels: map<nat, nat>, root: nat, a: Address, t: nat, i: nat, n: nat)
    requires Tree(ts, levels, root) && LeafAt(ts, root, a, 2, t, i) && n !in ts
    ensures LeafAt(Split2M(ts, t, i, n), root, a, 1, n, a.i1)
  {
    Split2MPatched(ts, t, i, n);
    GoesOn(ts, levels, Split2M(ts, t, i, n), root, a, 2, t, i, n);
  }

  lemma Split1GReaches(ts: Tables, levels: map<nat, nat>, root: nat, a: Address, t: nat, i: nat, n: nat, m: nat)
    requires Tree(ts, levels, root) && LeafAt(ts, root, a, 3, t, i) && n !in ts && m !in ts && m != n
    ensures LeafAt(Split1G(ts, t, i, a.i2, n, m), root, a, 1, m, a.i1)
  {
    var after := Split1G(ts, t, i, a.i2, n, m);
    Split1GPatched(ts, t, i, a.i2, n, m);
    GoesOn(ts, levels, after, root, a, 3, t, i, n);
    hide Tree;
    assert EntryAt(after, root, a, 2) == Some(LinkFor(m, ts[t][i]));
  }
}
