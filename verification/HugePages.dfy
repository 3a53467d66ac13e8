/**
 Unmapping one page, which may lie inside a large page that has to be split first.  An entry is
 the 64-bit word seen as its fields: bits 0 to 11, the frame number in bits 12 to 51, bits 52 to 63.
 In a large page's entry bit 12, the lowest of the frame number, is its PAT bit; in the entry of a
 small page bit 7 is.
 */
module HugePages {
  import opened Basics

  datatype Flags = Flags(
    present: bool, writable: bool, user: bool, writeThrough: bool, cacheDisable: bool, accessed: bool, dirty: bool,
    bit7: bool, global: bool, cow: bool, shared: bool, bit11: bool)

  datatype Entry = Entry(flags: Flags, frame: nat, noExec: bool, high: nat)

  /** Indices of the four levels; the offset within a page plays no part. */
  datatype Address = Address(i4: nat, i3: nat, i2: nat, i1: nat)

  type Table = seq<Entry>
  type Tables = map<nat, Table>

  predicate AddressOk(a: Address) { a.i4 < 512 && a.i3 < 512 && a.i2 < 512 && a.i1 < 512 }

  /** Small pages in a leaf of a level. */
  function Span(level: nat): nat { if level == 3 then 262144 else if level == 2 then 512 else 1 }

  /** The address bits of a leaf. */
  function Base(e: Entry, level: nat): nat { e.frame - e.frame % Span(level) }

  predicate Pat(e: Entry, level: nat) { if level <= 1 then e.flags.bit7 else e.frame % 2 == 1 }

  /** The reserved bits of a leaf are clear, as the processor demands. */
  predicate LeafOk(e: Entry, level: nat) { e.frame % Span(level) <= 1 }

  // ---- Translation ----

  /** A mapping as the processor sees it: access is what all levels together allow. */
  datatype Mapping =
    | Unmapped
    | Mapped(page: nat, flags: Flags, pat: bool, high: nat, writable: bool, user: bool, noExec: bool)

  /** Access allowed so far on the way down. */
  datatype Access = Access(writable: bool, user: bool, noExec: bool)

  function Through(a: Access, e: Entry): Access {
    Access(a.writable && e.flags.writable, a.user && e.flags.user, a.noExec || e.noExec)
  }

  /** The page an address has inside a leaf. */
  function Inside(a: Address, level: nat): nat {
    if level == 3 then a.i2 * 512 + a.i1 else if level == 2 then a.i1 else 0
  }

  function AsLeaf(e: Entry, level: nat, a: Address, way: Access): Mapping {
    var access := Through(way, e);
    Mapped(Base(e, level) + Inside(a, level), e.flags.(bit7 := false), Pat(e, level), e.high, access.writable,
           access.user, access.noExec)
  }

  function IndexAt(a: Address, level: nat): nat {
    if level == 4 then a.i4 else if level == 3 then a.i3 else if level == 2 then a.i2 else a.i1
  }

  predicate IsLeaf(e: Entry, level: nat) { level == 1 || (level <= 3 && e.flags.bit7) }

  /** The entry leads to a table of the next level. */
  predicate IsLink(e: Entry, level: nat) { e.flags.present && level > 1 && !e.flags.bit7 }

  const ALL := Access(true, true, false)

  /** The table of a level that the walk of an address passes. */
  ghost function TableAt(ts: Tables, root: nat, a: Address, level: nat): Option<nat>
    requires AddressOk(a) && 1 <= level <= 4
    decreases 4 - level, 0
  {
    if level == 4 then Some(root)
    else
      var e := EntryAt(ts, root, a, level + 1);
      if e.Some? && IsLink(e.value, level + 1) then Some(e.value.frame) else None
  }

  /** The entry of a level that the walk of an address reads. */
  ghost function EntryAt(ts: Tables, root: nat, a: Address, level: nat): Option<Entry>
    requires AddressOk(a) && 1 <= level <= 4
    decreases 4 - level, 1
  {
    var t := TableAt(ts, root, a, level);
    if t.Some? && t.value in ts && |ts[t.value]| == 512 then Some(ts[t.value][IndexAt(a, level)]) else None
  }

  /** What the levels above allow. */
  ghost function Way(ts: Tables, root: nat, a: Address, level: nat): Access
    requires AddressOk(a) && 1 <= level <= 4
    decreases 4 - level
  {
    if level == 4 then ALL
    else
      var e := EntryAt(ts, root, a, level + 1);
      if e.Some? then Through(Way(ts, root, a, level + 1), e.value) else ALL
  }

  /** The walk of an address ends at a leaf of this level. */
  ghost predicate EndsAt(ts: Tables, root: nat, a: Address, level: nat)
    requires AddressOk(a) && 1 <= level <= 4
  {
    var e := EntryAt(ts, root, a, level);
    e.Some? && e.value.flags.present && IsLeaf(e.value, level)
  }

  /** page_walk_execute */
  ghost function Translate(ts: Tables, root: nat, a: Address): Mapping
    requires AddressOk(a)
  {
    if EndsAt(ts, root, a, 3) then AsLeaf(EntryAt(ts, root, a, 3).value, 3, a, Way(ts, root, a, 3))
    else if EndsAt(ts, root, a, 2) then AsLeaf(EntryAt(ts, root, a, 2).value, 2, a, Way(ts, root, a, 2))
    else if EndsAt(ts, root, a, 1) then AsLeaf(EntryAt(ts, root, a, 1).value, 1, a, Way(ts, root, a, 1))
    else Unmapped
  }

  // ---- A tree of tables ----

  /** Table t of a level has at index i a link to table child. */
  ghost predicate Link(ts: Tables, levels: map<nat, nat>, t: nat, i: nat, child: nat) {
    t in ts && t in levels && i < |ts[t]| && IsLink(ts[t][i], levels[t]) && ts[t][i].frame == child
  }

  ghost predicate Tree(ts: Tables, levels: map<nat, nat>, root: nat) {
    && levels.Keys == ts.Keys && root in ts && levels[root] == 4
    && (forall t :: t in ts ==> |ts[t]| == 512 && 1 <= levels[t] <= 4)
    && (forall t, i, c {:trigger Link(ts, levels, t, i, c)} :: Link(ts, levels, t, i, c) ==>
        c in ts && levels[c] == levels[t] - 1)
    && (forall t, i, u, j, c {:trigger Link(ts, levels, t, i, c), Link(ts, levels, u, j, c)} ::
          Link(ts, levels, t, i, c) && Link(ts, levels, u, j, c) ==> t == u && i == j)
    && (forall t, i {:trigger ts[t][i]} ::
        t in ts && 0 <= i < 512 && ts[t][i].flags.present && IsLeaf(ts[t][i], levels[t]) ==>
            LeafOk(ts[t][i], levels[t]))
  }

  lemma {:induction false} TableLevel(ts: Tables, levels: map<nat, nat>, root: nat, a: Address, level: nat)
    requires Tree(ts, levels, root) && AddressOk(a) && 1 <= level <= 4
    ensures var t := TableAt(ts, root, a, level); t.Some? ==> t.value in ts && levels[t.value] == level
    decreases 4 - level
  {
    if level < 4 {
      TableLevel(ts, levels, root, a, level + 1);
      var t, up := TableAt(ts, root, a, level), TableAt(ts, root, a, level + 1);
      if t.Some? { assert Link(ts, levels, up.value, IndexAt(a, level + 1), t.value); }
    }
  }

  /** Two walks that pass the same table came there the same way. */
  lemma {:induction false} SameTableSameWay(ts: Tables, levels: map<nat, nat>, root: nat, a: Address, b: Address,
                                            level: nat)
    requires Tree(ts, levels, root) && AddressOk(a) && AddressOk(b) && 1 <= level <= 4
    requires TableAt(ts, root, a, level).Some? && TableAt(ts, root, a, level) == TableAt(ts, root, b, level)
    ensures forall l :: level < l <= 4 ==> IndexAt(a, l) == IndexAt(b, l)
    decreases 4 - level
  {
    if level < 4 {
      TableLevel(ts, levels, root, a, level + 1);
      TableLevel(ts, levels, root, b, level + 1);
      var t, u := TableAt(ts, root, a, level + 1).value, TableAt(ts, root, b, level + 1).value;
      var c := TableAt(ts, root, a, level).value;
      assert Link(ts, levels, t, IndexAt(a, level + 1), c) && Link(ts, levels, u, IndexAt(b, level + 1), c);
      SameTableSameWay(ts, levels, root, a, b, level + 1);
    }
  }

  // ---- Changing one entry ----

  /** The walk of an address reads entry i of table t. */
  ghost predicate Reads(ts: Tables, root: nat, a: Address, t: nat, i: nat)
    requires AddressOk(a)
  {
    exists level :: 1 <= level <= 4 && TableAt(ts, root, a, level) == Some(t) && IndexAt(a, level) == i
  }

  /** after differs from ts in entry i of table t and in tables that were not there before. */
  ghost predicate Patched(ts: Tables, after: Tables, t: nat, i: nat) {
    && t in ts && ts.Keys <= after.Keys
    && (forall u :: u in ts && u != t ==> after[u] == ts[u])
    && |after[t]| == |ts[t]| && forall j :: 0 <= j < |ts[t]| && j != i ==> after[t][j] == ts[t][j]
  }

  /** As long as the changed entry is not on the way, the way is the same. */
  lemma {:induction false} WayKept(ts: Tables, levels: map<nat, nat>, after: Tables, root: nat, a: Address, t: nat,
                                   i: nat, level: nat)
    requires Tree(ts, levels, root) && AddressOk(a) && Patched(ts, after, t, i) && 1 <= level <= 4
    requires forall l :: level < l <= 4 ==> !(TableAt(ts, root, a, l) == Some(t) && IndexAt(a, l) == i)
    ensures TableAt(after, root, a, level) == TableAt(ts, root, a, level)
    ensures Way(after, root, a, level) == Way(ts, root, a, level)
    decreases 4 - level
  {
    if level < 4 {
      WayKept(ts, levels, after, root, a, t, i, level + 1);
      EntryKept(ts, levels, after, root, a, t, i, level + 1);
    }
  }

  lemma EntryKept(ts: Tables, levels: map<nat, nat>, after: Tables, root: nat, a: Address, t: nat, i: nat, level: nat)
    requires Tree(ts, levels, root) && AddressOk(a) && Patched(ts, after, t, i) && 1 <= level <= 4
    requires TableAt(after, root, a, level) == TableAt(ts, root, a, level)
    requires !(TableAt(ts, root, a, level) == Some(t) && IndexAt(a, level) == i)
    ensures EntryAt(after, root, a, level) == EntryAt(ts, root, a, level)
  {
    TableLevel(ts, levels, root, a, level);
  }

  /** A walk that does not read the changed entry ends as before. */
  lemma AvoidsChange(ts: Tables, levels: map<nat, nat>, after: Tables, root: nat, a: Address, t: nat, i: nat)
    requires Tree(ts, levels, root) && AddressOk(a) && Patched(ts, after, t, i) && !Reads(ts, root, a, t, i)
    ensures Translate(after, root, a) == Translate(ts, root, a)
  {
    forall l | 1 <= l <= 4 ensures !(TableAt(ts, root, a, l) == Some(t) && IndexAt(a, l) == i) {}
    hide Tree, Patched, Reads, TableAt, EntryAt, Way;
    forall l | 1 <= l <= 4
        ensures EntryAt(after, root, a, l) == EntryAt(ts, root, a, l) && Way(after, root, a, l) == Way(ts, root, a, l) {
      WayKept(ts, levels, after, root, a, t, i, l);
      EntryKept(ts, levels, after, root, a, t, i, l);
    }
    assert EntryAt(after, root, a, 3) == EntryAt(ts, root, a, 3)
        && EntryAt(after, root, a, 2) == EntryAt(ts, root, a, 2);
    assert EntryAt(after, root, a, 1) == EntryAt(ts, root, a, 1);
  }

  /** Only the walks that share the indices down to the level of a table read an entry of it. */
  lemma ReadsSame(ts: Tables, levels: map<nat, nat>, root: nat, a: Address, b: Address, t: nat, level: nat)
    requires Tree(ts, levels, root) && AddressOk(a) && AddressOk(b) && 1 <= level <= 4
    requires TableAt(ts, root, a, level) == Some(t) && Reads(ts, root, b, t, IndexAt(a, level))
    ensures TableAt(ts, root, b, level) == Some(t) && forall l :: level <= l <= 4 ==> IndexAt(a, l) == IndexAt(b, l)
  {
    TableLevel(ts, levels, root, a, level);
    var l :| 1 <= l <= 4 && TableAt(ts, root, b, l) == Some(t) && IndexAt(b, l) == IndexAt(a, level);
    TableLevel(ts, levels, root, b, l);
    SameTableSameWay(ts, levels, root, a, b, level);
  }

  // ---- Splitting ----

  /** The link put in place of a leaf. */
  function LinkFor(frame: nat, v: Entry): Entry {
    Entry(Flags(true, true, v.flags.user, v.flags.writeThrough, v.flags.cacheDisable, false, false, false, false,
                false, false, false), frame, false, 0)
  }

  /** Small pages for the 512 frames from base on, with the leaf's flags; the PAT bit moves to bit 7. */
  function SmallPage(v: Entry, level: nat, base: nat, i: nat): Entry {
    Entry(v.flags.(bit7 := Pat(v, level)), base + i, v.noExec, v.high)
  }

  /** Two-megabyte pages of a one-gigabyte leaf; the PAT bit stays where it is. */
  function LargePage(v: Entry, i: nat): Entry {
    Entry(v.flags, Base(v, 3) + i * 512 + v.frame % 262144, v.noExec, v.high)
  }

  lemma SmallBase(e: Entry)
    ensures Base(e, 1) == e.frame
  {}

  /** The link restricts nothing that the leaf allows. */
  lemma LinkIsOpen(way: Access, frame: nat, v: Entry, e: Entry)
    requires e.flags.user == v.flags.user && e.flags.writable == v.flags.writable && e.noExec == v.noExec
    ensures Through(Through(way, LinkFor(frame, v)), e) == Through(way, v)
  {}

  lemma SmallPageSame(v: Entry, frame: nat, a: Address, way: Access)
    ensures AsLeaf(SmallPage(v, 2, Base(v, 2), a.i1), 1, a, Through(way, LinkFor(frame, v))) == AsLeaf(v, 2, a, way)
  {
    hide Base, Through, LinkFor, Span;
    var e := SmallPage(v, 2, Base(v, 2), a.i1);
    SmallBase(e);
    LinkIsOpen(way, frame, v, e);
  }

  lemma SmallPageSameTwice(v: Entry, base: nat, frame: nat, frame2: nat, a: Address, way: Access)
    requires base + a.i1 == Base(v, 3) + Inside(a, 3)
    ensures AsLeaf(SmallPage(v, 3, base, a.i1), 1, a, Through(Through(way, LinkFor(frame, v)), LinkFor(frame2, v)))
        == AsLeaf(v, 3, a, way)
  {
    hide Base, Through, LinkFor, Span;
    var e := SmallPage(v, 3, base, a.i1);
    SmallBase(e);
    LinkIsOpen(Through(way, LinkFor(frame, v)), frame2, v, e);
    LinkIsOpen(way, frame, v, v);
  }

  lemma LargePageSame(v: Entry, frame: nat, a: Address, way: Access)
    requires v.flags.present && LeafOk(v, 3) && a.i1 < 512 && a.i2 < 512
    ensures LeafOk(LargePage(v, a.i2), 2)
    ensures AsLeaf(LargePage(v, a.i2), 2, a, Through(way, LinkFor(frame, v))) == AsLeaf(v, 3, a, way)
  {
    hide Base, Through, LinkFor, Span;
    var e := LargePage(v, a.i2);
    LargeBase(v, a.i2);
    LinkIsOpen(way, frame, v, e);
  }

  lemma LeftOver512(m: nat, p: nat)
    requires p <= 1
    ensures (512 * m + p) % 512 == p
  {
    var x := 512 * m + p;
    var d := m - x / 512;
    assert 512 * d == x % 512 - p;
    assert d == 0;
  }

  lemma LeftOver2(m: nat, p: nat)
    requires p <= 1
    ensures (2 * m + p) % 2 == p
  {}

  /** The flag bit below a large frame number is what a division leaves over. */
  lemma LeftOver(m: nat, p: nat, x: nat)
    requires p <= 1 && x == 512 * m + p
    ensures x % 512 == p && x % 2 == p
  {
    LeftOver512(m, p);
    LeftOver2(256 * m, p);
  }

  lemma LargeBase(v: Entry, i: nat)
    requires LeafOk(v, 3) && i < 512
    ensures Base(LargePage(v, i), 2) == Base(v, 3) + i * 512 && LeafOk(LargePage(v, i), 2)
    ensures Pat(LargePage(v, i), 2) == Pat(v, 3)
  {
    var q, p := v.frame / 262144, v.frame % 262144;
    LargeFrame(v, i, q, p);
  }

  lemma LargeFrame(v: Entry, i: nat, q: nat, p: nat)
    requires v.frame == 262144 * q + p && v.frame % 262144 == p <= 1
    ensures Base(LargePage(v, i), 2) == Base(v, 3) + i * 512 && LeafOk(LargePage(v, i), 2)
    ensures Pat(LargePage(v, i), 2) == Pat(v, 3)
  {
    assert LargePage(v, i).frame == 512 * (512 * q + i) + p;
    LeftOver(512 * q + i, p, LargePage(v, i).frame);
    LeftOver(512 * q, p, v.frame);
  }
}
