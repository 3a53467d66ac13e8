/**
 Fork.  The child receives every leaf of the parent, both lose write permission on
 private leaves, and every frame and swap slot gains one reference per new leaf.
 The clone keeps the invariant exactly when no leaf of the parent is being swapped.
 */
module VmFork {
  import opened VmState
  import opened VmInvariant

  /** Where each leaf of the forked state comes from. */
  lemma ForkedLeaf(s: State, parent: nat, child: nat, k: Loc)
    requires CanFork(s, parent, child)
    ensures var s' := DoFork(s, parent, child);
            if k.space == child then
              && (k in s'.leaves <==> Loc(parent, k.page) in s.leaves)
              && (k in s'.leaves ==> s'.leaves[k] == CowLeaf(s.leaves[Loc(parent, k.page)]))
            else
              && (k in s'.leaves <==> k in s.leaves)
              && (k in s.leaves ==> s'.leaves[k] == if k.space == parent then CowLeaf(s.leaves[k]) else s.leaves[k])
  {
    if k.space == child && Loc(parent, k.page) in s.leaves {
      assert k == Loc(child, Loc(parent, k.page).page);
    }
  }

  /** The child's copies of the leaves in a. */
  function Copies(a: set<Loc>, child: nat): set<Holder> {
    set l | l in a :: ByLeaf(Loc(child, l.page))
  }

  lemma {:induction false} CopiesCount(a: set<Loc>, parent: nat, child: nat)
    requires forall l :: l in a ==> l.space == parent
    ensures |Copies(a, child)| == |a|
  {
    if a == {} {
      assert Copies(a, child) == {};
    } else {
      var l :| l in a;
      CopiesCount(a - {l}, parent, child);
      assert Copies(a, child) == Copies(a - {l}, child) + {ByLeaf(Loc(child, l.page))};
      assert ByLeaf(Loc(child, l.page)) !in Copies(a - {l}, child) by {
        forall m | m in a - {l} ensures m.page != l.page {
          assert m == Loc(parent, m.page) && l == Loc(parent, l.page);
        }
      }
    }
  }

  lemma ForkHolds(s: State, parent: nat, child: nat, h: Holder, f: Frame)
    requires CanFork(s, parent, child)
    ensures HoldsFrame(DoFork(s, parent, child), h, f) <==>
        HoldsFrame(s, h, f) || h in Copies(MapsIn(s, parent, f), child)
  {
    if h.ByLeaf? {
      ForkedLeaf(s, parent, child, h.l);
      if h.l.space == child && Loc(parent, h.l.page) in MapsIn(s, parent, f) {
        assert h == ByLeaf(Loc(child, Loc(parent, h.l.page).page));
      }
      if h in Copies(MapsIn(s, parent, f), child) {
        var l :| l in MapsIn(s, parent, f) && h == ByLeaf(Loc(child, l.page));
        assert l == Loc(parent, h.l.page);
      }
    }
  }

  lemma ForkHoldsSlot(s: State, parent: nat, child: nat, h: Holder, n: Slot)
    requires CanFork(s, parent, child)
    ensures HoldsSlot(DoFork(s, parent, child), h, n) <==>
        HoldsSlot(s, h, n) || h in Copies(NamesIn(s, parent, n), child)
  {
    if h.ByLeaf? {
      ForkedLeaf(s, parent, child, h.l);
      if h.l.space == child && Loc(parent, h.l.page) in NamesIn(s, parent, n) {
        assert h == ByLeaf(Loc(child, Loc(parent, h.l.page).page));
      }
      if h in Copies(NamesIn(s, parent, n), child) {
        var l :| l in NamesIn(s, parent, n) && h == ByLeaf(Loc(child, l.page));
        assert l == Loc(parent, h.l.page);
      }
    }
  }

  lemma Union<T>(a: set<T>, b: set<T>, c: set<T>)
    requires a !! b && c == a + b
    ensures |c| == |a| + |b|
  {
  }

  lemma CountFork(s: State, parent: nat, child: nat)
    requires Counted(s) && CanFork(s, parent, child)
    ensures Counted(DoFork(s, parent, child))
  {
    var s' := DoFork(s, parent, child);
    forall f | f in s'.refs ensures s'.refs[f] == |FrameHolders(s', f)| {
      var copies := Copies(MapsIn(s, parent, f), child);
      forall h ensures h in FrameHolders(s', f) <==> h in FrameHolders(s, f) + copies {
        ForkHolds(s, parent, child, h, f);
      }
      CopiesCount(MapsIn(s, parent, f), parent, child);
      Union(FrameHolders(s, f), copies, FrameHolders(s', f));
    }
    forall h, f | HoldsFrame(s', h, f) ensures f in s'.refs {
      ForkHolds(s, parent, child, h, f);
      if !HoldsFrame(s, h, f) {
        var l :| l in MapsIn(s, parent, f);
        assert HoldsFrame(s, ByLeaf(l), f);
      }
    }
  }

  lemma CountForkSlots(s: State, parent: nat, child: nat)
    requires SlotsCounted(s) && CanFork(s, parent, child)
    ensures SlotsCounted(DoFork(s, parent, child))
  {
    var s' := DoFork(s, parent, child);
    forall n | n in s'.slotRefs ensures s'.slotRefs[n] == |SlotHolders(s', n)| {
      var copies := Copies(NamesIn(s, parent, n), child);
      forall h ensures h in SlotHolders(s', n) <==> h in SlotHolders(s, n) + copies {
        ForkHoldsSlot(s, parent, child, h, n);
      }
      CopiesCount(NamesIn(s, parent, n), parent, child);
      Union(SlotHolders(s, n), copies, SlotHolders(s', n));
    }
    forall h, n | HoldsSlot(s', h, n) ensures n in s'.slotRefs {
      ForkHoldsSlot(s, parent, child, h, n);
      if !HoldsSlot(s, h, n) {
        var l :| l in NamesIn(s, parent, n);
        assert HoldsSlot(s, ByLeaf(l), n);
      }
    }
  }

  /** A frame whose only holder is not a leaf of the parent keeps its single reference. */
  lemma ForkKeepsSole(s: State, parent: nat, child: nat, f: Frame, h: Holder)
    requires Inv(s) && CanFork(s, parent, child)
    requires Sole(s, f) && HoldsFrame(s, h, f) && !(h.ByLeaf? && h.l.space == parent)
    ensures Sole(DoFork(s, parent, child), f)
  {
    forall l ensures l !in MapsIn(s, parent, f) {
      if l in MapsIn(s, parent, f) { SoleHolder(s, f, h, ByLeaf(l)); }
    }
    assert MapsIn(s, parent, f) == {};
  }

  lemma ForkKeepsSoleSlot(s: State, parent: nat, child: nat, n: Slot, h: Holder)
    requires Inv(s) && CanFork(s, parent, child)
    requires SoleSlot(s, n) && HoldsSlot(s, h, n) && !(h.ByLeaf? && h.l.space == parent)
    ensures SoleSlot(DoFork(s, parent, child), n)
  {
    forall l ensures l !in NamesIn(s, parent, n) {
      if l in NamesIn(s, parent, n) { SoleSlotHolder(s, n, h, ByLeaf(l)); }
    }
    assert NamesIn(s, parent, n) == {};
  }

  lemma IoHasLeaf(s: State, k: Loc)
    requires Inv(s)
    ensures k in s.io ==> k in s.leaves
  {
    if k in s.io { assert IoOk(s, k, s.io[k]); }
  }

  lemma ForkLeafOk(s: State, parent: nat, child: nat, k: Loc)
    requires Inv(s) && CanFork(s, parent, child) && Quiet(s, parent) && k in DoFork(s, parent, child).leaves
    ensures LeafOk(DoFork(s, parent, child), k, DoFork(s, parent, child).leaves[k])
  {
    var s' := DoFork(s, parent, child);
    ForkedLeaf(s, parent, child, k);
    var origin := if k.space == child then Loc(parent, k.page) else k;
    assert LeafOk(s, origin, s.leaves[origin]);
    IoHasLeaf(s, k);
    if k.space != child && k.space != parent && s.leaves[k].Present? && s.leaves[k].flags.writable
        && !s.leaves[k].flags.shared {
      ForkKeepsSole(s, parent, child, s.leaves[k].frame, ByLeaf(k));
    }
  }

  lemma ForkIoOk(s: State, parent: nat, child: nat, k: Loc)
    requires Inv(s) && CanFork(s, parent, child) && Quiet(s, parent) && k in s.io
    ensures IoOk(DoFork(s, parent, child), k, s.io[k])
  {
    assert IoOk(s, k, s.io[k]);
    ForkedLeaf(s, parent, child, k);
    if IoFrame(s.io[k]).Some? {
      ForkKeepsSole(s, parent, child, IoFrame(s.io[k]).value, ByIo(k));
    }
    if s.io[k].Out? {
      ForkKeepsSoleSlot(s, parent, child, s.io[k].slot, ByLeaf(k));
    }
  }

  lemma ForkOpOk(s: State, parent: nat, child: nat, id: OpId)
    requires Inv(s) && CanFork(s, parent, child) && id in s.ops
    ensures OpOk(DoFork(s, parent, child), s.ops[id])
  {
    assert OpOk(s, s.ops[id]);
    match s.ops[id] {
      case Reserved(slot) => ForkKeepsSoleSlot(s, parent, child, slot, ByOp(id, false));
      case Copied(_, _, _, copy) => ForkKeepsSole(s, parent, child, copy, ByOp(id, false));
      case Pinned(_, _, _) =>
      case Releasing(_, _, _) =>
    }
  }

  lemma KeepFork(s: State, parent: nat, child: nat)
    requires Inv(s) && CanFork(s, parent, child) && Quiet(s, parent)
    ensures Coherent(DoFork(s, parent, child))
  {
    var s' := DoFork(s, parent, child);
    forall k | k in s'.leaves ensures LeafOk(s', k, s'.leaves[k]) { ForkLeafOk(s, parent, child, k); }
    forall k | k in s'.io ensures IoOk(s', k, s'.io[k]) { ForkIoOk(s, parent, child, k); }
    forall id | id in s'.ops ensures OpOk(s', s'.ops[id]) { ForkOpOk(s, parent, child, id); }
  }

  /** A BUSY leaf that no operation owns. */
  ghost predicate Orphan(s: State, k: Loc) { k in s.leaves && s.leaves[k].Swapped? && s.leaves[k].busy && k !in s.io }

  /** Cloning a BUSY entry leaves the child with such a leaf. */
  lemma ForkOfBusyBreaks(s: State, parent: nat, child: nat) returns (k: Loc)
    requires Inv(s) && CanFork(s, parent, child) && !Quiet(s, parent)
    ensures !Coherent(DoFork(s, parent, child)) && k.space == child && Orphan(DoFork(s, parent, child), k)
  {
    var l :| l in s.leaves && l.space == parent && s.leaves[l].Swapped? && s.leaves[l].busy;
    k := Loc(child, l.page);
    ForkedLeaf(s, parent, child, k);
    assert Loc(parent, k.page) == l;
    IoHasLeaf(s, k);
    assert !LeafOk(DoFork(s, parent, child), k, DoFork(s, parent, child).leaves[k]);
  }

  /** One step of any kind, or a fork at any time. */
  ghost predicate AnyStep(s: State, s': State) {
    || (exists a :: Enabled(s, a) && s' == Next(s, a))
    || (exists parent, child :: CanFork(s, parent, child) && s' == DoFork(s, parent, child))
  }

  lemma OrphanUser(s: State, a: UserAction, k: Loc)
    requires Orphan(s, k) && UserEnabled(s, a)
    ensures Orphan(UserNext(s, a), k)
  {
    if a.Fork? { OrphanFork(s, a.parent, a.child, k); }
  }

  lemma OrphanFork(s: State, parent: nat, child: nat, k: Loc)
    requires Orphan(s, k) && CanFork(s, parent, child)
    ensures Orphan(DoFork(s, parent, child), k)
  {
    ForkedLeaf(s, parent, child, k);
    hide ForkedLeaves;
  }

  lemma OrphanFault(s: State, a: FaultAction, k: Loc)
    requires Orphan(s, k) && FaultEnabled(s, a)
    ensures Orphan(FaultNext(s, a), k)
  {}

  lemma OrphanOutFinish(s: State, l: Loc, id: OpId, k: Loc)
    requires Orphan(s, k) && CanOutFinish(s, l, id)
    ensures Orphan(DoOutFinish(s, l, id), k)
  {}

  lemma OrphanOut(s: State, a: SwapOutAction, k: Loc)
    requires Orphan(s, k) && SwapOutEnabled(s, a)
    ensures Orphan(SwapOutNext(s, a), k)
  {
    hide CanOutFinish, DoOutFinish;
    if a.OutFinish? { OrphanOutFinish(s, a.l, a.id, k); }
  }

  lemma OrphanInFinish(s: State, l: Loc, id: OpId, k: Loc)
    requires Orphan(s, k) && CanInFinish(s, l, id)
    ensures Orphan(DoInFinish(s, l, id), k)
  {}

  lemma OrphanIn(s: State, a: SwapInAction, k: Loc)
    requires Orphan(s, k) && SwapInEnabled(s, a)
    ensures Orphan(SwapInNext(s, a), k)
  {
    hide CanInFinish, DoInFinish;
    if a.InFinish? { OrphanInFinish(s, a.l, a.id, k); }
  }

  lemma OrphanDrop(s: State, a: DropAction, k: Loc)
    requires Orphan(s, k) && DropEnabled(s, a)
    ensures Orphan(DropNext(s, a), k)
  {}

  lemma OrphanStep(s: State, a: Action, k: Loc)
    requires Orphan(s, k) && Enabled(s, a)
    ensures Orphan(Next(s, a), k)
  {
    hide Orphan, UserEnabled, UserNext, FaultEnabled, FaultNext, SwapOutEnabled, SwapOutNext, SwapInEnabled, SwapInNext,
      DropEnabled, DropNext;
    match a
    case User(x) => OrphanUser(s, x, k);
    case Fault(x) => OrphanFault(s, x, k);
    case SwapOut(x) => OrphanOut(s, x, k);
    case SwapIn(x) => OrphanIn(s, x, k);
    case Drop(x) => OrphanDrop(s, x, k);
  }

  lemma OrphanAny(s: State, s': State, k: Loc)
    requires Orphan(s, k) && AnyStep(s, s')
    ensures Orphan(s', k)
  {
    hide Enabled, Next, CanFork, DoFork, Orphan;
    if a :| Enabled(s, a) && s' == Next(s, a) {
      OrphanStep(s, a, k);
    } else {
      var parent, child :| CanFork(s, parent, child) && s' == DoFork(s, parent, child);
      OrphanFork(s, parent, child, k);
    }
  }

  /** No operation will ever finish such a leaf: it is there, BUSY and without an owner, for good. */
  lemma {:induction false} OrphanForever(run: seq<State>, k: Loc)
    requires |run| > 0 && Orphan(run[0], k) && forall i :: 0 <= i < |run| - 1 ==> AnyStep(run[i], run[i + 1])
    ensures Orphan(run[|run| - 1], k)
  {
    hide Orphan, AnyStep;
    var n := |run| - 1;
    if n > 0 {
      OrphanForever(run[..n], k);
      OrphanAny(run[n - 1], run[n], k);
    }
  }

  /** Fork keeps the invariant if and only if no leaf of the parent is being swapped. */
  lemma ForkKeepsInvariantIff(s: State, parent: nat, child: nat)
    requires Inv(s) && CanFork(s, parent, child)
    ensures Inv(DoFork(s, parent, child)) <==> Quiet(s, parent)
  {
    if Quiet(s, parent) {
      CountFork(s, parent, child);
      CountForkSlots(s, parent, child);
      KeepFork(s, parent, child);
    } else {
      var k := ForkOfBusyBreaks(s, parent, child);
    }
  }
}
