/** Every transition of the paging state machine keeps the invariant. */
module VmSteps {
  import opened VmState
  import opened VmInvariant

  lemma CountedSame(s: State, s': State)
    requires Counted(s) && s'.refs == s.refs && s'.mem.Keys == s.mem.Keys
    requires forall h, f :: HoldsFrame(s', h, f) <==> HoldsFrame(s, h, f)
    ensures Counted(s')
  {
    forall f | f in s'.refs ensures s'.refs[f] == |FrameHolders(s', f)| { SameHolders(s, s', f); }
  }

  lemma SlotsCountedSame(s: State, s': State)
    requires SlotsCounted(s) && s'.slotRefs == s.slotRefs && s'.disk.Keys == s.disk.Keys
    requires forall h, n :: HoldsSlot(s', h, n) <==> HoldsSlot(s, h, n)
    ensures SlotsCounted(s')
  {
    forall n | n in s'.slotRefs ensures s'.slotRefs[n] == |SlotHolders(s', n)| { SameSlotHolders(s, s', n); }
  }

  /** One reference to f passes from g to g'; all other references stay. */
  lemma CountedMove(s: State, s': State, f: Frame, g: Holder, g': Holder)
    requires Counted(s) && s'.refs == s.refs && s'.mem.Keys == s.mem.Keys
    requires HoldsFrame(s, g, f) && !HoldsFrame(s, g', f)
    requires forall h, x :: HoldsFrame(s', h, x) <==>
        (HoldsFrame(s, h, x) && !(h == g && x == f)) || (h == g' && x == f)
    ensures Counted(s')
  {
    forall x | x in s'.refs ensures s'.refs[x] == |FrameHolders(s', x)| {
      if x == f { MovedHolder(s, s', f, g, g'); } else { SameHolders(s, s', x); }
    }
  }

  lemma SlotsCountedMove(s: State, s': State, n: Slot, g: Holder, g': Holder)
    requires SlotsCounted(s) && s'.slotRefs == s.slotRefs && s'.disk.Keys == s.disk.Keys
    requires HoldsSlot(s, g, n) && !HoldsSlot(s, g', n)
    requires forall h, x :: HoldsSlot(s', h, x) <==> (HoldsSlot(s, h, x) && !(h == g && x == n)) || (h == g' && x == n)
    ensures SlotsCounted(s')
  {
    forall x | x in s'.slotRefs ensures s'.slotRefs[x] == |SlotHolders(s', x)| {
      if x == n { MovedSlotHolder(s, s', n, g, g'); } else { SameSlotHolders(s, s', x); }
    }
  }

  /** The count of f grows by one, for the new holder g. */
  lemma CountedMore(s: State, s': State, f: Frame, g: Holder)
    requires Counted(s) && f in s.refs && s'.refs == s.refs[f := s.refs[f] + 1] && s'.mem.Keys == s.mem.Keys
    requires !HoldsFrame(s, g, f)
    requires forall h, x :: HoldsFrame(s', h, x) <==> HoldsFrame(s, h, x) || (h == g && x == f)
    ensures Counted(s')
  {
    forall x | x in s'.refs ensures s'.refs[x] == |FrameHolders(s', x)| {
      if x == f { MoreHolders(s, s', f, g); } else { SameHolders(s, s', x); }
    }
  }

  /** The count of f falls by one, as g lets go. */
  lemma CountedLess(s: State, s': State, f: Frame, g: Holder)
    requires Counted(s) && f in s.refs && s.refs[f] > 0
    requires s'.refs == s.refs[f := s.refs[f] - 1] && s'.mem.Keys == s.mem.Keys
    requires HoldsFrame(s, g, f)
    requires forall h, x :: HoldsFrame(s', h, x) <==> HoldsFrame(s, h, x) && !(h == g && x == f)
    ensures Counted(s')
  {
    forall x | x in s'.refs ensures s'.refs[x] == |FrameHolders(s', x)| {
      if x == f { MoreHolders(s', s, f, g); } else { SameHolders(s, s', x); }
    }
  }

  lemma SlotsCountedMore(s: State, s': State, n: Slot, g: Holder)
    requires
      && SlotsCounted(s) && n in s.slotRefs && s'.slotRefs == s.slotRefs[n := s.slotRefs[n] + 1]
      && s'.disk.Keys == s.disk.Keys
    requires !HoldsSlot(s, g, n)
    requires forall h, x :: HoldsSlot(s', h, x) <==> HoldsSlot(s, h, x) || (h == g && x == n)
    ensures SlotsCounted(s')
  {
    forall x | x in s'.slotRefs ensures s'.slotRefs[x] == |SlotHolders(s', x)| {
      if x == n { MoreSlotHolders(s, s', n, g); } else { SameSlotHolders(s, s', x); }
    }
  }

  lemma SlotsCountedLess(s: State, s': State, n: Slot, g: Holder)
    requires SlotsCounted(s) && n in s.slotRefs && s.slotRefs[n] > 0
    requires s'.slotRefs == s.slotRefs[n := s.slotRefs[n] - 1] && s'.disk.Keys == s.disk.Keys
    requires HoldsSlot(s, g, n)
    requires forall h, x :: HoldsSlot(s', h, x) <==> HoldsSlot(s, h, x) && !(h == g && x == n)
    ensures SlotsCounted(s')
  {
    forall x | x in s'.slotRefs ensures s'.slotRefs[x] == |SlotHolders(s', x)| {
      if x == n { MoreSlotHolders(s', s, n, g); } else { SameSlotHolders(s, s', x); }
    }
  }

  // ---- User actions ----

  lemma CountTouch(s: State, l: Loc)
    requires Counted(s) && SlotsCounted(s) && CanTouch(s, l)
    ensures Counted(DoTouch(s, l)) && SlotsCounted(DoTouch(s, l))
  {
    hide Counted, SlotsCounted;
    var s' := DoTouch(s, l);
    CountedSame(s, s');
    SlotsCountedSame(s, s');
  }

  lemma KeepTouch(s: State, l: Loc)
    requires Coherent(s) && CanTouch(s, l)
    ensures Coherent(DoTouch(s, l))
  {
    var s' := DoTouch(s, l);
    forall k | k in s'.leaves ensures LeafOk(s', k, s'.leaves[k]) {
      assert LeafOk(s, k, s.leaves[k]);
    }
    forall k | k in s'.io ensures IoOk(s', k, s'.io[k]) {
      assert IoOk(s, k, s.io[k]);
    }
    forall i | i in s'.ops ensures OpOk(s', s'.ops[i]) {
      assert OpOk(s, s.ops[i]);
    }
  }

  lemma CountProtect(s: State, l: Loc, flags: Flags)
    requires Counted(s) && SlotsCounted(s) && CanProtect(s, l, flags)
    ensures Counted(DoProtect(s, l, flags)) && SlotsCounted(DoProtect(s, l, flags))
  {
    hide Counted, SlotsCounted;
    var s' := DoProtect(s, l, flags);
    CountedSame(s, s');
    SlotsCountedSame(s, s');
  }

  lemma KeepProtect(s: State, l: Loc, flags: Flags)
    requires Inv(s) && CanProtect(s, l, flags)
    ensures Coherent(DoProtect(s, l, flags))
  {
    var s' := DoProtect(s, l, flags);
    assert HoldsFrame(s, ByLeaf(l), s.leaves[l].frame);
    assert |FrameHolders(s, s.leaves[l].frame)| > 0;
    forall k | k in s'.leaves ensures LeafOk(s', k, s'.leaves[k]) {
      assert LeafOk(s, k, s.leaves[k]);
    }
    forall k | k in s'.io ensures IoOk(s', k, s'.io[k]) {
      assert IoOk(s, k, s.io[k]);
    }
    forall i | i in s'.ops ensures OpOk(s', s'.ops[i]) {
      assert OpOk(s, s.ops[i]);
    }
  }

  /** A frame written through a leaf is held by no operation in flight and by no other private leaf. */
  lemma WrittenFrame(s: State, l: Loc, h: Holder)
    requires Inv(s) && Mapped(s, l) && s.leaves[l].flags.writable
    requires HoldsFrame(s, h, s.leaves[l].frame) && h != ByLeaf(l)
    ensures s.leaves[l].frame in s.shared
  {
    if s.leaves[l].frame !in s.shared {
      SoleHolder(s, s.leaves[l].frame, h, ByLeaf(l));
    }
  }

  lemma CountWrite(s: State, l: Loc, offset: nat, byte: int)
    requires Counted(s) && SlotsCounted(s) && CanWrite(s, l, offset, byte)
    ensures Counted(DoWrite(s, l, offset, byte)) && SlotsCounted(DoWrite(s, l, offset, byte))
  {
    hide Counted, SlotsCounted;
    var s' := DoWrite(s, l, offset, byte);
    CountedSame(s, s');
    SlotsCountedSame(s, s');
  }

  lemma KeepWrite(s: State, l: Loc, offset: nat, byte: int)
    requires Inv(s) && CanWrite(s, l, offset, byte)
    ensures Coherent(DoWrite(s, l, offset, byte))
  {
    var s' := DoWrite(s, l, offset, byte);
    forall k | k in s'.leaves ensures LeafOk(s', k, s'.leaves[k]) {
      assert LeafOk(s, k, s.leaves[k]);
    }
    forall k | k in s'.io ensures IoOk(s', k, s'.io[k]) {
      assert IoOk(s, k, s.io[k]);
      if HoldsFrame(s, ByIo(k), s.leaves[l].frame) { WrittenFrame(s, l, ByIo(k)); }
    }
    forall i | i in s'.ops ensures OpOk(s', s'.ops[i]) {
      assert OpOk(s, s.ops[i]);
      if HoldsFrame(s, ByOp(i, false), s.leaves[l].frame) { WrittenFrame(s, l, ByOp(i, false)); }
      if HoldsFrame(s, ByOp(i, true), s.leaves[l].frame) { WrittenFrame(s, l, ByOp(i, true)); }
    }
  }

  lemma CountMapNew(s: State, l: Loc, frame: Frame, flags: Flags)
    requires Counted(s) && SlotsCounted(s) && CanMapNew(s, l, frame, flags)
    ensures Counted(DoMapNew(s, l, frame, flags)) && SlotsCounted(DoMapNew(s, l, frame, flags))
  {
    hide Counted, SlotsCounted;
    var s' := DoMapNew(s, l, frame, flags);
    forall h ensures !HoldsFrame(s, h, frame) { FreeHasNoHolder(s, frame, h); }
    CountedMore(s, s', frame, ByLeaf(l));
    SlotsCountedSame(s, s');
  }

  lemma KeepMapNew(s: State, l: Loc, frame: Frame, flags: Flags)
    requires Inv(s) && CanMapNew(s, l, frame, flags)
    ensures Coherent(DoMapNew(s, l, frame, flags))
  {
    hide Counted, SlotsCounted, IoOk, OpOk;
    var s' := DoMapNew(s, l, frame, flags);
    forall k | k in s'.leaves ensures LeafOk(s', k, s'.leaves[k]) {
      assert k == l || LeafOk(s, k, s.leaves[k]);
      FreeHasNoHolder(s, frame, ByLeaf(k));
    }
    forall k | k in s'.io ensures IoOk(s', k, s'.io[k]) { MapNewIo(s, l, frame, flags, k); }
    forall i | i in s'.ops ensures OpOk(s', s'.ops[i]) { MapNewOp(s, l, frame, flags, i); }
  }

  lemma MapNewIo(s: State, l: Loc, frame: Frame, flags: Flags, k: Loc)
    requires Inv(s) && CanMapNew(s, l, frame, flags) && k in s.io
    ensures IoOk(DoMapNew(s, l, frame, flags), k, s.io[k])
  {
    hide Counted, SlotsCounted;
    assert IoOk(s, k, s.io[k]);
    FreeHasNoHolder(s, frame, ByIo(k));
  }

  lemma MapNewOp(s: State, l: Loc, frame: Frame, flags: Flags, i: OpId)
    requires Inv(s) && CanMapNew(s, l, frame, flags) && i in s.ops
    ensures OpOk(DoMapNew(s, l, frame, flags), s.ops[i])
  {
    hide Counted, SlotsCounted;
    assert OpOk(s, s.ops[i]);
    FreeHasNoHolder(s, frame, ByOp(i, false));
    FreeHasNoHolder(s, frame, ByOp(i, true));
  }

  lemma CountUnmap(s: State, l: Loc, id: OpId)
    requires Counted(s) && SlotsCounted(s) && CanUnmap(s, l, id)
    ensures Counted(DoUnmap(s, l, id)) && SlotsCounted(DoUnmap(s, l, id))
  {
    hide Counted, SlotsCounted;
    var s' := DoUnmap(s, l, id);
    match s.leaves[l] {
      case Present(f, _, _) =>
        CountedMove(s, s', f, ByLeaf(l), ByOp(id, false));
        SlotsCountedSame(s, s');
      case Swapped(n, _, _) =>
        CountedSame(s, s');
        SlotsCountedMove(s, s', n, ByLeaf(l), ByOp(id, false));
    }
  }

  lemma KeepUnmap(s: State, l: Loc, id: OpId)
    requires Coherent(s) && CanUnmap(s, l, id)
    ensures Coherent(DoUnmap(s, l, id))
  {
    var s' := DoUnmap(s, l, id);
    forall k | k in s'.leaves ensures LeafOk(s', k, s'.leaves[k]) {
      assert LeafOk(s, k, s.leaves[k]);
    }
    forall k | k in s'.io ensures IoOk(s', k, s'.io[k]) {
      assert IoOk(s, k, s.io[k]);
    }
    forall i | i in s'.ops ensures OpOk(s', s'.ops[i]) {
      assert i == id || OpOk(s, s.ops[i]);
    }
  }

  // ---- Write faults ----

  lemma CountFaultFast(s: State, l: Loc)
    requires Counted(s) && SlotsCounted(s) && CanFaultFast(s, l)
    ensures Counted(DoFaultFast(s, l)) && SlotsCounted(DoFaultFast(s, l))
  {
    hide Counted, SlotsCounted;
    var s' := DoFaultFast(s, l);
    CountedSame(s, s');
    SlotsCountedSame(s, s');
  }

  lemma KeepFaultFast(s: State, l: Loc)
    requires Inv(s) && CanFaultFast(s, l)
    ensures Coherent(DoFaultFast(s, l))
  {
    var s' := DoFaultFast(s, l);
    forall k | k in s'.leaves ensures LeafOk(s', k, s'.leaves[k]) {
      assert LeafOk(s, k, s.leaves[k]);
    }
    forall k | k in s'.io ensures IoOk(s', k, s'.io[k]) {
      assert IoOk(s, k, s.io[k]);
    }
    forall i | i in s'.ops ensures OpOk(s', s'.ops[i]) {
      assert OpOk(s, s.ops[i]);
    }
  }

  lemma CountFaultPin(s: State, l: Loc, id: OpId)
    requires Counted(s) && SlotsCounted(s) && CanFaultPin(s, l, id)
    ensures Counted(DoFaultPin(s, l, id)) && SlotsCounted(DoFaultPin(s, l, id))
  {
    hide Counted, SlotsCounted;
    var s' := DoFaultPin(s, l, id);
    CountedMore(s, s', s.leaves[l].frame, ByOp(id, true));
    SlotsCountedSame(s, s');
  }

  lemma KeepFaultPin(s: State, l: Loc, id: OpId)
    requires Inv(s) && CanFaultPin(s, l, id)
    ensures Coherent(DoFaultPin(s, l, id))
  {
    var s' := DoFaultPin(s, l, id);
    forall k | k in s'.leaves ensures LeafOk(s', k, s'.leaves[k]) {
      assert LeafOk(s, k, s.leaves[k]);
    }
    forall k | k in s'.io ensures IoOk(s', k, s'.io[k]) {
      assert IoOk(s, k, s.io[k]);
    }
    forall i | i in s'.ops ensures OpOk(s', s'.ops[i]) {
      assert i == id || OpOk(s, s.ops[i]);
    }
  }

  lemma CountFaultCopy(s: State, id: OpId, frame: Frame)
    requires Counted(s) && SlotsCounted(s) && CanFaultCopy(s, id, frame)
    ensures Counted(DoFaultCopy(s, id, frame)) && SlotsCounted(DoFaultCopy(s, id, frame))
  {
    hide Counted, SlotsCounted;
    var s' := DoFaultCopy(s, id, frame);
    forall h ensures !HoldsFrame(s, h, frame) { FreeHasNoHolder(s, frame, h); }
    CountedMore(s, s', frame, ByOp(id, false));
    SlotsCountedSame(s, s');
  }

  lemma KeepFaultCopy(s: State, id: OpId, frame: Frame)
    requires Inv(s) && CanFaultCopy(s, id, frame)
    ensures Coherent(DoFaultCopy(s, id, frame))
  {
    var s' := DoFaultCopy(s, id, frame);
    forall h ensures !HoldsFrame(s, h, frame) { FreeHasNoHolder(s, frame, h); }
    assert OpOk(s, s.ops[id]) && HoldsFrame(s, ByOp(id, true), s.ops[id].source);
    forall k | k in s'.leaves ensures LeafOk(s', k, s'.leaves[k]) {
      assert LeafOk(s, k, s.leaves[k]);
      assert !HoldsFrame(s, ByLeaf(k), frame);
    }
    forall k | k in s'.io ensures IoOk(s', k, s'.io[k]) {
      assert IoOk(s, k, s.io[k]);
      assert !HoldsFrame(s, ByIo(k), frame);
    }
    forall i | i in s'.ops ensures OpOk(s', s'.ops[i]) {
      assert OpOk(s, s.ops[i]);
      assert !HoldsFrame(s, ByOp(i, false), frame) && !HoldsFrame(s, ByOp(i, true), frame);
    }
  }

  lemma CountFaultNoMemory(s: State, id: OpId)
    requires Counted(s) && SlotsCounted(s) && CanFaultNoMemory(s, id)
    ensures Counted(DoFaultNoMemory(s, id)) && SlotsCounted(DoFaultNoMemory(s, id))
  {
    hide Counted, SlotsCounted;
    var s' := DoFaultNoMemory(s, id);
    CountedSame(s, s');
    SlotsCountedSame(s, s');
  }

  lemma KeepFaultNoMemory(s: State, id: OpId)
    requires Coherent(s) && CanFaultNoMemory(s, id)
    ensures Coherent(DoFaultNoMemory(s, id))
  {
    var s' := DoFaultNoMemory(s, id);
    forall k | k in s'.leaves ensures LeafOk(s', k, s'.leaves[k]) {
      assert LeafOk(s, k, s.leaves[k]);
    }
    forall k | k in s'.io ensures IoOk(s', k, s'.io[k]) {
      assert IoOk(s, k, s.io[k]);
    }
    forall i | i in s'.ops ensures OpOk(s', s'.ops[i]) {
      assert i == id || OpOk(s, s.ops[i]);
    }
  }

  /** A copy in progress is held by its fault alone, so it is not the frame being copied. */
  lemma CopyIsFresh(s: State, id: OpId)
    requires Inv(s) && CanFaultCommit(s, id)
    ensures s.ops[id].copy != s.ops[id].source
    ensures forall h :: HoldsFrame(s, h, s.ops[id].copy) ==> h == ByOp(id, false)
  {
    assert OpOk(s, s.ops[id]);
    assert HoldsFrame(s, ByOp(id, false), s.ops[id].copy) && HoldsFrame(s, ByOp(id, true), s.ops[id].source);
    forall h | HoldsFrame(s, h, s.ops[id].copy) ensures h == ByOp(id, false) {
      SoleHolder(s, s.ops[id].copy, h, ByOp(id, false));
    }
  }

  lemma CountFaultCommit(s: State, id: OpId)
    requires Counted(s) && SlotsCounted(s) && CanFaultCommit(s, id)
    requires s.ops[id].copy != s.ops[id].source && OpOk(s, s.ops[id])
    ensures Counted(DoFaultCommit(s, id)) && SlotsCounted(DoFaultCommit(s, id))
  {
    hide Counted, SlotsCounted;
    var s', op := DoFaultCommit(s, id), s.ops[id];
    SlotsCountedSame(s, s');
    if op.l in s.leaves && s.leaves[op.l] == op.leaf {
      CountSwapped(s, s', op.source, op.copy, ByLeaf(op.l), ByOp(id, false));
    } else {
      CountedSame(s, s');
    }
  }

  /** Holders g and h exchange the frames they hold. */
  lemma CountSwapped(s: State, s': State, a: Frame, b: Frame, g: Holder, h: Holder)
    requires Counted(s) && s'.refs == s.refs && s'.mem.Keys == s.mem.Keys && a != b && g != h
    requires forall f :: (HoldsFrame(s, g, f) <==> f == a) && (HoldsFrame(s, h, f) <==> f == b)
    requires forall f :: (HoldsFrame(s', g, f) <==> f == b) && (HoldsFrame(s', h, f) <==> f == a)
    requires forall k, f :: k != g && k != h ==> (HoldsFrame(s', k, f) <==> HoldsFrame(s, k, f))
    ensures Counted(s')
  {
    assert HoldsFrame(s, g, a) && HoldsFrame(s, h, b);
    forall f | f in s'.refs ensures s'.refs[f] == |FrameHolders(s', f)| {
      if f == a {
        MovedHolder(s, s', f, g, h);
      } else if f == b {
        MovedHolder(s, s', f, h, g);
      } else {
        SameHolders(s, s', f);
      }
    }
  }

  lemma KeepFaultCommit(s: State, id: OpId)
    requires Inv(s) && CanFaultCommit(s, id)
    ensures Coherent(DoFaultCommit(s, id))
  {
    hide Inv;
    var s' := DoFaultCommit(s, id);
    CopyIsFresh(s, id);
    OpFact(s, id);
    forall k | k in s'.leaves ensures LeafOk(s', k, s'.leaves[k]) { LeafFact(s, k); }
    forall k | k in s'.io ensures IoOk(s', k, s'.io[k]) { IoFact(s, k); }
    forall i | i in s'.ops ensures OpOk(s', s'.ops[i]) {
      if i != id { OpFact(s, i); }
    }
  }

  // ---- Swap-out ----

  lemma CountOutReserve(s: State, id: OpId, slot: Slot)
    requires Counted(s) && SlotsCounted(s) && CanOutReserve(s, id, slot)
    ensures Counted(DoOutReserve(s, id, slot)) && SlotsCounted(DoOutReserve(s, id, slot))
  {
    hide Counted, SlotsCounted;
    var s' := DoOutReserve(s, id, slot);
    forall h ensures !HoldsSlot(s, h, slot) { FreeSlotHasNoHolder(s, slot, h); }
    CountedSame(s, s');
    SlotsCountedMore(s, s', slot, ByOp(id, false));
  }

  lemma KeepOutReserve(s: State, id: OpId, slot: Slot)
    requires Inv(s) && CanOutReserve(s, id, slot)
    ensures Coherent(DoOutReserve(s, id, slot))
  {
    var s' := DoOutReserve(s, id, slot);
    forall h ensures !HoldsSlot(s, h, slot) { FreeSlotHasNoHolder(s, slot, h); }
    forall k | k in s'.leaves ensures LeafOk(s', k, s'.leaves[k]) {
      assert LeafOk(s, k, s.leaves[k]);
    }
    forall k | k in s'.io ensures IoOk(s', k, s'.io[k]) {
      assert IoOk(s, k, s.io[k]);
      assert !HoldsSlot(s, ByLeaf(k), slot);
    }
    forall i | i in s'.ops ensures OpOk(s', s'.ops[i]) {
      assert i == id || OpOk(s, s.ops[i]);
      assert !HoldsSlot(s, ByOp(i, false), slot);
    }
  }

  lemma CountOutBegin(s: State, id: OpId, l: Loc, force: bool)
    requires Counted(s) && SlotsCounted(s) && CanOutBegin(s, id, l, force)
    requires l !in s.io
    ensures Counted(DoOutBegin(s, id, l, force)) && SlotsCounted(DoOutBegin(s, id, l, force))
  {
    hide Counted, SlotsCounted;
    var s' := DoOutBegin(s, id, l, force);
    CountedMove(s, s', s.leaves[l].frame, ByLeaf(l), ByIo(l));
    SlotsCountedMove(s, s', s.ops[id].slot, ByOp(id, false), ByLeaf(l));
  }

  lemma KeepOutBegin(s: State, id: OpId, l: Loc, force: bool)
    requires Inv(s) && CanOutBegin(s, id, l, force)
    ensures Coherent(DoOutBegin(s, id, l, force))
  {
    var s' := DoOutBegin(s, id, l, force);
    assert OpOk(s, s.ops[id]) && LeafOk(s, l, s.leaves[l]);
    assert HoldsFrame(s, ByLeaf(l), s.leaves[l].frame);
    forall k | k in s'.leaves ensures LeafOk(s', k, s'.leaves[k]) {
      assert LeafOk(s, k, s.leaves[k]);
    }
    forall k | k in s'.io ensures IoOk(s', k, s'.io[k]) {
      assert k == l || IoOk(s, k, s.io[k]);
    }
    forall i | i in s'.ops ensures OpOk(s', s'.ops[i]) {
      assert OpOk(s, s.ops[i]);
    }
  }

  lemma CountOutAbort(s: State, id: OpId, l: Loc, secondChance: bool)
    requires Counted(s) && SlotsCounted(s) && CanOutAbort(s, id, l, secondChance)
    ensures Counted(DoOutAbort(s, id, l, secondChance)) && SlotsCounted(DoOutAbort(s, id, l, secondChance))
  {
    hide Counted, SlotsCounted;
    var s' := DoOutAbort(s, id, l, secondChance);
    CountedSame(s, s');
    SlotsCountedSame(s, s');
  }

  lemma KeepOutAbort(s: State, id: OpId, l: Loc, secondChance: bool)
    requires Coherent(s) && CanOutAbort(s, id, l, secondChance)
    ensures Coherent(DoOutAbort(s, id, l, secondChance))
  {
    var s' := DoOutAbort(s, id, l, secondChance);
    forall k | k in s'.leaves ensures LeafOk(s', k, s'.leaves[k]) {
      assert LeafOk(s, k, s.leaves[k]);
    }
    forall k | k in s'.io ensures IoOk(s', k, s'.io[k]) {
      assert IoOk(s, k, s.io[k]);
    }
    forall i | i in s'.ops ensures OpOk(s', s'.ops[i]) {
      assert i == id || OpOk(s, s.ops[i]);
    }
  }

  lemma CountOutTransfer(s: State, l: Loc, ok: bool, garbage: Bytes)
    requires Counted(s) && SlotsCounted(s) && CanOutTransfer(s, l, ok, garbage)
    requires s.io[l].slot in s.disk
    ensures Counted(DoOutTransfer(s, l, ok, garbage)) && SlotsCounted(DoOutTransfer(s, l, ok, garbage))
  {
    hide Counted, SlotsCounted;
    var s' := DoOutTransfer(s, l, ok, garbage);
    CountedSame(s, s');
    SlotsCountedSame(s, s');
  }

  lemma KeepOutTransfer(s: State, l: Loc, ok: bool, garbage: Bytes)
    requires Inv(s) && CanOutTransfer(s, l, ok, garbage)
    ensures Coherent(DoOutTransfer(s, l, ok, garbage))
  {
    var s' := DoOutTransfer(s, l, ok, garbage);
    var slot := s.io[l].slot;
    assert IoOk(s, l, s.io[l]) && HoldsSlot(s, ByLeaf(l), slot);
    forall k | k in s'.leaves ensures LeafOk(s', k, s'.leaves[k]) {
      assert LeafOk(s, k, s.leaves[k]);
    }
    forall k | k in s'.io ensures IoOk(s', k, s'.io[k]) {
      assert IoOk(s, k, s.io[k]);
      if HoldsSlot(s, ByLeaf(k), slot) { SoleSlotHolder(s, slot, ByLeaf(k), ByLeaf(l)); }
    }
    forall i | i in s'.ops ensures OpOk(s', s'.ops[i]) {
      assert OpOk(s, s.ops[i]);
    }
  }

  lemma CountOutFinish(s: State, l: Loc, id: OpId)
    requires Counted(s) && CanOutFinish(s, l, id) && IoOk(s, l, s.io[l])
    ensures Counted(DoOutFinish(s, l, id))
  {
    hide Counted, SlotsCounted;
    var s', io := DoOutFinish(s, l, id), s.io[l];
    CountedMove(s, s', io.value.frame, ByIo(l), if io.status == Done then ByOp(id, false) else ByLeaf(l));
  }

  lemma CountOutFinishSlots(s: State, l: Loc, id: OpId)
    requires SlotsCounted(s) && CanOutFinish(s, l, id) && IoOk(s, l, s.io[l])
    ensures SlotsCounted(DoOutFinish(s, l, id))
  {
    hide Counted, SlotsCounted;
    var s', io := DoOutFinish(s, l, id), s.io[l];
    if io.status == Done {
      SlotsCountedSame(s, s');
    } else {
      SlotsCountedMove(s, s', io.slot, ByLeaf(l), ByOp(id, false));
    }
  }

  lemma KeepOutFinish(s: State, l: Loc, id: OpId)
    requires Inv(s) && CanOutFinish(s, l, id)
    ensures Coherent(DoOutFinish(s, l, id))
  {
    var s' := DoOutFinish(s, l, id);
    assert IoOk(s, l, s.io[l]);
    forall k | k in s'.leaves ensures LeafOk(s', k, s'.leaves[k]) {
      assert LeafOk(s, k, s.leaves[k]);
    }
    forall k | k in s'.io ensures IoOk(s', k, s'.io[k]) {
      assert IoOk(s, k, s.io[k]);
    }
    forall i | i in s'.ops ensures OpOk(s', s'.ops[i]) {
      assert i == id || OpOk(s, s.ops[i]);
    }
  }

  // ---- Swap-in ----

  lemma CountInBegin(s: State, l: Loc)
    requires Counted(s) && SlotsCounted(s) && CanInBegin(s, l)
    requires l !in s.io
    ensures Counted(DoInBegin(s, l)) && SlotsCounted(DoInBegin(s, l))
  {
    hide Counted, SlotsCounted;
    var s' := DoInBegin(s, l);
    CountedSame(s, s');
    SlotsCountedSame(s, s');
  }

  lemma KeepInBegin(s: State, l: Loc)
    requires Inv(s) && CanInBegin(s, l)
    ensures Coherent(DoInBegin(s, l))
  {
    var s' := DoInBegin(s, l);
    assert LeafOk(s, l, s.leaves[l]) && HoldsSlot(s, ByLeaf(l), s.leaves[l].slot);
    forall k | k in s'.leaves ensures LeafOk(s', k, s'.leaves[k]) {
      assert LeafOk(s, k, s.leaves[k]);
    }
    forall k | k in s'.io ensures IoOk(s', k, s'.io[k]) {
      assert k == l || IoOk(s, k, s.io[k]);
    }
    forall i | i in s'.ops ensures OpOk(s', s'.ops[i]) {
      assert OpOk(s, s.ops[i]);
    }
  }

  lemma CountInTransfer(s: State, l: Loc, frame: Frame, ok: bool, garbage: Bytes)
    requires Counted(s) && SlotsCounted(s) && CanInTransfer(s, l, frame, ok, garbage)
    ensures Counted(DoInTransfer(s, l, frame, ok, garbage)) && SlotsCounted(DoInTransfer(s, l, frame, ok, garbage))
  {
    hide Counted, SlotsCounted;
    var s' := DoInTransfer(s, l, frame, ok, garbage);
    forall h ensures !HoldsFrame(s, h, frame) { FreeHasNoHolder(s, frame, h); }
    CountedMore(s, s', frame, ByIo(l));
    SlotsCountedSame(s, s');
  }

  lemma KeepInTransfer(s: State, l: Loc, frame: Frame, ok: bool, garbage: Bytes)
    requires Inv(s) && CanInTransfer(s, l, frame, ok, garbage)
    ensures Coherent(DoInTransfer(s, l, frame, ok, garbage))
  {
    var s' := DoInTransfer(s, l, frame, ok, garbage);
    forall h ensures !HoldsFrame(s, h, frame) { FreeHasNoHolder(s, frame, h); }
    forall k | k in s'.leaves ensures LeafOk(s', k, s'.leaves[k]) {
      assert LeafOk(s, k, s.leaves[k]);
      assert !HoldsFrame(s, ByLeaf(k), frame);
    }
    forall k | k in s'.io ensures IoOk(s', k, s'.io[k]) {
      assert IoOk(s, k, s.io[k]);
      assert !HoldsFrame(s, ByIo(k), frame);
    }
    forall i | i in s'.ops ensures OpOk(s', s'.ops[i]) {
      assert OpOk(s, s.ops[i]);
      assert !HoldsFrame(s, ByOp(i, false), frame) && !HoldsFrame(s, ByOp(i, true), frame);
    }
  }

  lemma CountInNoMemory(s: State, l: Loc)
    requires Counted(s) && SlotsCounted(s) && CanInNoMemory(s, l)
    ensures Counted(DoInNoMemory(s, l)) && SlotsCounted(DoInNoMemory(s, l))
  {
    hide Counted, SlotsCounted;
    var s' := DoInNoMemory(s, l);
    CountedSame(s, s');
    SlotsCountedSame(s, s');
  }

  lemma KeepInNoMemory(s: State, l: Loc)
    requires Coherent(s) && CanInNoMemory(s, l)
    ensures Coherent(DoInNoMemory(s, l))
  {
    var s' := DoInNoMemory(s, l);
    forall k | k in s'.leaves ensures LeafOk(s', k, s'.leaves[k]) {
      assert LeafOk(s, k, s.leaves[k]);
    }
    forall k | k in s'.io ensures IoOk(s', k, s'.io[k]) {
      assert IoOk(s, k, s.io[k]);
    }
    forall i | i in s'.ops ensures OpOk(s', s'.ops[i]) {
      assert OpOk(s, s.ops[i]);
    }
  }

  lemma CountInFinish(s: State, l: Loc, id: OpId)
    requires Counted(s) && CanInFinish(s, l, id) && IoOk(s, l, s.io[l])
    ensures Counted(DoInFinish(s, l, id))
  {
    hide Counted, SlotsCounted;
    var s', io := DoInFinish(s, l, id), s.io[l];
    if io.frame.Some? {
      CountedMove(s, s', io.frame.value, ByIo(l), if io.status == Done then ByLeaf(l) else ByOp(id, false));
    } else {
      CountedSame(s, s');
    }
  }

  lemma CountInFinishSlots(s: State, l: Loc, id: OpId)
    requires SlotsCounted(s) && CanInFinish(s, l, id) && IoOk(s, l, s.io[l])
    ensures SlotsCounted(DoInFinish(s, l, id))
  {
    hide Counted, SlotsCounted;
    var s', io := DoInFinish(s, l, id), s.io[l];
    if io.status == Done {
      SlotsCountedMove(s, s', io.entry.slot, ByLeaf(l), ByOp(id, false));
    } else {
      SlotsCountedSame(s, s');
    }
  }

  lemma KeepInFinish(s: State, l: Loc, id: OpId)
    requires Inv(s) && CanInFinish(s, l, id)
    ensures Coherent(DoInFinish(s, l, id))
  {
    var s' := DoInFinish(s, l, id);
    assert IoOk(s, l, s.io[l]);
    forall k | k in s'.leaves ensures LeafOk(s', k, s'.leaves[k]) {
      assert LeafOk(s, k, s.leaves[k]);
    }
    forall k | k in s'.io ensures IoOk(s', k, s'.io[k]) {
      assert IoOk(s, k, s.io[k]);
    }
    forall i | i in s'.ops ensures OpOk(s', s'.ops[i]) {
      assert i == id || OpOk(s, s.ops[i]);
    }
  }

  // ---- Dropping references ----

  /** Another holder of a frame that is being released is not its only holder. */
  lemma ReleasedFrame(s: State, f: Frame, g: Holder, h: Holder)
    requires Inv(s) && HoldsFrame(s, g, f) && HoldsFrame(s, h, f) && g != h
    ensures !Sole(s, f)
  {
    if Sole(s, f) { SoleHolder(s, f, g, h); }
  }

  lemma CountDropFirst(s: State, id: OpId)
    requires Counted(s) && SlotsCounted(s) && CanDropFirst(s, id)
    ensures Counted(DoDropFirst(s, id)) && SlotsCounted(DoDropFirst(s, id))
  {
    hide Counted, SlotsCounted;
    var s' := DoDropFirst(s, id);
    CountedLess(s, s', s.ops[id].first.value, ByOp(id, false));
    SlotsCountedSame(s, s');
  }

  lemma KeepDropFirst(s: State, id: OpId)
    requires Inv(s) && CanDropFirst(s, id)
    ensures Coherent(DoDropFirst(s, id))
  {
    var s' := DoDropFirst(s, id);
    var f, g := s.ops[id].first.value, ByOp(id, false);
    assert HoldsFrame(s, g, f);
    forall k | k in s'.leaves ensures LeafOk(s', k, s'.leaves[k]) {
      assert LeafOk(s, k, s.leaves[k]);
      if HoldsFrame(s, ByLeaf(k), f) { ReleasedFrame(s, f, g, ByLeaf(k)); }
    }
    forall k | k in s'.io ensures IoOk(s', k, s'.io[k]) {
      assert IoOk(s, k, s.io[k]);
      if HoldsFrame(s, ByIo(k), f) { ReleasedFrame(s, f, g, ByIo(k)); }
    }
    forall i | i in s'.ops ensures OpOk(s', s'.ops[i]) {
      assert OpOk(s, s.ops[i]);
      if i != id && HoldsFrame(s, ByOp(i, false), f) { ReleasedFrame(s, f, g, ByOp(i, false)); }
    }
  }

  lemma CountDropSecond(s: State, id: OpId)
    requires Counted(s) && SlotsCounted(s) && CanDropSecond(s, id)
    ensures Counted(DoDropSecond(s, id)) && SlotsCounted(DoDropSecond(s, id))
  {
    hide Counted, SlotsCounted;
    var s' := DoDropSecond(s, id);
    CountedLess(s, s', s.ops[id].second.value, ByOp(id, true));
    SlotsCountedSame(s, s');
  }

  lemma KeepDropSecond(s: State, id: OpId)
    requires Inv(s) && CanDropSecond(s, id)
    ensures Coherent(DoDropSecond(s, id))
  {
    var s' := DoDropSecond(s, id);
    var f, g := s.ops[id].second.value, ByOp(id, true);
    assert HoldsFrame(s, g, f);
    forall k | k in s'.leaves ensures LeafOk(s', k, s'.leaves[k]) {
      assert LeafOk(s, k, s.leaves[k]);
      if HoldsFrame(s, ByLeaf(k), f) { ReleasedFrame(s, f, g, ByLeaf(k)); }
    }
    forall k | k in s'.io ensures IoOk(s', k, s'.io[k]) {
      assert IoOk(s, k, s.io[k]);
      if HoldsFrame(s, ByIo(k), f) { ReleasedFrame(s, f, g, ByIo(k)); }
    }
    forall i | i in s'.ops ensures OpOk(s', s'.ops[i]) {
      assert OpOk(s, s.ops[i]);
      if i != id && HoldsFrame(s, ByOp(i, false), f) { ReleasedFrame(s, f, g, ByOp(i, false)); }
    }
  }

  lemma ReleasedSlot(s: State, n: Slot, g: Holder, h: Holder)
    requires Inv(s) && HoldsSlot(s, g, n) && HoldsSlot(s, h, n) && g != h
    ensures !SoleSlot(s, n)
  {
    if SoleSlot(s, n) { SoleSlotHolder(s, n, g, h); }
  }

  lemma CountDropSlot(s: State, id: OpId)
    requires Counted(s) && SlotsCounted(s) && CanDropSlot(s, id)
    ensures Counted(DoDropSlot(s, id)) && SlotsCounted(DoDropSlot(s, id))
  {
    hide Counted, SlotsCounted;
    var s' := DoDropSlot(s, id);
    CountedSame(s, s');
    SlotsCountedLess(s, s', s.ops[id].third.value, ByOp(id, false));
  }

  lemma KeepDropSlot(s: State, id: OpId)
    requires Inv(s) && CanDropSlot(s, id)
    ensures Coherent(DoDropSlot(s, id))
  {
    var s' := DoDropSlot(s, id);
    var n, g := s.ops[id].third.value, ByOp(id, false);
    assert HoldsSlot(s, g, n);
    forall k | k in s'.leaves ensures LeafOk(s', k, s'.leaves[k]) {
      assert LeafOk(s, k, s.leaves[k]);
    }
    forall k | k in s'.io ensures IoOk(s', k, s'.io[k]) {
      assert IoOk(s, k, s.io[k]);
      if HoldsSlot(s, ByLeaf(k), n) { ReleasedSlot(s, n, g, ByLeaf(k)); }
    }
    forall i | i in s'.ops ensures OpOk(s', s'.ops[i]) {
      assert OpOk(s, s.ops[i]);
      if i != id && HoldsSlot(s, ByOp(i, false), n) { ReleasedSlot(s, n, g, ByOp(i, false)); }
    }
  }

}
