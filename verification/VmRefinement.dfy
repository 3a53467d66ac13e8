/**
 What paging promises user processes: every process sees a private array of pages.
 Over every run of accesses, faults, forks, swap-outs, swap-ins and unmaps, the private
 pages behave as one plain array per process, fork copies it, and nothing another process
 or the swapper does changes a byte of it.
 */
module VmRefinement {
  import opened VmState
  import opened VmInvariant
  import opened VmSteps
  import opened VmFork

  // ---- The invariant over single transitions ----

  lemma KeepUser(s: State, a: UserAction)
    requires Inv(s) && UserEnabled(s, a)
    ensures Inv(UserNext(s, a))
  {
    match a {
      case Touch(l) => CountTouch(s, l); KeepTouch(s, l);
      case Read(_, _) =>
      case Write(l, offset, byte) => CountWrite(s, l, offset, byte); KeepWrite(s, l, offset, byte);
      case MapNew(l, frame, flags) => CountMapNew(s, l, frame, flags); KeepMapNew(s, l, frame, flags);
      case Protect(l, flags) => CountProtect(s, l, flags); KeepProtect(s, l, flags);
      case Unmap(l, id) => CountUnmap(s, l, id); KeepUnmap(s, l, id);
      case Fork(parent, child) => ForkKeepsInvariantIff(s, parent, child);
    }
  }

  lemma KeepFault(s: State, a: FaultAction)
    requires Inv(s) && FaultEnabled(s, a)
    ensures Inv(FaultNext(s, a))
  {
    match a {
      case FaultFast(l) => CountFaultFast(s, l); KeepFaultFast(s, l);
      case FaultPin(l, id) => CountFaultPin(s, l, id); KeepFaultPin(s, l, id);
      case FaultCopy(id, frame) => CountFaultCopy(s, id, frame); KeepFaultCopy(s, id, frame);
      case FaultNoMemory(id) => CountFaultNoMemory(s, id); KeepFaultNoMemory(s, id);
      case FaultCommit(id) =>
        CopyIsFresh(s, id);
        assert OpOk(s, s.ops[id]);
        CountFaultCommit(s, id);
        KeepFaultCommit(s, id);
    }
  }

  lemma KeepSwapOut(s: State, a: SwapOutAction)
    requires Inv(s) && SwapOutEnabled(s, a)
    ensures Inv(SwapOutNext(s, a))
  {
    match a {
      case OutReserve(id, slot) => CountOutReserve(s, id, slot); KeepOutReserve(s, id, slot);
      case OutBegin(id, l, force) =>
        PresentNotInIo(s, l);
        CountOutBegin(s, id, l, force);
        KeepOutBegin(s, id, l, force);
      case OutAbort(id, l, secondChance) => CountOutAbort(s, id, l, secondChance); KeepOutAbort(s, id, l, secondChance);
      case OutTransfer(l, ok, garbage) =>
        assert IoOk(s, l, s.io[l]);
        CountOutTransfer(s, l, ok, garbage);
        KeepOutTransfer(s, l, ok, garbage);
      case OutFinish(l, id) =>
        assert IoOk(s, l, s.io[l]);
        CountOutFinish(s, l, id);
        CountOutFinishSlots(s, l, id);
        KeepOutFinish(s, l, id);
    }
  }

  lemma PresentNotInIo(s: State, l: Loc)
    requires Inv(s) && l in s.leaves && (s.leaves[l].Swapped? ==> !s.leaves[l].busy)
    ensures l !in s.io
  {
    assert LeafOk(s, l, s.leaves[l]);
    assert l in s.io ==> IoOk(s, l, s.io[l]);
  }

  lemma KeepSwapIn(s: State, a: SwapInAction)
    requires Inv(s) && SwapInEnabled(s, a)
    ensures Inv(SwapInNext(s, a))
  {
    match a {
      case InBegin(l) =>
        PresentNotInIo(s, l);
        CountInBegin(s, l);
        KeepInBegin(s, l);
      case InTransfer(l, frame, ok, garbage) => CountInTransfer(s, l, frame, ok, garbage);
          KeepInTransfer(s, l, frame, ok, garbage);
      case InNoMemory(l) => CountInNoMemory(s, l); KeepInNoMemory(s, l);
      case InFinish(l, id) =>
        assert IoOk(s, l, s.io[l]);
        CountInFinish(s, l, id);
        CountInFinishSlots(s, l, id);
        KeepInFinish(s, l, id);
    }
  }

  lemma KeepDrop(s: State, a: DropAction)
    requires Inv(s) && DropEnabled(s, a)
    ensures Inv(DropNext(s, a))
  {
    match a {
      case DropFirst(id) => CountDropFirst(s, id); KeepDropFirst(s, id);
      case DropSecond(id) => CountDropSecond(s, id); KeepDropSecond(s, id);
      case DropSlot(id) => CountDropSlot(s, id); KeepDropSlot(s, id);
    }
  }

  /** Every transition keeps the counting invariant. */
  lemma StepKeepsInvariant(s: State, a: Action)
    requires Inv(s) && Enabled(s, a)
    ensures Inv(Next(s, a))
  {
    match a {
      case User(x) => KeepUser(s, x);
      case Fault(x) => KeepFault(s, x);
      case SwapOut(x) => KeepSwapOut(s, x);
      case SwapIn(x) => KeepSwapIn(s, x);
      case Drop(x) => KeepDrop(s, x);
    }
  }

  /** A release in flight always finds a positive count: frame_release_range and swap_slot_release cannot fail. */
  lemma ReleasesSucceed(s: State, id: OpId)
    requires Inv(s) && id in s.ops && s.ops[id].Releasing?
    ensures s.ops[id].first.Some? ==> DropEnabled(s, DropFirst(id))
    ensures s.ops[id].second.Some? ==> DropEnabled(s, DropSecond(id))
    ensures s.ops[id].third.Some? ==> DropEnabled(s, DropSlot(id))
  {
    var op := s.ops[id];
    if op.first.Some? {
      assert HoldsFrame(s, ByOp(id, false), op.first.value);
      assert ByOp(id, false) in FrameHolders(s, op.first.value);
    }
    if op.second.Some? {
      assert HoldsFrame(s, ByOp(id, true), op.second.value);
      assert ByOp(id, true) in FrameHolders(s, op.second.value);
    }
    if op.third.Some? {
      assert HoldsSlot(s, ByOp(id, false), op.third.value);
      assert ByOp(id, false) in SlotHolders(s, op.third.value);
    }
  }

  // ---- What a page holds ----

  datatype Place = InFrame(f: Frame) | InSlot(n: Slot)

  /** Where the contents of a mapped page are at the moment. */
  function PlaceOf(s: State, l: Loc): Place
    requires l in s.leaves
  {
    match s.leaves[l]
    case Present(f, _, _) => InFrame(f)
    case Swapped(n, _, _) =>
      if l in s.io && s.io[l].Out? && s.io[l].value.Present? then InFrame(s.io[l].value.frame) else InSlot(n)
  }

  function Fetch(s: State, place: Place): Bytes {
    match place
    case InFrame(f) => if f in s.mem then s.mem[f] else []
    case InSlot(n) => if n in s.disk then s.disk[n] else []
  }

  function View(s: State, l: Loc): Bytes
    requires l in s.leaves
  {
    Fetch(s, PlaceOf(s, l))
  }

  type Pages = map<Loc, Bytes>

  /** The private pages of all processes. */
  function PrivatePages(s: State): Pages {
    map l | l in s.leaves && Private(s.leaves[l]) :: View(s, l)
  }

  // ---- The specification: one array of pages per process ----

  function ForkedPages(p: Pages, parent: nat, child: nat): Pages {
    p + map l | l in (set k | k in p && k.space == parent :: Loc(child, k.page)) :: p[Loc(parent, l.page)]
  }

  function Spec(p: Pages, a: Action): Pages {
    match a
    case User(Write(l, offset, byte)) =>
      if l in p && offset < |p[l]| then p[l := p[l][offset := byte]] else p
    case User(MapNew(l, _, flags)) => if flags.shared then p else p[l := ZeroPage()]
    case User(Unmap(l, _)) => p - {l}
    case User(Fork(parent, child)) => ForkedPages(p, parent, child)
    case _ => p
  }

  // ---- Transitions that move pages without changing them ----

  /** The same pages with the same contents. */
  ghost predicate SamePages(s: State, s': State) {
    && s'.leaves.Keys == s.leaves.Keys
    && forall l :: l in s.leaves ==> Private(s'.leaves[l]) == Private(s.leaves[l]) && View(s', l) == View(s, l)
  }

  lemma SamePagesSameMap(s: State, s': State)
    requires SamePages(s, s')
    ensures PrivatePages(s') == PrivatePages(s)
  {
  }

  /** A free frame holds no page. */
  lemma FreeFrameHoldsNoPage(s: State, f: Frame, l: Loc)
    requires Inv(s) && FreeFrame(s, f) && l in s.leaves
    ensures PlaceOf(s, l) != InFrame(f)
  {
    FreeHasNoHolder(s, f, ByLeaf(l));
    FreeHasNoHolder(s, f, ByIo(l));
  }

  /** Filling a free frame changes no page. */
  lemma FillKeepsPages(s: State, s': State, f: Frame)
    requires Inv(s) && FreeFrame(s, f)
    requires s'.leaves == s.leaves && s'.disk == s.disk && f in s'.mem && s'.mem == s.mem[f := s'.mem[f]]
    requires forall l :: l in s.leaves ==> PlaceOf(s', l) == PlaceOf(s, l)
    ensures SamePages(s, s')
  {
    forall l | l in s.leaves ensures View(s', l) == View(s, l) { FreeFrameHoldsNoPage(s, f, l); }
  }

  /** The faulting page moves to its copy, which holds the same bytes. */
  lemma CommitKeepsPages(s: State, id: OpId)
    requires CanFaultCommit(s, id) && OpOk(s, s.ops[id])
    ensures SamePages(s, DoFaultCommit(s, id))
  {
    var s' := DoFaultCommit(s, id);
    forall l | l in s.leaves ensures View(s', l) == View(s, l) && Private(s'.leaves[l]) == Private(s.leaves[l]) {}
  }

  /** Writing a slot changes no page: the slot is named by the page being swapped out alone. */
  lemma OutTransferKeepsPages(s: State, l: Loc, ok: bool, garbage: Bytes)
    requires Inv(s) && CanOutTransfer(s, l, ok, garbage)
    ensures SamePages(s, DoOutTransfer(s, l, ok, garbage))
  {
    hide Counted, SlotsCounted, Coherent;
    var s' := DoOutTransfer(s, l, ok, garbage);
    IoFact(s, l);
    assert HoldsSlot(s, ByLeaf(l), s.io[l].slot);
    forall k | k in s.leaves ensures View(s', k) == View(s, k) {
      if HoldsSlot(s, ByLeaf(k), s.io[l].slot) { SoleSlotHolder(s, s.io[l].slot, ByLeaf(k), ByLeaf(l)); }
    }
  }

  lemma OutFinishKeepsPages(s: State, l: Loc, id: OpId)
    requires CanOutFinish(s, l, id) && IoOk(s, l, s.io[l])
    ensures SamePages(s, DoOutFinish(s, l, id))
  {
    var s' := DoOutFinish(s, l, id);
    forall k | k in s.leaves ensures View(s', k) == View(s, k) && Private(s'.leaves[k]) == Private(s.leaves[k]) {}
  }

  lemma OutBeginKeepsPages(s: State, id: OpId, l: Loc, force: bool)
    requires CanOutBegin(s, id, l, force)
    ensures SamePages(s, DoOutBegin(s, id, l, force))
  {
    var s' := DoOutBegin(s, id, l, force);
    forall k | k in s.leaves ensures View(s', k) == View(s, k) && Private(s'.leaves[k]) == Private(s.leaves[k]) {}
  }

  lemma DropKeepsPages(s: State, a: DropAction)
    requires DropEnabled(s, a)
    ensures SamePages(s, DropNext(s, a))
  {
  }

  lemma InBeginKeepsPages(s: State, l: Loc)
    requires CanInBegin(s, l) && l !in s.io
    ensures SamePages(s, DoInBegin(s, l))
  {
    var s' := DoInBegin(s, l);
    forall k | k in s.leaves ensures View(s', k) == View(s, k) && Private(s'.leaves[k]) == Private(s.leaves[k]) {}
  }

  lemma InFinishKeepsPages(s: State, l: Loc, id: OpId)
    requires CanInFinish(s, l, id) && IoOk(s, l, s.io[l])
    ensures SamePages(s, DoInFinish(s, l, id))
  {
    var s' := DoInFinish(s, l, id);
    forall k | k in s.leaves ensures View(s', k) == View(s, k) && Private(s'.leaves[k]) == Private(s.leaves[k]) {}
  }

  lemma FaultFastKeepsPages(s: State, l: Loc)
    requires CanFaultFast(s, l)
    ensures SamePages(s, DoFaultFast(s, l))
  {
  }

  lemma FaultPinKeepsPages(s: State, l: Loc, id: OpId)
    requires CanFaultPin(s, l, id)
    ensures SamePages(s, DoFaultPin(s, l, id))
  {
  }

  lemma FaultNoMemoryKeepsPages(s: State, id: OpId)
    requires CanFaultNoMemory(s, id)
    ensures SamePages(s, DoFaultNoMemory(s, id))
  {
  }

  lemma OutReserveKeepsPages(s: State, id: OpId, slot: Slot)
    requires CanOutReserve(s, id, slot)
    ensures SamePages(s, DoOutReserve(s, id, slot))
  {
  }

  lemma OutAbortKeepsPages(s: State, id: OpId, l: Loc, secondChance: bool)
    requires CanOutAbort(s, id, l, secondChance)
    ensures SamePages(s, DoOutAbort(s, id, l, secondChance))
  {
  }

  lemma InNoMemoryKeepsPages(s: State, l: Loc)
    requires CanInNoMemory(s, l)
    ensures SamePages(s, DoInNoMemory(s, l))
  {
  }


  lemma FaultCopyKeepsPages(s: State, id: OpId, frame: Frame)
    requires Inv(s) && CanFaultCopy(s, id, frame)
    ensures SamePages(s, DoFaultCopy(s, id, frame))
  {
    FillKeepsPages(s, DoFaultCopy(s, id, frame), frame);
  }

  lemma InTransferKeepsPages(s: State, l: Loc, frame: Frame, ok: bool, garbage: Bytes)
    requires Inv(s) && CanInTransfer(s, l, frame, ok, garbage)
    ensures SamePages(s, DoInTransfer(s, l, frame, ok, garbage))
  {
    FillKeepsPages(s, DoInTransfer(s, l, frame, ok, garbage), frame);
  }

  /** No part of the fault, swap-out, swap-in and release paths changes what any page holds. */
  lemma PagingKeepsPages(s: State, a: Action)
    requires Inv(s) && Enabled(s, a) && !a.User?
    ensures SamePages(s, Next(s, a))
  {
    match a {
      case Fault(FaultFast(l)) => FaultFastKeepsPages(s, l);
      case Fault(FaultPin(l, id)) => FaultPinKeepsPages(s, l, id);
      case Fault(FaultNoMemory(id)) => FaultNoMemoryKeepsPages(s, id);
      case Fault(FaultCopy(id, frame)) => FaultCopyKeepsPages(s, id, frame);
      case Fault(FaultCommit(id)) =>
        OpFact(s, id);
        CommitKeepsPages(s, id);
      case SwapOut(OutReserve(id, slot)) => OutReserveKeepsPages(s, id, slot);
      case SwapOut(OutBegin(id, l, force)) => OutBeginKeepsPages(s, id, l, force);
      case SwapOut(OutAbort(id, l, secondChance)) => OutAbortKeepsPages(s, id, l, secondChance);
      case SwapOut(OutTransfer(l, ok, garbage)) => OutTransferKeepsPages(s, l, ok, garbage);
      case SwapOut(OutFinish(l, id)) =>
        IoFact(s, l);
        OutFinishKeepsPages(s, l, id);
      case SwapIn(InBegin(l)) =>
        PresentNotInIo(s, l);
        InBeginKeepsPages(s, l);
      case SwapIn(InTransfer(l, frame, ok, garbage)) => InTransferKeepsPages(s, l, frame, ok, garbage);
      case SwapIn(InNoMemory(l)) => InNoMemoryKeepsPages(s, l);
      case SwapIn(InFinish(l, id)) =>
        IoFact(s, l);
        InFinishKeepsPages(s, l, id);
      case Drop(x) => DropKeepsPages(s, x);
    }
  }
}
