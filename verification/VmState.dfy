/**
 Demand-paged memory of user processes as a transition system.  A state holds the
 leaves of all address spaces, the reference counts and contents of frames and swap
 slots, and every kernel operation that has dropped its lock and will take it again.
 Each transition is one critical section of the fault, fork, unmap, swap-in or
 swap-out path, or one user access; a lock-protected update together with its TLB
 shootdown is one transition.
 */
module VmState {
  import opened Basics

  type Frame = nat
  type Slot = nat          // stands for a swap area together with a slot offset in it
  type OpId = nat
  type Bytes = seq<int>

  const MAX_REFS: nat := 0xffff_ffff
  const PAGE_SIZE: nat := 4096

  /** A page of one address space. */
  datatype Loc = Loc(space: nat, page: nat)

  /** The bits a swap entry preserves. */
  datatype Flags = Flags(writable: bool, user: bool, cow: bool, shared: bool, noExecute: bool)

  datatype Leaf =
    | Present(frame: Frame, flags: Flags, accessed: bool)
    | Swapped(slot: Slot, flags: Flags, busy: bool)

  datatype IoStatus = Pending | Done | Failed

  /** A swap operation that has set the BUSY bit of a leaf. */
  datatype Io =
    | Out(value: Leaf, slot: Slot, status: IoStatus)                      // value: the leaf before
    | In(entry: Leaf, frame: Option<Frame>, status: IoStatus)             // entry: without BUSY

  /** Any other operation in flight. */
  datatype Op =
    | Reserved(slot: Slot)                                     // swap-out has allocated a slot
    | Pinned(l: Loc, leaf: Leaf, source: Frame)                   // write fault holds the old frame
    | Copied(l: Loc, leaf: Leaf, source: Frame, copy: Frame)       // and has copied it
    | Releasing(first: Option<Frame>, second: Option<Frame>, third: Option<Slot>)

  datatype State = State(
    leaves: map<Loc, Leaf>,
    refs: map<Frame, nat>,            // 0: the frame is free
    mem: map<Frame, Bytes>,
    slotRefs: map<Slot, nat>,         // 0: the slot is free
    disk: map<Slot, Bytes>,
    io: map<Loc, Io>,
    ops: map<OpId, Op>,
    shared: set<Frame>)               // frames allocated for shared mappings

  /** What user code and the calls it makes do in one critical section. */
  datatype UserAction =
    | Touch(l: Loc)
    | Read(l: Loc, bytes: Bytes)
    | Write(l: Loc, offset: nat, byte: int)
    | MapNew(l: Loc, frame: Frame, flags: Flags)
    | Protect(l: Loc, flags: Flags)
    | Unmap(l: Loc, id: OpId)
    | Fork(parent: nat, child: nat)

  /** The copy-on-write fault path. */
  datatype FaultAction =
    | FaultFast(l: Loc)
    | FaultPin(l: Loc, id: OpId)
    | FaultCopy(id: OpId, frame: Frame)
    | FaultNoMemory(id: OpId)
    | FaultCommit(id: OpId)

  /** Swapping a page out. */
  datatype SwapOutAction =
    | OutReserve(id: OpId, slot: Slot)
    | OutBegin(id: OpId, l: Loc, force: bool)
    | OutAbort(id: OpId, l: Loc, secondChance: bool)
    | OutTransfer(l: Loc, ok: bool, garbage: Bytes)
    | OutFinish(l: Loc, id: OpId)

  /** Swapping a page in. */
  datatype SwapInAction =
    | InBegin(l: Loc)
    | InTransfer(l: Loc, frame: Frame, ok: bool, garbage: Bytes)
    | InNoMemory(l: Loc)
    | InFinish(l: Loc, id: OpId)

  /** Releasing a reference after the lock has been dropped. */
  datatype DropAction =
    | DropFirst(id: OpId)
    | DropSecond(id: OpId)
    | DropSlot(id: OpId)

  datatype Action =
    | User(user: UserAction)
    | Fault(fault: FaultAction)
    | SwapOut(out: SwapOutAction)
    | SwapIn(into: SwapInAction)
    | Drop(drop: DropAction)

  function ZeroPage(): Bytes { seq(PAGE_SIZE, _ => 0) }

  /** cow_leaf_value: a writable private leaf becomes copy-on-write. */
  function CowFlags(flags: Flags): Flags {
    if flags.writable && !flags.shared then flags.(writable := false, cow := true) else flags
  }

  function CowLeaf(leaf: Leaf): Leaf {
    match leaf
    case Present(frame, flags, accessed) => Present(frame, CowFlags(flags), accessed)
    case Swapped(slot, flags, busy) => Swapped(slot, CowFlags(flags), busy)
  }

  function MadeWritable(flags: Flags): Flags { flags.(writable := true, cow := false) }

  predicate Mapped(s: State, l: Loc) { l in s.leaves && s.leaves[l].Present? }

  predicate FreeFrame(s: State, f: Frame) { f in s.refs && f in s.mem && s.refs[f] == 0 && f != 0 }

  predicate FreeSlot(s: State, slot: Slot) {
    slot in s.slotRefs && slot in s.disk && s.slotRefs[slot] == 0 && slot != 0
  }

  /** Permission changes on a mapped frame, as page_map_to_status computes them. */
  function ProtectedFlags(was: Flags, flags: Flags, refs: nat): Flags {
    var f1 := if was.shared then flags.(shared := true) else flags;
    var f2 := if was.cow && f1.writable && !f1.shared then f1.(writable := false, cow := true) else f1;
    if f2.writable && !f2.shared && refs > 1 then f2.(writable := false, cow := true) else f2
  }

  // ---- Fork ----

  predicate Private(leaf: Leaf) { !leaf.flags.shared }

  /** The parent's leaves, at the child's addresses. */
  function ChildLocs(s: State, parent: nat, child: nat): set<Loc> {
    set l | l in s.leaves && l.space == parent :: Loc(child, l.page)
  }

  function ForkedLeaves(s: State, parent: nat, child: nat): map<Loc, Leaf> {
    (map l | l in s.leaves :: if l.space == parent then CowLeaf(s.leaves[l]) else s.leaves[l])
    + (map l | l in ChildLocs(s, parent, child) :: CowLeaf(s.leaves[Loc(parent, l.page)]))
  }

  /** The leaves of one space that map frame f, or name slot n. */
  function MapsIn(s: State, space: nat, f: Frame): set<Loc> {
    set l | l in s.leaves && l.space == space && s.leaves[l].Present? && s.leaves[l].frame == f
  }

  function NamesIn(s: State, space: nat, n: Slot): set<Loc> {
    set l | l in s.leaves && l.space == space && s.leaves[l].Swapped? && s.leaves[l].slot == n
  }

  predicate CanFork(s: State, parent: nat, child: nat) {
    && parent != child
    && (forall l :: l in s.leaves ==> l.space != child)
    && (forall f :: f in s.refs ==> s.refs[f] + |MapsIn(s, parent, f)| <= MAX_REFS)
    && (forall n :: n in s.slotRefs ==> s.slotRefs[n] + |NamesIn(s, parent, n)| <= MAX_REFS)
  }

  /** No leaf of the space is being swapped. */
  predicate Quiet(s: State, space: nat) {
    forall l :: l in s.leaves && l.space == space && s.leaves[l].Swapped? ==> !s.leaves[l].busy
  }

  function DoFork(s: State, parent: nat, child: nat): State {
    s.(leaves := ForkedLeaves(s, parent, child),
       refs := map f | f in s.refs :: s.refs[f] + |MapsIn(s, parent, f)|,
       slotRefs := map n | n in s.slotRefs :: s.slotRefs[n] + |NamesIn(s, parent, n)|)
  }

  // ---- Transitions ----

  predicate CanTouch(s: State, l: Loc) {
    Mapped(s, l)
  }

  predicate CanRead(s: State, l: Loc, bytes: Bytes) {
    Mapped(s, l) && s.leaves[l].frame in s.mem && bytes == s.mem[s.leaves[l].frame]
  }

  predicate CanWrite(s: State, l: Loc, offset: nat, byte: int) {
    && Mapped(s, l) && s.leaves[l].flags.writable
    && s.leaves[l].frame in s.mem && offset < |s.mem[s.leaves[l].frame]|
  }

  predicate CanMapNew(s: State, l: Loc, frame: Frame, flags: Flags) {
    l !in s.leaves && FreeFrame(s, frame)
  }

  predicate CanProtect(s: State, l: Loc, flags: Flags) {
    Mapped(s, l) && s.leaves[l].frame in s.refs && (flags.shared ==> s.leaves[l].flags.shared)
  }

  predicate CanUnmap(s: State, l: Loc, id: OpId) {
    l in s.leaves && (s.leaves[l].Swapped? ==> !s.leaves[l].busy) && id !in s.ops
  }

  predicate CanFaultFast(s: State, l: Loc) {
    && Mapped(s, l) && s.leaves[l].flags.user && s.leaves[l].frame in s.refs
    && (s.leaves[l].flags.writable || s.leaves[l].flags.shared || s.refs[s.leaves[l].frame] == 1)
  }

  predicate CanFaultPin(s: State, l: Loc, id: OpId) {
    && Mapped(s, l) && s.leaves[l].flags.user && s.leaves[l].frame in s.refs
    && !s.leaves[l].flags.writable && !s.leaves[l].flags.shared
    && 1 < s.refs[s.leaves[l].frame] < MAX_REFS && id !in s.ops
  }

  predicate CanFaultCopy(s: State, id: OpId, frame: Frame) {
    id in s.ops && s.ops[id].Pinned? && s.ops[id].source in s.mem && FreeFrame(s, frame)
  }

  predicate CanFaultNoMemory(s: State, id: OpId) {
    id in s.ops && s.ops[id].Pinned?
  }

  predicate CanFaultCommit(s: State, id: OpId) {
    id in s.ops && s.ops[id].Copied?
  }

  predicate CanOutReserve(s: State, id: OpId, slot: Slot) {
    id !in s.ops && FreeSlot(s, slot)
  }

  predicate CanOutBegin(s: State, id: OpId, l: Loc, force: bool) {
    && id in s.ops && s.ops[id].Reserved?
    && Mapped(s, l) && s.leaves[l].flags.user && !s.leaves[l].flags.shared
    && s.leaves[l].frame in s.refs && s.refs[s.leaves[l].frame] == 1
    && (force || !s.leaves[l].accessed)
  }

  predicate CanOutAbort(s: State, id: OpId, l: Loc, secondChance: bool) {
    id in s.ops && s.ops[id].Reserved? && (secondChance ==> Mapped(s, l))
  }

  predicate CanOutTransfer(s: State, l: Loc, ok: bool, garbage: Bytes) {
    && l in s.io && s.io[l].Out? && s.io[l].status == Pending
    && s.io[l].value.Present? && s.io[l].value.frame in s.mem
  }

  predicate CanOutFinish(s: State, l: Loc, id: OpId) {
    l in s.io && s.io[l].Out? && s.io[l].status != Pending && s.io[l].value.Present? && id !in s.ops
  }

  predicate CanInBegin(s: State, l: Loc) {
    l in s.leaves && s.leaves[l].Swapped? && !s.leaves[l].busy
  }

  predicate CanInTransfer(s: State, l: Loc, frame: Frame, ok: bool, garbage: Bytes) {
    && l in s.io && s.io[l].In? && s.io[l].status == Pending && s.io[l].frame == None
    && s.io[l].entry.Swapped? && s.io[l].entry.slot in s.disk && FreeFrame(s, frame)
  }

  predicate CanInNoMemory(s: State, l: Loc) {
    l in s.io && s.io[l].In? && s.io[l].status == Pending && s.io[l].frame == None
  }

  predicate CanInFinish(s: State, l: Loc, id: OpId) {
    && l in s.io && s.io[l].In? && s.io[l].status != Pending && s.io[l].entry.Swapped? && id !in s.ops
    && (s.io[l].status == Done ==> s.io[l].frame.Some?)
  }

  predicate CanDropFirst(s: State, id: OpId) {
    && id in s.ops && s.ops[id].Releasing? && s.ops[id].first.Some?
    && s.ops[id].first.value in s.refs && s.refs[s.ops[id].first.value] > 0
  }

  predicate CanDropSecond(s: State, id: OpId) {
    && id in s.ops && s.ops[id].Releasing? && s.ops[id].second.Some?
    && s.ops[id].second.value in s.refs && s.refs[s.ops[id].second.value] > 0
  }

  predicate CanDropSlot(s: State, id: OpId) {
    && id in s.ops && s.ops[id].Releasing? && s.ops[id].third.Some?
    && s.ops[id].third.value in s.slotRefs && s.slotRefs[s.ops[id].third.value] > 0
  }

  predicate UserEnabled(s: State, a: UserAction) {
    match a
    case Touch(l) => CanTouch(s, l)
    case Read(l, bytes) => CanRead(s, l, bytes)
    case Write(l, offset, byte) => CanWrite(s, l, offset, byte)
    case MapNew(l, frame, flags) => CanMapNew(s, l, frame, flags)
    case Protect(l, flags) => CanProtect(s, l, flags)
    case Unmap(l, id) => CanUnmap(s, l, id)
    case Fork(parent, child) => CanFork(s, parent, child) && Quiet(s, parent)
  }

  predicate FaultEnabled(s: State, a: FaultAction) {
    match a
    case FaultFast(l) => CanFaultFast(s, l)
    case FaultPin(l, id) => CanFaultPin(s, l, id)
    case FaultCopy(id, frame) => CanFaultCopy(s, id, frame)
    case FaultNoMemory(id) => CanFaultNoMemory(s, id)
    case FaultCommit(id) => CanFaultCommit(s, id)
  }

  predicate SwapOutEnabled(s: State, a: SwapOutAction) {
    match a
    case OutReserve(id, slot) => CanOutReserve(s, id, slot)
    case OutBegin(id, l, force) => CanOutBegin(s, id, l, force)
    case OutAbort(id, l, secondChance) => CanOutAbort(s, id, l, secondChance)
    case OutTransfer(l, ok, garbage) => CanOutTransfer(s, l, ok, garbage)
    case OutFinish(l, id) => CanOutFinish(s, l, id)
  }

  predicate SwapInEnabled(s: State, a: SwapInAction) {
    match a
    case InBegin(l) => CanInBegin(s, l)
    case InTransfer(l, frame, ok, garbage) => CanInTransfer(s, l, frame, ok, garbage)
    case InNoMemory(l) => CanInNoMemory(s, l)
    case InFinish(l, id) => CanInFinish(s, l, id)
  }

  predicate DropEnabled(s: State, a: DropAction) {
    match a
    case DropFirst(id) => CanDropFirst(s, id)
    case DropSecond(id) => CanDropSecond(s, id)
    case DropSlot(id) => CanDropSlot(s, id)
  }

  predicate Enabled(s: State, a: Action) {
    match a
    case User(x) => UserEnabled(s, x)
    case Fault(x) => FaultEnabled(s, x)
    case SwapOut(x) => SwapOutEnabled(s, x)
    case SwapIn(x) => SwapInEnabled(s, x)
    case Drop(x) => DropEnabled(s, x)
  }

  function SetLeaf(s: State, l: Loc, leaf: Leaf): State { s.(leaves := s.leaves[l := leaf]) }

  function SetOp(s: State, id: OpId, op: Op): State { s.(ops := s.ops[id := op]) }

  function DoWrite(s: State, l: Loc, offset: nat, byte: int): State
    requires CanWrite(s, l, offset, byte)
  {
    var f := s.leaves[l].frame;
    s.(mem := s.mem[f := s.mem[f][offset := byte]])
  }

  function DoMapNew(s: State, l: Loc, frame: Frame, flags: Flags): State {
    SetLeaf(s, l, Present(frame, flags, false))
    .(refs := s.refs[frame := 1], mem := s.mem[frame := ZeroPage()],
      shared := if flags.shared then s.shared + {frame} else s.shared - {frame})
  }

  function DoProtect(s: State, l: Loc, flags: Flags): State
    requires CanProtect(s, l, flags)
  {
    var leaf := s.leaves[l];
    SetLeaf(s, l, Present(leaf.frame, ProtectedFlags(leaf.flags, flags, s.refs[leaf.frame]), leaf.accessed))
  }

  function DoUnmap(s: State, l: Loc, id: OpId): State
    requires CanUnmap(s, l, id)
  {
    var op := match s.leaves[l]
              case Present(frame, _, _) => Releasing(Some(frame), None, None)
              case Swapped(slot, _, _) => Releasing(None, None, Some(slot));
    SetOp(s.(leaves := s.leaves - {l}), id, op)
  }

  function DoFaultFast(s: State, l: Loc): State
    requires CanFaultFast(s, l)
  {
    var leaf := s.leaves[l];
    if leaf.flags.writable then s
    else SetLeaf(s, l, Present(leaf.frame, MadeWritable(leaf.flags), leaf.accessed))
  }

  function DoFaultPin(s: State, l: Loc, id: OpId): State
    requires CanFaultPin(s, l, id)
  {
    var leaf := s.leaves[l];
    SetOp(s.(refs := s.refs[leaf.frame := s.refs[leaf.frame] + 1]), id, Pinned(l, leaf, leaf.frame))
  }

  function DoFaultCopy(s: State, id: OpId, frame: Frame): State
    requires CanFaultCopy(s, id, frame)
  {
    var op := s.ops[id];
    SetOp(s.(refs := s.refs[frame := 1], mem := s.mem[frame := s.mem[op.source]], shared := s.shared - {frame}),
          id, Copied(op.l, op.leaf, op.source, frame))
  }

  function DoFaultCommit(s: State, id: OpId): State
    requires CanFaultCommit(s, id)
  {
    var op := s.ops[id];
    if op.l in s.leaves && s.leaves[op.l] == op.leaf && op.leaf.Present? then
      // the replaced mapping and the temporary pin are both dropped
      SetOp(SetLeaf(s, op.l, Present(op.copy, MadeWritable(op.leaf.flags), op.leaf.accessed)),
            id, Releasing(Some(op.source), Some(op.source), None))
    else
      SetOp(s, id, Releasing(Some(op.copy), Some(op.source), None))
  }

  function DoOutBegin(s: State, id: OpId, l: Loc, force: bool): State
    requires CanOutBegin(s, id, l, force)
  {
    var leaf, slot := s.leaves[l], s.ops[id].slot;
    SetLeaf(s, l, Swapped(slot, leaf.flags, true)).(ops := s.ops - {id}, io := s.io[l := Out(leaf, slot, Pending)])
  }

  function DoOutAbort(s: State, id: OpId, l: Loc, secondChance: bool): State
    requires CanOutAbort(s, id, l, secondChance)
  {
    var s1 := SetOp(s, id, Releasing(None, None, Some(s.ops[id].slot)));
    if secondChance then SetLeaf(s1, l, Present(s.leaves[l].frame, s.leaves[l].flags, false)) else s1
  }

  function DoOutTransfer(s: State, l: Loc, ok: bool, garbage: Bytes): State
    requires CanOutTransfer(s, l, ok, garbage)
  {
    var io := s.io[l];
    s.(disk := s.disk[io.slot := if ok then s.mem[io.value.frame] else garbage],
       io := s.io[l := Out(io.value, io.slot, if ok then Done else Failed)])
  }

  function DoOutFinish(s: State, l: Loc, id: OpId): State
    requires CanOutFinish(s, l, id)
  {
    var io := s.io[l];
    var s1 := s.(io := s.io - {l});
    if l in s.leaves && s.leaves[l] == Swapped(io.slot, io.value.flags, true) then
      if io.status == Done then
        SetOp(SetLeaf(s1, l, Swapped(io.slot, io.value.flags, false)), id, Releasing(Some(io.value.frame), None, None))
      else
        SetOp(SetLeaf(s1, l, io.value), id, Releasing(None, None, Some(io.slot)))
    else
      SetOp(s1, id, Releasing(None, None, Some(io.slot)))
  }

  function DoInBegin(s: State, l: Loc): State
    requires CanInBegin(s, l)
  {
    var leaf := s.leaves[l];
    SetLeaf(s, l, Swapped(leaf.slot, leaf.flags, true)).(io := s.io[l := In(leaf, None, Pending)])
  }

  function DoInTransfer(s: State, l: Loc, frame: Frame, ok: bool, garbage: Bytes): State
    requires CanInTransfer(s, l, frame, ok, garbage)
  {
    var io := s.io[l];
    s.(refs := s.refs[frame := 1], mem := s.mem[frame := if ok then s.disk[io.entry.slot] else garbage],
       shared := s.shared - {frame},
       io := s.io[l := In(io.entry, Some(frame), if ok then Done else Failed)])
  }

  function DoInFinish(s: State, l: Loc, id: OpId): State
    requires CanInFinish(s, l, id)
  {
    var io := s.io[l];
    var s1 := s.(io := s.io - {l});
    if l in s.leaves && s.leaves[l] == Swapped(io.entry.slot, io.entry.flags, true) then
      if io.status == Done then
        SetOp(SetLeaf(s1, l, Present(io.frame.value, io.entry.flags, false)), id,
              Releasing(None, None, Some(io.entry.slot)))
      else
        SetOp(SetLeaf(s1, l, io.entry), id, Releasing(io.frame, None, None))
    else
      SetOp(s1, id, Releasing(io.frame, None, None))
  }

  function DoTouch(s: State, l: Loc): State
    requires CanTouch(s, l)
  {
    SetLeaf(s, l, Present(s.leaves[l].frame, s.leaves[l].flags, true))
  }

  function DoFaultNoMemory(s: State, id: OpId): State
    requires CanFaultNoMemory(s, id)
  {
    SetOp(s, id, Releasing(None, Some(s.ops[id].source), None))
  }

  function DoOutReserve(s: State, id: OpId, slot: Slot): State {
    SetOp(s.(slotRefs := s.slotRefs[slot := 1]), id, Reserved(slot))
  }

  function DoInNoMemory(s: State, l: Loc): State
    requires CanInNoMemory(s, l)
  {
    s.(io := s.io[l := In(s.io[l].entry, s.io[l].frame, Failed)])
  }

  function DoDropFirst(s: State, id: OpId): State
    requires CanDropFirst(s, id)
  {
    var op := s.ops[id];
    var f := op.first.value;
    SetOp(s.(refs := s.refs[f := s.refs[f] - 1]), id, Releasing(None, op.second, op.third))
  }

  function DoDropSecond(s: State, id: OpId): State
    requires CanDropSecond(s, id)
  {
    var op := s.ops[id];
    var f := op.second.value;
    SetOp(s.(refs := s.refs[f := s.refs[f] - 1]), id, Releasing(op.first, None, op.third))
  }

  function DoDropSlot(s: State, id: OpId): State
    requires CanDropSlot(s, id)
  {
    var op := s.ops[id];
    var n := op.third.value;
    SetOp(s.(slotRefs := s.slotRefs[n := s.slotRefs[n] - 1]), id, Releasing(op.first, op.second, None))
  }

  function UserNext(s: State, a: UserAction): State
    requires UserEnabled(s, a)
  {
    match a
    case Touch(l) => DoTouch(s, l)
    case Read(_, _) => s
    case Write(l, offset, byte) => DoWrite(s, l, offset, byte)
    case MapNew(l, frame, flags) => DoMapNew(s, l, frame, flags)
    case Protect(l, flags) => DoProtect(s, l, flags)
    case Unmap(l, id) => DoUnmap(s, l, id)
    case Fork(parent, child) => DoFork(s, parent, child)
  }

  function FaultNext(s: State, a: FaultAction): State
    requires FaultEnabled(s, a)
  {
    match a
    case FaultFast(l) => DoFaultFast(s, l)
    case FaultPin(l, id) => DoFaultPin(s, l, id)
    case FaultCopy(id, frame) => DoFaultCopy(s, id, frame)
    case FaultNoMemory(id) => DoFaultNoMemory(s, id)
    case FaultCommit(id) => DoFaultCommit(s, id)
  }

  function SwapOutNext(s: State, a: SwapOutAction): State
    requires SwapOutEnabled(s, a)
  {
    match a
    case OutReserve(id, slot) => DoOutReserve(s, id, slot)
    case OutBegin(id, l, force) => DoOutBegin(s, id, l, force)
    case OutAbort(id, l, secondChance) => DoOutAbort(s, id, l, secondChance)
    case OutTransfer(l, ok, garbage) => DoOutTransfer(s, l, ok, garbage)
    case OutFinish(l, id) => DoOutFinish(s, l, id)
  }

  function SwapInNext(s: State, a: SwapInAction): State
    requires SwapInEnabled(s, a)
  {
    match a
    case InBegin(l) => DoInBegin(s, l)
    case InTransfer(l, frame, ok, garbage) => DoInTransfer(s, l, frame, ok, garbage)
    case InNoMemory(l) => DoInNoMemory(s, l)
    case InFinish(l, id) => DoInFinish(s, l, id)
  }

  function DropNext(s: State, a: DropAction): State
    requires DropEnabled(s, a)
  {
    match a
    case DropFirst(id) => DoDropFirst(s, id)
    case DropSecond(id) => DoDropSecond(s, id)
    case DropSlot(id) => DoDropSlot(s, id)
  }

  function Next(s: State, a: Action): State
    requires Enabled(s, a)
  {
    match a
    case User(x) => UserNext(s, x)
    case Fault(x) => FaultNext(s, x)
    case SwapOut(x) => SwapOutNext(s, x)
    case SwapIn(x) => SwapInNext(s, x)
    case Drop(x) => DropNext(s, x)
  }
}
