/**
 The counting invariant of the paging state machine: a frame's reference count is the
 number of leaves that map it plus the operations in flight that hold it, a swap slot's
 count is the number of leaves that name it plus reservations, a writable private leaf is
 the only holder of its frame, and a leaf is BUSY exactly while one swap operation owns it.
 Every transition keeps it.
 */
module VmInvariant {
  import opened Basics
  import opened VmState

  // ---- Who holds a reference ----

  datatype Holder = ByLeaf(l: Loc) | ByIo(l: Loc) | ByOp(id: OpId, second: bool)

  function IoFrame(io: Io): Option<Frame> {
    match io
    case Out(value, _, _) => if value.Present? then Some(value.frame) else None
    case In(_, frame, _) => frame
  }

  function OpFrame(op: Op, second: bool): Option<Frame> {
    match op
    case Reserved(_) => None
    case Pinned(_, _, source) => if second then Some(source) else None
    case Copied(_, _, source, copy) => if second then Some(source) else Some(copy)
    case Releasing(f1, f2, _) => if second then f2 else f1
  }

  function OpSlot(op: Op): Option<Slot> {
    match op
    case Reserved(slot) => Some(slot)
    case Releasing(_, _, n) => n
    case _ => None
  }

  predicate HoldsFrame(s: State, h: Holder, f: Frame) {
    match h
    case ByLeaf(l) => l in s.leaves && s.leaves[l].Present? && s.leaves[l].frame == f
    case ByIo(l) => l in s.io && IoFrame(s.io[l]) == Some(f)
    case ByOp(id, second) => id in s.ops && OpFrame(s.ops[id], second) == Some(f)
  }

  predicate HoldsSlot(s: State, h: Holder, n: Slot) {
    match h
    case ByLeaf(l) => l in s.leaves && s.leaves[l].Swapped? && s.leaves[l].slot == n
    case ByIo(l) => false
    case ByOp(id, second) => !second && id in s.ops && OpSlot(s.ops[id]) == Some(n)
  }

  lemma FinitelyManyHolders(s: State) returns (all: set<Holder>)
    ensures forall h, f :: HoldsFrame(s, h, f) ==> h in all
    ensures forall h, n :: HoldsSlot(s, h, n) ==> h in all
  {
    all := (set l | l in s.leaves :: ByLeaf(l)) + (set l | l in s.io :: ByIo(l))
           + (set id | id in s.ops :: ByOp(id, false)) + (set id | id in s.ops :: ByOp(id, true));
  }

  ghost predicate AreFrameHolders(s: State, f: Frame, r: set<Holder>) {
    forall h :: h in r <==> HoldsFrame(s, h, f)
  }

  ghost predicate AreSlotHolders(s: State, n: Slot, r: set<Holder>) {
    forall h :: h in r <==> HoldsSlot(s, h, n)
  }

  lemma FrameHoldersExist(s: State, f: Frame)
    ensures exists r :: AreFrameHolders(s, f, r)
  {
    var all := FinitelyManyHolders(s);
    assert AreFrameHolders(s, f, set h | h in all && HoldsFrame(s, h, f));
  }

  lemma SlotHoldersExist(s: State, n: Slot)
    ensures exists r :: AreSlotHolders(s, n, r)
  {
    var all := FinitelyManyHolders(s);
    assert AreSlotHolders(s, n, set h | h in all && HoldsSlot(s, h, n));
  }

  /** The set of all holders of frame f. */
  ghost function FrameHolders(s: State, f: Frame): (r: set<Holder>)
    ensures AreFrameHolders(s, f, r)
  {
    FrameHoldersExist(s, f);
    var r :| AreFrameHolders(s, f, r);
    r
  }

  /** The set of all holders of swap slot n. */
  ghost function SlotHolders(s: State, n: Slot): (r: set<Holder>)
    ensures AreSlotHolders(s, n, r)
  {
    SlotHoldersExist(s, n);
    var r :| AreSlotHolders(s, n, r);
    r
  }

  // ---- The invariant ----

  ghost predicate Counted(s: State) {
    && s.refs.Keys == s.mem.Keys
    && (forall f :: f in s.refs ==> s.refs[f] == |FrameHolders(s, f)|)
    && (forall h, f :: HoldsFrame(s, h, f) ==> f in s.refs)
  }

  ghost predicate SlotsCounted(s: State) {
    && s.slotRefs.Keys == s.disk.Keys
    && (forall n :: n in s.slotRefs ==> s.slotRefs[n] == |SlotHolders(s, n)|)
    && (forall h, n :: HoldsSlot(s, h, n) ==> n in s.slotRefs)
  }

  /** A frame with exactly one reference. */
  predicate Sole(s: State, f: Frame) { f in s.refs && f in s.mem && s.refs[f] == 1 }

  predicate SoleSlot(s: State, n: Slot) { n in s.slotRefs && n in s.disk && s.slotRefs[n] == 1 }

  predicate LeafOk(s: State, l: Loc, leaf: Leaf) {
    match leaf
    case Present(f, flags, _) =>
      && (flags.shared <==> f in s.shared)
      && (flags.writable && !flags.shared ==> Sole(s, f))
    case Swapped(_, flags, busy) => !flags.shared && (busy <==> l in s.io)
  }

  predicate IoOk(s: State, l: Loc, io: Io) {
    match io
    case Out(value, slot, status) =>
      && value.Present? && !value.flags.shared
      && l in s.leaves && s.leaves[l] == Swapped(slot, value.flags, true)
      && Sole(s, value.frame) && value.frame !in s.shared && SoleSlot(s, slot)
      && (status == Done ==> s.disk[slot] == s.mem[value.frame])
    case In(entry, frame, status) =>
      && entry.Swapped? && !entry.busy && entry.slot in s.disk
      && l in s.leaves && s.leaves[l] == Swapped(entry.slot, entry.flags, true)
      && (frame.Some? ==> Sole(s, frame.value) && frame.value !in s.shared)
      && (status == Pending ==> frame.None?)
      && (status == Done ==> frame.Some? && s.mem[frame.value] == s.disk[entry.slot])
  }

  predicate OpOk(s: State, op: Op) {
    match op
    case Reserved(slot) => SoleSlot(s, slot)
    case Pinned(_, leaf, source) =>
      leaf.Present? && leaf.frame == source && !leaf.flags.shared && source in s.mem && source !in s.shared
    case Copied(_, leaf, source, copy) =>
      && leaf.Present? && leaf.frame == source && !leaf.flags.shared && source in s.mem && source !in s.shared
      && Sole(s, copy) && copy !in s.shared && s.mem[copy] == s.mem[source]
    case Releasing(_, _, _) => true
  }

  ghost predicate Coherent(s: State) {
    && (forall l :: l in s.leaves ==> LeafOk(s, l, s.leaves[l]))
    && (forall l :: l in s.io ==> IoOk(s, l, s.io[l]))
    && (forall id :: id in s.ops ==> OpOk(s, s.ops[id]))
  }

  ghost predicate Inv(s: State) { Counted(s) && SlotsCounted(s) && Coherent(s) }

  lemma LeafFact(s: State, l: Loc)
    requires Inv(s) && l in s.leaves
    ensures LeafOk(s, l, s.leaves[l])
  {}

  lemma IoFact(s: State, l: Loc)
    requires Inv(s) && l in s.io
    ensures IoOk(s, l, s.io[l])
  {}

  lemma OpFact(s: State, id: OpId)
    requires Inv(s) && id in s.ops
    ensures OpOk(s, s.ops[id])
  {}

  // ---- Counting ----

  lemma OneElement<T>(a: set<T>, x: T, y: T)
    requires |a| == 1 && x in a && y in a
    ensures x == y
  {
    assert |a - {x}| == 0;
    assert y !in a - {x};
  }

  /** A frame with one reference has one holder. */
  lemma SoleHolder(s: State, f: Frame, h: Holder, h': Holder)
    requires Counted(s) && Sole(s, f) && HoldsFrame(s, h, f) && HoldsFrame(s, h', f)
    ensures h == h'
  {
    OneElement(FrameHolders(s, f), h, h');
  }

  lemma SoleSlotHolder(s: State, n: Slot, h: Holder, h': Holder)
    requires SlotsCounted(s) && SoleSlot(s, n) && HoldsSlot(s, h, n) && HoldsSlot(s, h', n)
    ensures h == h'
  {
    OneElement(SlotHolders(s, n), h, h');
  }

  lemma FreeHasNoHolder(s: State, f: Frame, h: Holder)
    requires Counted(s) && FreeFrame(s, f)
    ensures !HoldsFrame(s, h, f)
  {
    assert h !in FrameHolders(s, f);
  }

  lemma FreeSlotHasNoHolder(s: State, n: Slot, h: Holder)
    requires SlotsCounted(s) && FreeSlot(s, n)
    ensures !HoldsSlot(s, h, n)
  {
    assert h !in SlotHolders(s, n);
  }

  lemma Moved<T>(a: set<T>, b: set<T>, x: T, y: T)
    requires x in a && y !in a && b == a - {x} + {y}
    ensures |b| == |a|
  {
  }

  lemma SameHolders(s: State, s': State, f: Frame)
    requires forall h :: HoldsFrame(s, h, f) <==> HoldsFrame(s', h, f)
    ensures |FrameHolders(s, f)| == |FrameHolders(s', f)|
  {
    assert FrameHolders(s, f) == FrameHolders(s', f);
  }

  lemma MoreHolders(s: State, s': State, f: Frame, g: Holder)
    requires forall h :: HoldsFrame(s', h, f) <==> HoldsFrame(s, h, f) || h == g
    requires !HoldsFrame(s, g, f)
    ensures |FrameHolders(s', f)| == |FrameHolders(s, f)| + 1
  {
    assert FrameHolders(s', f) == FrameHolders(s, f) + {g};
  }

  lemma MovedHolder(s: State, s': State, f: Frame, g: Holder, g': Holder)
    requires HoldsFrame(s, g, f) && !HoldsFrame(s, g', f)
    requires forall h :: HoldsFrame(s', h, f) <==> (HoldsFrame(s, h, f) && h != g) || h == g'
    ensures |FrameHolders(s', f)| == |FrameHolders(s, f)|
  {
    Moved(FrameHolders(s, f), FrameHolders(s', f), g, g');
  }

  lemma SameSlotHolders(s: State, s': State, n: Slot)
    requires forall h :: HoldsSlot(s, h, n) <==> HoldsSlot(s', h, n)
    ensures |SlotHolders(s, n)| == |SlotHolders(s', n)|
  {
    assert SlotHolders(s, n) == SlotHolders(s', n);
  }

  lemma MoreSlotHolders(s: State, s': State, n: Slot, g: Holder)
    requires forall h :: HoldsSlot(s', h, n) <==> HoldsSlot(s, h, n) || h == g
    requires !HoldsSlot(s, g, n)
    ensures |SlotHolders(s', n)| == |SlotHolders(s, n)| + 1
  {
    assert SlotHolders(s', n) == SlotHolders(s, n) + {g};
  }

  lemma MovedSlotHolder(s: State, s': State, n: Slot, g: Holder, g': Holder)
    requires HoldsSlot(s, g, n) && !HoldsSlot(s, g', n)
    requires forall h :: HoldsSlot(s', h, n) <==> (HoldsSlot(s, h, n) && h != g) || h == g'
    ensures |SlotHolders(s', n)| == |SlotHolders(s, n)|
  {
    Moved(SlotHolders(s, n), SlotHolders(s', n), g, g');
  }
}
