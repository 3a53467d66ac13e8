/** Paging over whole runs: the theorem user processes rely on. */
module VmRuns {
  import opened Basics
  import opened VmState
  import opened VmInvariant
  import opened VmSteps
  import opened VmFork
  import opened VmRefinement

  // ---- User actions do what the page arrays say ----

  /** A write changes the page it names, and no other private page. */
  lemma WriteRefines(s: State, l: Loc, offset: nat, byte: int)
    requires Inv(s) && CanWrite(s, l, offset, byte)
    ensures PrivatePages(DoWrite(s, l, offset, byte)) == Spec(PrivatePages(s), User(Write(l, offset, byte)))
  {
    var s' := DoWrite(s, l, offset, byte);
    forall k | k in s.leaves && Private(s.leaves[k]) && k != l ensures View(s', k) == View(s, k) {
      WriteView(s, l, offset, byte, k);
    }
    assert View(s', l) == View(s, l)[offset := byte];
    hide View, Inv;
  }

  lemma WriteView(s: State, l: Loc, offset: nat, byte: int, k: Loc)
    requires Inv(s) && CanWrite(s, l, offset, byte) && k in s.leaves && Private(s.leaves[k]) && k != l
    ensures View(DoWrite(s, l, offset, byte), k) == View(s, k)
  {
    LeafFact(s, k);
    if PlaceOf(s, k) == InFrame(s.leaves[l].frame) {
      var h := if s.leaves[k].Present? then ByLeaf(k) else ByIo(k);
      WrittenFrame(s, l, h);
      if h.ByIo? { IoFact(s, k); }
    }
    hide Inv;
  }

  lemma MapNewRefines(s: State, l: Loc, frame: Frame, flags: Flags)
    requires Inv(s) && CanMapNew(s, l, frame, flags)
    ensures PrivatePages(DoMapNew(s, l, frame, flags)) == Spec(PrivatePages(s), User(MapNew(l, frame, flags)))
  {
    hide View, Inv, ZeroPage;
    var s' := DoMapNew(s, l, frame, flags);
    forall k | k in s.leaves ensures View(s', k) == View(s, k) { MapNewView(s, l, frame, flags, k); }
    NewView(s, l, frame, flags);
  }

  lemma NewView(s: State, l: Loc, frame: Frame, flags: Flags)
    requires CanMapNew(s, l, frame, flags)
    ensures View(DoMapNew(s, l, frame, flags), l) == ZeroPage()
  {
    hide ZeroPage;
  }

  lemma MapNewView(s: State, l: Loc, frame: Frame, flags: Flags, k: Loc)
    requires Inv(s) && CanMapNew(s, l, frame, flags) && k in s.leaves
    ensures View(DoMapNew(s, l, frame, flags), k) == View(s, k)
  {
    FreeFrameHoldsNoPage(s, frame, k);
    hide Inv;
  }

  lemma UnmapRefines(s: State, l: Loc, id: OpId)
    requires CanUnmap(s, l, id)
    ensures PrivatePages(DoUnmap(s, l, id)) == Spec(PrivatePages(s), User(Unmap(l, id)))
  {
    var s' := DoUnmap(s, l, id);
    forall k | k in s'.leaves ensures View(s', k) == View(s, k) {}
  }

  lemma ForkView(s: State, parent: nat, child: nat, k: Loc)
    requires Inv(s) && CanFork(s, parent, child) && Quiet(s, parent) && k in DoFork(s, parent, child).leaves
    ensures var s', origin := DoFork(s, parent, child), if k.space == child then Loc(parent, k.page) else k;
            && origin in s.leaves
            && Private(s'.leaves[k]) == Private(s.leaves[origin])
            && View(s', k) == View(s, origin)
  {
    hide Inv, ForkedLeaves, MapsIn, NamesIn;
    ForkedLeaf(s, parent, child, k);
    var origin := if k.space == child then Loc(parent, k.page) else k;
    LeafFact(s, origin);
    IoHasLeaf(s, k);
  }

  lemma ForkedDomain(p: Pages, parent: nat, child: nat, k: Loc)
    ensures k in ForkedPages(p, parent, child) <==> k in p || (k.space == child && Loc(parent, k.page) in p)
    ensures k.space == child && Loc(parent, k.page) in p ==> ForkedPages(p, parent, child)[k] == p[Loc(parent, k.page)]
    ensures k in p && k.space != child ==> ForkedPages(p, parent, child)[k] == p[k]
  {
    if k.space == child && Loc(parent, k.page) in p { assert k == Loc(child, Loc(parent, k.page).page); }
    if k in ForkedPages(p, parent, child) && k !in p {
      var o :| o in p && o.space == parent && k == Loc(child, o.page);
      assert o == Loc(parent, k.page);
    }
  }

  /** Fork gives the child a copy of the parent's private pages. */
  lemma ForkRefines(s: State, parent: nat, child: nat)
    requires Inv(s) && CanFork(s, parent, child) && Quiet(s, parent)
    ensures PrivatePages(DoFork(s, parent, child)) == ForkedPages(PrivatePages(s), parent, child)
  {
    var s', p := DoFork(s, parent, child), PrivatePages(s);
    var q := ForkedPages(p, parent, child);
    forall k ensures k in PrivatePages(s') <==> k in q
             ensures k in PrivatePages(s') ==> PrivatePages(s')[k] == q[k]
    {
      ForkedDomain(p, parent, child, k);
      ForkedLeaf(s, parent, child, k);
      if k in s'.leaves { ForkView(s, parent, child, k); }
    }
  }

  lemma TouchRefines(s: State, l: Loc)
    requires CanTouch(s, l)
    ensures PrivatePages(DoTouch(s, l)) == PrivatePages(s)
  {
    SamePagesSameMap(s, DoTouch(s, l));
  }

  lemma ProtectRefines(s: State, l: Loc, flags: Flags)
    requires CanProtect(s, l, flags)
    ensures PrivatePages(DoProtect(s, l, flags)) == PrivatePages(s)
  {
    SamePagesSameMap(s, DoProtect(s, l, flags));
  }

  lemma UserRefines(s: State, a: UserAction)
    requires Inv(s) && UserEnabled(s, a)
    ensures PrivatePages(UserNext(s, a)) == Spec(PrivatePages(s), User(a))
  {
    match a {
      case Touch(l) => TouchRefines(s, l);
      case Read(_, _) =>
      case Write(l, offset, byte) => WriteRefines(s, l, offset, byte);
      case MapNew(l, frame, flags) => MapNewRefines(s, l, frame, flags);
      case Protect(l, flags) => ProtectRefines(s, l, flags);
      case Unmap(l, id) => UnmapRefines(s, l, id);
      case Fork(parent, child) => ForkRefines(s, parent, child);
    }
  }

  /** Every transition does to the private pages what the page arrays prescribe. */
  lemma StepRefines(s: State, a: Action)
    requires Inv(s) && Enabled(s, a)
    ensures PrivatePages(Next(s, a)) == Spec(PrivatePages(s), a)
  {
    if a.User? {
      UserRefines(s, a.user);
    } else {
      PagingKeepsPages(s, a);
      SamePagesSameMap(s, Next(s, a));
    }
  }

  // ---- Runs ----

  ghost predicate Runs(s: State, run: seq<Action>)
    decreases |run|
  {
    run != [] ==> Enabled(s, run[0]) && Runs(Next(s, run[0]), run[1..])
  }

  ghost function After(s: State, run: seq<Action>): State
    requires Runs(s, run)
    decreases |run|
  {
    if run == [] then s else After(Next(s, run[0]), run[1..])
  }

  ghost function SpecAfter(p: Pages, run: seq<Action>): Pages
    decreases |run|
  {
    if run == [] then p else SpecAfter(Spec(p, run[0]), run[1..])
  }

  /** Over every run the invariant holds and the private pages are what the page arrays say. */
  lemma {:induction false} RunRefines(s: State, run: seq<Action>)
    requires Inv(s) && Runs(s, run)
    ensures Inv(After(s, run))
    ensures PrivatePages(After(s, run)) == SpecAfter(PrivatePages(s), run)
    decreases |run|
  {
    if run != [] {
      StepKeepsInvariant(s, run[0]);
      StepRefines(s, run[0]);
      RunRefines(Next(s, run[0]), run[1..]);
    }
  }

  lemma {:induction false} RunSplit(s: State, run: seq<Action>, i: nat)
    requires Runs(s, run) && i < |run|
    ensures Runs(s, run[..i]) && Enabled(After(s, run[..i]), run[i])
    decreases i
  {
    if i > 0 {
      RunSplit(Next(s, run[0]), run[1..], i - 1);
      assert run[1..][..i - 1] == run[..i][1..];
    }
  }

  /** Every read in a run returns the bytes the page array of its process holds at that point. */
  lemma ReadsAreRight(s: State, run: seq<Action>, i: nat, l: Loc, bytes: Bytes)
    requires Inv(s) && Runs(s, run) && i < |run| && run[i] == User(Read(l, bytes))
    requires l in SpecAfter(PrivatePages(s), run[..i])
    ensures bytes == SpecAfter(PrivatePages(s), run[..i])[l]
  {
    RunSplit(s, run, i);
    RunRefines(s, run[..i]);
  }

  /** Boot: no leaves, nothing in flight, every frame and every slot free. */
  ghost predicate Initial(s: State) {
    && s.leaves == map[] && s.io == map[] && s.ops == map[]
    && s.refs.Keys == s.mem.Keys && (forall f :: f in s.refs ==> s.refs[f] == 0)
    && s.slotRefs.Keys == s.disk.Keys && (forall n :: n in s.slotRefs ==> s.slotRefs[n] == 0)
  }

  /** From boot on, in every reachable state, every private page holds what was last written to it. */
  lemma ReachableRefines(s: State, run: seq<Action>)
    requires Initial(s) && Runs(s, run)
    ensures Inv(After(s, run))
    ensures PrivatePages(After(s, run)) == SpecAfter(map[], run)
  {
    forall f | f in s.refs ensures |FrameHolders(s, f)| == 0 { assert FrameHolders(s, f) == {}; }
    forall n | n in s.slotRefs ensures |SlotHolders(s, n)| == 0 { assert SlotHolders(s, n) == {}; }
    RunRefines(s, run);
    assert PrivatePages(s) == map[];
  }

  // ---- Isolation ----

  /** Actions of a process that are meant to change its own pages, or that create it. */
  predicate Changes(a: Action, space: nat) {
    match a
    case User(Write(l, _, _)) => l.space == space
    case User(MapNew(l, _, _)) => l.space == space
    case User(Unmap(l, _)) => l.space == space
    case User(Fork(_, child)) => child == space
    case _ => false
  }

  function PagesOf(p: Pages, space: nat): Pages { map l | l in p && l.space == space :: p[l] }

  lemma SpecIsolates(p: Pages, a: Action, space: nat)
    requires !Changes(a, space)
    ensures PagesOf(Spec(p, a), space) == PagesOf(p, space)
  {
  }

  lemma {:induction false} SpecRunIsolates(p: Pages, run: seq<Action>, space: nat)
    requires forall i :: 0 <= i < |run| ==> !Changes(run[i], space)
    ensures PagesOf(SpecAfter(p, run), space) == PagesOf(p, space)
    decreases |run|
  {
    if run != [] {
      SpecIsolates(p, run[0], space);
      SpecRunIsolates(Spec(p, run[0]), run[1..], space);
    }
  }

  /** Whatever other processes and the swapper do, a process that does not write keeps every byte. */
  lemma Isolation(s: State, run: seq<Action>, space: nat)
    requires Inv(s) && Runs(s, run)
    requires forall i :: 0 <= i < |run| ==> !Changes(run[i], space)
    ensures PagesOf(PrivatePages(After(s, run)), space) == PagesOf(PrivatePages(s), space)
  {
    RunRefines(s, run);
    SpecRunIsolates(PrivatePages(s), run, space);
  }

  // ---- What a fork during a swap-out does ----

  const RW: Flags := Flags(true, true, false, false, false)
  const COW: Flags := Flags(false, true, true, false, false)

  const PAGE: Loc := Loc(0, 0)

  /** One frame and one slot, both free. */
  function Boot(): State {
    var z := ZeroPage();
    State(map[], map[1 := 0], map[1 := z], map[1 := 0], map[1 := z], map[], map[], {})
  }

  /** Process 0 maps a page in frame 1, and a swap-out of that page to slot 1 begins. */
  const BEFORE: seq<Action> := [User(MapNew(PAGE, 1, RW)), SwapOut(OutReserve(0, 1)), SwapOut(OutBegin(0, PAGE, true))]

  /** The swap-out goes on. */
  const LATER: seq<Action> := [SwapOut(OutTransfer(PAGE, true, [])), SwapOut(OutFinish(PAGE, 0))]

  /** The page is being written to slot 1. */
  function Busy(z: Bytes): State {
    State(map[PAGE := Swapped(1, RW, true)], map[1 := 1], map[1 := z], map[1 := 1], map[1 := z],
          map[PAGE := Out(Present(1, RW, false), 1, Pending)], map[], {})
  }

  /** Process 1 has been forked from process 0 meanwhile. */
  function Forked(z: Bytes): State {
    Busy(z).(leaves := map[PAGE := Swapped(1, COW, true), Loc(1, 0) := Swapped(1, COW, true)], slotRefs := map[1 := 2])
  }

  lemma RunOne(s: State, a: Action, run: seq<Action>)
    requires Enabled(s, a) && Runs(Next(s, a), run)
    ensures Runs(s, [a] + run) && After(s, [a] + run) == After(Next(s, a), run)
  {
    assert ([a] + run)[1..] == run;
  }

  function MappedPage(z: Bytes): State {
    State(map[PAGE := Present(1, RW, false)], map[1 := 1], map[1 := z], map[1 := 0], map[1 := z], map[], map[], {})
  }

  lemma BeginStates()
    ensures var z := ZeroPage();
            var reserved := MappedPage(z).(slotRefs := map[1 := 1], ops := map[0 := Reserved(1)]);
            && Initial(Boot())
            && Enabled(Boot(), BEFORE[0]) && Next(Boot(), BEFORE[0]) == MappedPage(z)
            && Enabled(MappedPage(z), BEFORE[1]) && Next(MappedPage(z), BEFORE[1]) == reserved
            && Enabled(reserved, BEFORE[2]) && Next(reserved, BEFORE[2]) == Busy(z)
  {
    hide ZeroPage;
  }

  lemma Begin()
    ensures Initial(Boot()) && Runs(Boot(), BEFORE) && After(Boot(), BEFORE) == Busy(ZeroPage())
  {
    hide Enabled, Next, Initial, ZeroPage, Boot, Busy, MappedPage;
    var z := ZeroPage();
    var reserved := MappedPage(z).(slotRefs := map[1 := 1], ops := map[0 := Reserved(1)]);
    BeginStates();
    RunOne(reserved, BEFORE[2], []);
    RunOne(MappedPage(z), BEFORE[1], [BEFORE[2]]);
    RunOne(Boot(), BEFORE[0], [BEFORE[1], BEFORE[2]]);
    assert BEFORE == [BEFORE[0]] + [BEFORE[1], BEFORE[2]] && [BEFORE[1], BEFORE[2]] == [BEFORE[1]] + [BEFORE[2]];
    assert [BEFORE[2]] == [BEFORE[2]] + [];
  }

  lemma BusyHolders(z: Bytes)
    ensures forall f :: MapsIn(Busy(z), 0, f) == {}
    ensures NamesIn(Busy(z), 0, 1) == {PAGE}
    ensures CanFork(Busy(z), 0, 1) && !Quiet(Busy(z), 0)
  {
    assert forall f :: MapsIn(Busy(z), 0, f) == {};
    assert NamesIn(Busy(z), 0, 1) == {PAGE};
    assert Busy(z).leaves[PAGE].busy;
  }

  lemma Overtake(z: Bytes)
    ensures CanFork(Busy(z), 0, 1) && !Quiet(Busy(z), 0) && DoFork(Busy(z), 0, 1) == Forked(z)
  {
    BusyHolders(z);
    OvertakeLeaves(z);
    hide ForkedLeaves, CanFork, Quiet, MapsIn, NamesIn;
    var forked := DoFork(Busy(z), 0, 1);
    assert forked.refs == Forked(z).refs;
    assert forked.slotRefs == Forked(z).slotRefs;
  }

  lemma OvertakeLeaves(z: Bytes)
    ensures ForkedLeaves(Busy(z), 0, 1) == Forked(z).leaves
  {
    BusyHolders(z);
    var forked := DoFork(Busy(z), 0, 1);
    forall k ensures k in forked.leaves <==> k in Forked(z).leaves { ForkedLeaf(Busy(z), 0, 1, k); }
    ForkedLeaf(Busy(z), 0, 1, PAGE);
    ForkedLeaf(Busy(z), 0, 1, Loc(1, 0));
  }

  /** The frame keeps its count, and nobody holds it. */
  function Lost(z: Bytes): State {
    Forked(z).(io := map[], ops := map[0 := Releasing(None, None, Some(1))])
  }

  lemma Finish(z: Bytes)
    ensures Runs(Forked(z), LATER) && After(Forked(z), LATER) == Lost(z)
  {
    var overtaken := Forked(z).(io := map[PAGE := Out(Present(1, RW, false), 1, Done)]);
    assert Enabled(Forked(z), LATER[0]) && Next(Forked(z), LATER[0]) == overtaken;
    assert Enabled(overtaken, LATER[1]) && Next(overtaken, LATER[1]) == Lost(z);
    hide Enabled, Next;
    RunOne(overtaken, LATER[1], []);
    RunOne(Forked(z), LATER[0], [LATER[1]]);
    assert LATER == [LATER[0]] + [LATER[1]] && [LATER[1]] == [LATER[1]] + [];
  }

  lemma LostFrame(z: Bytes)
    ensures (forall h :: !HoldsFrame(Lost(z), h, 1)) && !Counted(Lost(z))
  {
    var s := Lost(z);
    assert forall h :: !HoldsFrame(s, h, 1);
    assert FrameHolders(s, 1) == {};
  }

  /** A run from boot, a fork while a page of the parent is being swapped, and a run from there. */
  ghost predicate Overtaken(boot: State, before: seq<Action>, parent: nat, child: nat, later: seq<Action>, s: State) {
    && Initial(boot) && Runs(boot, before)
    && var busy := After(boot, before);
       && Inv(busy) && CanFork(busy, parent, child) && !Quiet(busy, parent)
       && Runs(DoFork(busy, parent, child), later) && After(DoFork(busy, parent, child), later) == s
  }

  /**
   One run from boot: a page is mapped, its swap-out begins, the process forks, the swap-out goes on. It
   does not recognise the leaf it marked, gives back a reference to the slot both processes still
   name, and leaves behind a frame with a count that nothing holds. Up to the fork the invariant holds.
   */
  lemma ForkDuringSwapOutLosesFrame()
    ensures Overtaken(Boot(), BEFORE, 0, 1, LATER, Lost(ZeroPage()))
    ensures var s := Lost(ZeroPage());
            && s.ops[0] == Releasing(None, None, Some(1))
            && (forall l :: l in s.leaves ==> s.leaves[l] == Swapped(1, COW, true))
            && s.refs[1] == 1 && (forall h :: !HoldsFrame(s, h, 1)) && !Counted(s)
  {
    hide Runs, After, Initial, Inv, CanFork, Quiet, DoFork, Counted, HoldsFrame, ZeroPage;
    var z := ZeroPage();
    Begin();
    ReachableRefines(Boot(), BEFORE);
    Overtake(z);
    Finish(z);
    LostFrame(z);
  }
}
