/**
 Frames between the locks.  The frame allocator keeps free frames in the buddy allocator, under
 one lock, and in a cache per CPU, under a lock each, and carries frames from one to the other
 with neither held.  A step is one locked section or one atomic access; an operation in flight is
 what a CPU still has to do.
 */
module FrameSteps {
  type Frame = nat
  type OpId = nat

  const MAX_REFS: nat := 0xffff_ffff

  /**
   What a CPU still has to do: lower the count of free frames for a frame it took, look at the hand-over flags of
   a range it released, put frames into a cache, give a batch of frames back to the buddy allocator.
   */
  datatype Op = Op(owed: bool, range: seq<Frame>, rest: seq<Frame>, batch: seq<Frame>)

  datatype State = State(
    high: nat,                    // how many frames a cache holds
    batch: nat,                   // how many a full one gives up
    buddy: set<Frame>,            // free in the buddy allocator
    caches: seq<seq<Frame>>,
    tags: map<Frame, nat>,        // how many own the frame
    flags: set<Frame>,            // released, and not yet put anywhere
    usable: int,                  // what the allocator believes is free
    ops: map<OpId, Op>)

  datatype Action =
    | Pop(o: OpId, cpu: nat)                    // take a frame from a cache
    | Refill(o: OpId, block: seq<Frame>)        // take a block, to keep one frame and cache the others
    | Drain(o: OpId, cpu: nat)                  // empty a cache
    | AllocBlock(block: seq<Frame>)
    | Retain(range: seq<Frame>)
    | Release(o: OpId, range: seq<Frame>)
    | Owe(o: OpId)                              // lower the count
    | Look(o: OpId)                             // exchange one hand-over flag
    | Put(o: OpId, cpu: nat)                    // put a frame into a cache, or past one
    | Return(o: OpId)                           // give the batch back
    | Done(o: OpId)

  predicate Distinct(s: seq<Frame>) { forall i, j :: 0 <= i < j < |s| ==> s[i] != s[j] }

  function Elements(s: seq<Frame>): set<Frame> { set f | f in s }

  /** A range of frames with owners. */
  predicate Owned(s: State, range: seq<Frame>) {
    Distinct(range) && forall f :: f in range ==> f in s.tags && s.tags[f] > 0
  }

  predicate Enabled(s: State, a: Action) {
    match a
    case Pop(o, cpu) => o !in s.ops && cpu < |s.caches| && s.caches[cpu] != []
    case Refill(o, block) => o !in s.ops && block != [] && Distinct(block) && Elements(block) <= s.buddy
    case Drain(o, cpu) => o !in s.ops && cpu < |s.caches|
    case AllocBlock(block) => Distinct(block) && Elements(block) <= s.buddy
    case Retain(range) => Owned(s, range) && forall f :: f in range ==> s.tags[f] < MAX_REFS
    case Release(o, range) => o !in s.ops && Owned(s, range)
    case Owe(o) => o in s.ops && s.ops[o].owed
    case Look(o) =>
      o in s.ops && !s.ops[o].owed && s.ops[o].rest == [] && s.ops[o].batch == [] && s.ops[o].range != []
    case Put(o, cpu) => o in s.ops && !s.ops[o].owed && s.ops[o].rest != [] && s.ops[o].batch == []
    case Return(o) => o in s.ops && !s.ops[o].owed && s.ops[o].batch != []
    case Done(o) => o in s.ops && s.ops[o] == Op(false, [], [], [])
  }

  function SetTags(tags: map<Frame, nat>, range: seq<Frame>, n: nat): map<Frame, nat> {
    map f | f in tags :: if f in range then n else tags[f]
  }

  function PopNext(s: State, o: OpId, cpu: nat): State
    requires Enabled(s, Pop(o, cpu))
  {
    var n := |s.caches[cpu]| - 1;
    s.(caches := s.caches[cpu := s.caches[cpu][..n]], tags := s.tags[s.caches[cpu][n] := 1],
       ops := s.ops[o := Op(true, [], [], [])])
  }

  function RefillNext(s: State, o: OpId, block: seq<Frame>): State
    requires Enabled(s, Refill(o, block))
  {
    s.(buddy := s.buddy - Elements(block), tags := SetTags(s.tags, block, 0)[block[0] := 1],
       ops := s.ops[o := Op(true, [], block[1..], [])])
  }

  function DrainNext(s: State, o: OpId, cpu: nat): State
    requires Enabled(s, Drain(o, cpu))
  {
    s.(caches := s.caches[cpu := []], ops := s.ops[o := Op(false, [], [], s.caches[cpu])])
  }

  function AllocNext(s: State, block: seq<Frame>): State {
    s.(buddy := s.buddy - Elements(block), tags := SetTags(s.tags, block, 1), usable := s.usable - |block|)
  }

  function RetainNext(s: State, range: seq<Frame>): State
    requires Enabled(s, Retain(range))
  {
    s.(tags := map f | f in s.tags :: if f in range then s.tags[f] + 1 else s.tags[f])
  }

  /** The frames that lose their last owner. */
  function Last(s: State, range: seq<Frame>): set<Frame>
    requires Owned(s, range)
  {
    set f | f in range && s.tags[f] == 1
  }

  function ReleaseNext(s: State, o: OpId, range: seq<Frame>): State
    requires Enabled(s, Release(o, range))
  {
    var last := Last(s, range);
    s.(tags := map f | f in s.tags :: if f in range then s.tags[f] - 1 else s.tags[f],
       flags := s.flags + last, usable := s.usable + |last|,
       ops := if last == {} then s.ops else s.ops[o := Op(false, range, [], [])])
  }

  function LookNext(s: State, o: OpId): State
    requires Enabled(s, Look(o))
  {
    var op := s.ops[o];
    var f := op.range[0];
    s.(flags := s.flags - {f},
       ops := s.ops[o := op.(range := op.range[1..], rest := if f in s.flags then [f] else [])])
  }

  /** The first frame to be put goes on top of a cache. */
  function Appended(s: State, o: OpId, cpu: nat): State
    requires o in s.ops && s.ops[o].rest != [] && cpu < |s.caches|
  {
    s.(caches := s.caches[cpu := s.caches[cpu] + [s.ops[o].rest[0]]],
       ops := s.ops[o := s.ops[o].(rest := s.ops[o].rest[1..])])
  }

  /** A full cache gives up a batch. */
  function Relieved(s: State, o: OpId, cpu: nat): State
    requires o in s.ops && cpu < |s.caches| && s.batch <= s.high == |s.caches[cpu]|
  {
    var cache, keep := s.caches[cpu], s.high - s.batch;
    s.(caches := s.caches[cpu := cache[..keep]], ops := s.ops[o := s.ops[o].(batch := cache[keep..])])
  }

  function PutNext(s: State, o: OpId, cpu: nat): State
    requires Enabled(s, Put(o, cpu)) && s.batch <= s.high
  {
    if cpu >= |s.caches| then
      s.(ops := s.ops[o := s.ops[o].(rest := s.ops[o].rest[1..], batch := [s.ops[o].rest[0]])])
    else if |s.caches[cpu]| == s.high then Appended(Relieved(s, o, cpu), o, cpu)
    else Appended(s, o, cpu)
  }

  function ReturnNext(s: State, o: OpId): State
    requires Enabled(s, Return(o))
  {
    s.(buddy := s.buddy + Elements(s.ops[o].batch), ops := s.ops[o := s.ops[o].(batch := [])])
  }

  function Next(s: State, a: Action): State
    requires Enabled(s, a) && s.batch <= s.high
  {
    match a
    case Pop(o, cpu) => PopNext(s, o, cpu)
    case Refill(o, block) => RefillNext(s, o, block)
    case Drain(o, cpu) => DrainNext(s, o, cpu)
    case AllocBlock(block) => AllocNext(s, block)
    case Retain(range) => RetainNext(s, range)
    case Release(o, range) => ReleaseNext(s, o, range)
    case Owe(o) => s.(usable := s.usable - 1, ops := s.ops[o := s.ops[o].(owed := false)])
    case Look(o) => LookNext(s, o)
    case Put(o, cpu) => PutNext(s, o, cpu)
    case Return(o) => ReturnNext(s, o)
    case Done(o) => s.(ops := s.ops - {o})
  }

  // ---- Where a free frame is ----

  datatype Place = InBuddy | Slot(cpu: nat, i: nat) | Rest(o: OpId, i: nat) | Batch(o: OpId, i: nat) | Flag

  predicate At(s: State, p: Place, f: Frame) {
    match p
    case InBuddy => f in s.buddy
    case Slot(cpu, i) => cpu < |s.caches| && i < |s.caches[cpu]| && s.caches[cpu][i] == f
    case Rest(o, i) => o in s.ops && i < |s.ops[o].rest| && s.ops[o].rest[i] == f
    case Batch(o, i) => o in s.ops && i < |s.ops[o].batch| && s.ops[o].batch[i] == f
    case Flag => f in s.flags
  }

  /** No frame is in two places. */
  ghost predicate Once(s: State) {
    forall p, q, f {:trigger At(s, p, f), At(s, q, f)} :: At(s, p, f) && At(s, q, f) ==> p == q
  }

  ghost predicate Somewhere(s: State, f: Frame) { exists p :: At(s, p, f) }

  /** The frames somewhere are exactly those without an owner. */
  ghost predicate FreeIsSomewhere(s: State) {
    && (forall p, f {:trigger At(s, p, f)} :: At(s, p, f) ==> f in s.tags && s.tags[f] == 0)
    && (forall f {:trigger Somewhere(s, f)} :: f in s.tags && s.tags[f] == 0 ==> Somewhere(s, f))
  }

  ghost predicate LookedFor(s: State, f: Frame) { exists o :: o in s.ops && f in s.ops[o].range }

  /** Somebody will look at every flag that is set. */
  ghost predicate FlagsLookedFor(s: State) {
    forall f {:trigger LookedFor(s, f)} :: f in s.flags ==> LookedFor(s, f)
  }

  function Free(s: State): set<Frame> { set f | f in s.tags && s.tags[f] == 0 }

  function Owing(s: State): set<OpId> { set o | o in s.ops && s.ops[o].owed }

  ghost predicate Counted(s: State) { s.usable == |Free(s)| + |Owing(s)| }

  ghost predicate Inv(s: State) {
    && s.batch <= s.high && Once(s) && FreeIsSomewhere(s) && FlagsLookedFor(s) && Counted(s)
  }

  // ---- What every step keeps ----

  /** Frames only move: each frame in a place of s' was in the place that back names, and none but taken has left. */
  lemma MoveKeeps(s: State, s': State, back: (Place, Frame) -> Place, taken: set<Frame>)
    requires Once(s) && FreeIsSomewhere(s) && s'.tags.Keys == s.tags.Keys
    requires forall p, f {:trigger At(s', p, f)} :: At(s', p, f) ==> At(s, back(p, f), f) && f !in taken
    requires forall p, q, f {:trigger At(s', p, f), At(s', q, f)} ::
               At(s', p, f) && At(s', q, f) && back(p, f) == back(q, f) ==> p == q
    requires forall f :: f in s.tags ==> (s'.tags[f] == 0 <==> s.tags[f] == 0 && f !in taken)
    requires forall p, f {:trigger At(s, p, f)} :: At(s, p, f) && f !in taken ==> Somewhere(s', f)
    ensures Once(s') && FreeIsSomewhere(s')
  {
    hide At;
    forall p, q, f | At(s', p, f) && At(s', q, f) ensures p == q {
      assert At(s, back(p, f), f) && At(s, back(q, f), f);
    }
    forall p, f | At(s', p, f) ensures f in s'.tags && s'.tags[f] == 0 { assert At(s, back(p, f), f); }
    forall f | f in s'.tags && s'.tags[f] == 0 ensures Somewhere(s', f) {
      assert Somewhere(s, f);
      var p :| At(s, p, f);
    }
  }

  lemma There(s: State, p: Place, f: Frame)
    requires At(s, p, f)
    ensures Somewhere(s, f)
  {}

  lemma PopMoves(s: State, o: OpId, cpu: nat)
    requires Once(s) && FreeIsSomewhere(s) && Enabled(s, Pop(o, cpu))
    ensures Once(PopNext(s, o, cpu)) && FreeIsSomewhere(PopNext(s, o, cpu))
  {
    var s' := PopNext(s, o, cpu);
    var n := |s.caches[cpu]| - 1;
    var x := s.caches[cpu][n];
    assert At(s, Slot(cpu, n), x);
    forall p, f | At(s', p, f) ensures At(s, p, f) && f != x { assert At(s, p, f); }
    forall p, f | At(s, p, f) && f != x ensures Somewhere(s', f) { There(s', p, f); }
    MoveKeeps(s, s', (p, f) => p, {x});
  }

  lemma RefillMoves(s: State, o: OpId, block: seq<Frame>)
    requires Once(s) && FreeIsSomewhere(s) && Enabled(s, Refill(o, block))
    ensures Once(RefillNext(s, o, block)) && FreeIsSomewhere(RefillNext(s, o, block))
  {
    var s' := RefillNext(s, o, block);
    var back := (p: Place, f: Frame) => if p.Rest? && p.o == o then InBuddy else p;
    forall f | f in block ensures At(s, InBuddy, f) { assert f in Elements(block); }
    assert At(s, InBuddy, block[0]);
    forall p, f | At(s', p, f) ensures At(s, back(p, f), f) && f != block[0] {
      if p.Rest? && p.o == o {
        assert f == block[p.i + 1];
      } else {
        assert At(s, p, f);
        assert f in block ==> f in Elements(block) && At(s, InBuddy, f);
      }
    }
    forall p, f | At(s, p, f) && f != block[0] ensures Somewhere(s', f) {
      if f in block {
        var i :| 0 <= i < |block| && block[i] == f;
        There(s', Rest(o, i - 1), f);
      } else {
        There(s', p, f);
      }
    }
    forall p, q, f | At(s', p, f) && At(s', q, f) && back(p, f) == back(q, f) ensures p == q {
      if p.Rest? && p.o == o { assert f == block[p.i + 1] && f in Elements(block); }
      if q.Rest? && q.o == o { assert f == block[q.i + 1] && f in Elements(block); }
    }
    MoveKeeps(s, s', back, {block[0]});
  }

  lemma DrainMoves(s: State, o: OpId, cpu: nat)
    requires Once(s) && FreeIsSomewhere(s) && Enabled(s, Drain(o, cpu))
    ensures Once(DrainNext(s, o, cpu)) && FreeIsSomewhere(DrainNext(s, o, cpu))
  {
    var s' := DrainNext(s, o, cpu);
    var back := (p: Place, f: Frame) => if p.Batch? && p.o == o then Slot(cpu, p.i) else p;
    forall p, f | At(s', p, f) ensures At(s, back(p, f), f) {}
    forall p, f | At(s, p, f) ensures Somewhere(s', f) {
      There(s', if p.Slot? && p.cpu == cpu then Batch(o, p.i) else p, f);
    }
    MoveKeeps(s, s', back, {});
  }

  lemma AllocMoves(s: State, block: seq<Frame>)
    requires Once(s) && FreeIsSomewhere(s) && Enabled(s, AllocBlock(block))
    ensures Once(AllocNext(s, block)) && FreeIsSomewhere(AllocNext(s, block))
  {
    var s' := AllocNext(s, block);
    forall p, f | At(s', p, f) ensures At(s, p, f) && f !in Elements(block) {
      assert At(s, p, f);
      assert f in Elements(block) ==> At(s, InBuddy, f);
    }
    forall p, f | At(s, p, f) && f !in Elements(block) ensures Somewhere(s', f) { There(s', p, f); }
    MoveKeeps(s, s', (p, f) => p, Elements(block));
  }

  /** Steps that move no frame. */
  lemma StillMoves(s: State, s': State)
    requires Once(s) && FreeIsSomewhere(s) && s'.tags.Keys == s.tags.Keys
    requires s'.buddy == s.buddy && s'.caches == s.caches && s'.flags == s.flags
    requires forall f :: f in s.tags ==> (s'.tags[f] == 0 <==> s.tags[f] == 0)
    requires forall o :: o in s'.ops ==>
               if o in s.ops then s'.ops[o].rest == s.ops[o].rest && s'.ops[o].batch == s.ops[o].batch
               else s'.ops[o].rest == s'.ops[o].batch == []
    requires forall o :: o in s.ops && o !in s'.ops ==> s.ops[o].rest == s.ops[o].batch == []
    ensures Once(s') && FreeIsSomewhere(s')
  {
    forall p, f | At(s', p, f) ensures At(s, p, f) {}
    forall p, f | At(s, p, f) ensures Somewhere(s', f) { There(s', p, f); }
    MoveKeeps(s, s', (p, f) => p, {});
  }

  lemma LookMoves(s: State, o: OpId)
    requires Once(s) && FreeIsSomewhere(s) && Enabled(s, Look(o))
    ensures Once(LookNext(s, o)) && FreeIsSomewhere(LookNext(s, o))
  {
    var s' := LookNext(s, o);
    var x := s.ops[o].range[0];
    var back := (p: Place, f: Frame) => if p.Rest? && p.o == o then Flag else p;
    forall p, f | At(s', p, f) ensures At(s, back(p, f), f) {}
    forall p, f | At(s, p, f) ensures Somewhere(s', f) {
      There(s', if p == Flag && f == x then Rest(o, 0) else p, f);
    }
    MoveKeeps(s, s', back, {});
  }

  lemma PutMoves(s: State, o: OpId, cpu: nat)
    requires Once(s) && FreeIsSomewhere(s) && Enabled(s, Put(o, cpu)) && s.batch <= s.high
    ensures Once(PutNext(s, o, cpu)) && FreeIsSomewhere(PutNext(s, o, cpu))
  {
    if cpu >= |s.caches| {
      PutPast(s, o, cpu);
    } else if |s.caches[cpu]| == s.high {
      RelievedMoves(s, o, cpu);
      AppendedMoves(Relieved(s, o, cpu), o, cpu);
    } else {
      AppendedMoves(s, o, cpu);
    }
  }

  lemma PutPast(s: State, o: OpId, cpu: nat)
    requires Once(s) && FreeIsSomewhere(s) && Enabled(s, Put(o, cpu)) && s.batch <= s.high && cpu >= |s.caches|
    ensures Once(PutNext(s, o, cpu)) && FreeIsSomewhere(PutNext(s, o, cpu))
  {
    var s' := PutNext(s, o, cpu);
    var back := (p: Place, f: Frame) =>
      if p.Batch? && p.o == o then Rest(o, 0) else if p.Rest? && p.o == o then Rest(o, p.i + 1) else p;
    forall p, f | At(s', p, f) ensures At(s, back(p, f), f) {}
    forall p, f | At(s, p, f) ensures Somewhere(s', f) {
      There(s', if p == Rest(o, 0) then Batch(o, 0) else if p.Rest? && p.o == o then Rest(o, p.i - 1) else p, f);
    }
    MoveKeeps(s, s', back, {});
  }

  lemma AppendedMoves(s: State, o: OpId, cpu: nat)
    requires Once(s) && FreeIsSomewhere(s) && o in s.ops && s.ops[o].rest != [] && cpu < |s.caches|
    ensures Once(Appended(s, o, cpu)) && FreeIsSomewhere(Appended(s, o, cpu))
  {
    var s' := Appended(s, o, cpu);
    var n := |s.caches[cpu]|;
    var back := (p: Place, f: Frame) =>
      if p == Slot(cpu, n) then Rest(o, 0) else if p.Rest? && p.o == o then Rest(o, p.i + 1) else p;
    forall p, f | At(s', p, f) ensures At(s, back(p, f), f) {}
    forall p, f | At(s, p, f) ensures Somewhere(s', f) {
      There(s', if p == Rest(o, 0) then Slot(cpu, n) else if p.Rest? && p.o == o then Rest(o, p.i - 1) else p, f);
    }
    MoveKeeps(s, s', back, {});
  }

  lemma RelievedMoves(s: State, o: OpId, cpu: nat)
    requires Once(s) && FreeIsSomewhere(s) && o in s.ops && s.ops[o].batch == []
    requires cpu < |s.caches| && s.batch <= s.high == |s.caches[cpu]|
    ensures Once(Relieved(s, o, cpu)) && FreeIsSomewhere(Relieved(s, o, cpu))
  {
    var s' := Relieved(s, o, cpu);
    var keep := s.high - s.batch;
    var back := (p: Place, f: Frame) => if p.Batch? && p.o == o then Slot(cpu, keep + p.i) else p;
    forall p, f | At(s', p, f) ensures At(s, back(p, f), f) {}
    forall p, f | At(s, p, f) ensures Somewhere(s', f) {
      There(s', if p.Slot? && p.cpu == cpu && p.i >= keep then Batch(o, p.i - keep) else p, f);
    }
    MoveKeeps(s, s', back, {});
  }

  /** Where a frame stands in a sequence. */
  function IndexOf(s: seq<Frame>, f: Frame): (i: nat)
    ensures f in s ==> i < |s| && s[i] == f
  {
    if s == [] || s[0] == f then 0 else IndexOf(s[1..], f) + 1
  }

  lemma ReturnMoves(s: State, o: OpId)
    requires Once(s) && FreeIsSomewhere(s) && Enabled(s, Return(o))
    ensures Once(ReturnNext(s, o)) && FreeIsSomewhere(ReturnNext(s, o))
  {
    var s' := ReturnNext(s, o);
    var back := (p: Place, f: Frame) =>
      if p == InBuddy && f !in s.buddy && o in s.ops then Batch(o, IndexOf(s.ops[o].batch, f)) else p;
    forall p, f | At(s', p, f) ensures At(s, back(p, f), f) {
      if p == InBuddy && f !in s.buddy { assert f in s.ops[o].batch; }
    }
    forall p, f | At(s, p, f) ensures Somewhere(s', f) {
      There(s', if p.Batch? && p.o == o then InBuddy else p, f);
    }
    MoveKeeps(s, s', back, {});
  }

  lemma ReleaseMoves(s: State, o: OpId, range: seq<Frame>)
    requires Once(s) && FreeIsSomewhere(s) && Enabled(s, Release(o, range))
    ensures Once(ReleaseNext(s, o, range)) && FreeIsSomewhere(ReleaseNext(s, o, range))
  {
    var s' := ReleaseNext(s, o, range);
    var last := Last(s, range);
    forall p, f | At(s', p, f) ensures At(s, p, f) || (p == Flag && f in last) {}
    forall p, q, f | At(s', p, f) && At(s', q, f) ensures p == q {}
    forall p, f | At(s', p, f) ensures f in s'.tags && s'.tags[f] == 0 {}
    forall f | f in s'.tags && s'.tags[f] == 0 ensures Somewhere(s', f) {
      if f in last {
        There(s', Flag, f);
      } else {
        assert Somewhere(s, f);
        var p :| At(s, p, f);
        There(s', p, f);
      }
    }
  }

  // ---- Flags and counts ----

  lemma FlagsKept(s: State, a: Action)
    requires Inv(s) && Enabled(s, a)
    ensures FlagsLookedFor(Next(s, a))
  {
    var s' := Next(s, a);
    forall f | f in s'.flags ensures LookedFor(s', f) {
      if a.Release? && f in Last(s, a.range) {
        assert a.o in s'.ops && f in s'.ops[a.o].range;
      } else {
        assert LookedFor(s, f);
        var o :| o in s.ops && f in s.ops[o].range;
        assert o in s'.ops && f in s'.ops[o].range;
      }
    }
  }

  lemma {:induction false} ElementsCount(s: seq<Frame>)
    requires Distinct(s)
    ensures |Elements(s)| == |s|
  {
    if s == [] {
      assert Elements(s) == {};
    } else {
      ElementsCount(s[1..]);
      assert Elements(s) == Elements(s[1..]) + {s[0]};
    }
  }

  /** A frame that is taken was free. */
  lemma FreeAt(s: State, p: Place, f: Frame)
    requires FreeIsSomewhere(s) && At(s, p, f)
    ensures f in s.tags && s.tags[f] == 0 && f in Free(s)
  {}

  lemma BlockFree(s: State, block: seq<Frame>)
    requires FreeIsSomewhere(s) && Elements(block) <= s.buddy
    ensures Elements(block) <= Free(s) && forall f :: f in block ==> f in s.tags && s.tags[f] == 0
  {
    forall f | f in block ensures f in s.tags && s.tags[f] == 0 {
      assert f in Elements(block);
      FreeAt(s, InBuddy, f);
    }
  }

  lemma CountedTaken(s: State, s': State, o: OpId, f: Frame)
    requires Counted(s) && s'.usable == s.usable && f in Free(s) && Free(s') == Free(s) - {f}
    requires o !in s.ops && Owing(s') == Owing(s) + {o}
    ensures Counted(s')
  {}

  lemma PopCounted(s: State, o: OpId, cpu: nat)
    requires Inv(s) && Enabled(s, Pop(o, cpu))
    ensures Counted(PopNext(s, o, cpu))
  {
    var n := |s.caches[cpu]| - 1;
    var x := s.caches[cpu][n];
    var s' := PopNext(s, o, cpu);
    FreeAt(s, Slot(cpu, n), x);
    assert Free(s') == Free(s) - {x};
    assert Owing(s') == Owing(s) + {o};
    CountedTaken(s, s', o, x);
  }

  lemma RefillCounted(s: State, o: OpId, block: seq<Frame>)
    requires Inv(s) && Enabled(s, Refill(o, block))
    ensures Counted(RefillNext(s, o, block))
  {
    var s' := RefillNext(s, o, block);
    BlockFree(s, block);
    assert block[0] in block;
    assert Free(s') == Free(s) - {block[0]};
    assert Owing(s') == Owing(s) + {o};
    CountedTaken(s, s', o, block[0]);
  }

  lemma AllocCounted(s: State, block: seq<Frame>)
    requires Inv(s) && Enabled(s, AllocBlock(block))
    ensures Counted(AllocNext(s, block))
  {
    var s' := AllocNext(s, block);
    BlockFree(s, block);
    ElementsCount(block);
    assert Free(s') == Free(s) - Elements(block);
    assert Owing(s') == Owing(s);
  }

  lemma ReleaseFrees(s: State, o: OpId, range: seq<Frame>)
    requires Enabled(s, Release(o, range))
    ensures Free(ReleaseNext(s, o, range)) == Free(s) + Last(s, range) && Free(s) !! Last(s, range)
  {
    var s' := ReleaseNext(s, o, range);
    forall f ensures f in Free(s') <==> f in Free(s) || f in Last(s, range) {
      if f in range { assert f in s.tags && s.tags[f] > 0; }
    }
  }

  lemma ReleaseOwes(s: State, o: OpId, range: seq<Frame>)
    requires Enabled(s, Release(o, range))
    ensures Owing(ReleaseNext(s, o, range)) == Owing(s)
  {
    hide Owned, Last;
  }

  lemma ReleaseCounted(s: State, o: OpId, range: seq<Frame>)
    requires Inv(s) && Enabled(s, Release(o, range))
    ensures Counted(ReleaseNext(s, o, range))
  {
    hide Once, FreeIsSomewhere, FlagsLookedFor, Free, Owing, Last, Owned;
    ReleaseFrees(s, o, range);
    ReleaseOwes(s, o, range);
  }

  lemma OweCounted(s: State, o: OpId)
    requires Inv(s) && Enabled(s, Owe(o))
    ensures Counted(Next(s, Owe(o)))
  {
    var s' := Next(s, Owe(o));
    assert Free(s') == Free(s);
    assert Owing(s') == Owing(s) - {o} && o in Owing(s);
  }

  lemma OtherCounted(s: State, a: Action)
    requires Inv(s) && Enabled(s, a) && (a.Drain? || a.Retain? || a.Look? || a.Put? || a.Return? || a.Done?)
    ensures Counted(Next(s, a))
  {
    var s' := Next(s, a);
    assert Free(s') == Free(s);
    assert Owing(s') == Owing(s);
  }

  lemma StepCounted(s: State, a: Action)
    requires Inv(s) && Enabled(s, a)
    ensures Counted(Next(s, a))
  {
    hide Inv, Counted;
    match a
    case Pop(o, cpu) => PopCounted(s, o, cpu);
    case Refill(o, block) => RefillCounted(s, o, block);
    case AllocBlock(block) => AllocCounted(s, block);
    case Release(o, range) => ReleaseCounted(s, o, range);
    case Owe(o) => OweCounted(s, o);
    case _ => OtherCounted(s, a);
  }

  lemma StepMoves(s: State, a: Action)
    requires Inv(s) && Enabled(s, a)
    ensures Once(Next(s, a)) && FreeIsSomewhere(Next(s, a))
  {
    hide Once, FreeIsSomewhere, Counted, FlagsLookedFor;
    match a
    case Pop(o, cpu) => PopMoves(s, o, cpu);
    case Refill(o, block) => RefillMoves(s, o, block);
    case Drain(o, cpu) => DrainMoves(s, o, cpu);
    case AllocBlock(block) => AllocMoves(s, block);
    case Retain(_) => StillMoves(s, Next(s, a));
    case Release(o, range) => ReleaseMoves(s, o, range);
    case Owe(_) => StillMoves(s, Next(s, a));
    case Look(o) => LookMoves(s, o);
    case Put(o, cpu) => PutMoves(s, o, cpu);
    case Return(o) => ReturnMoves(s, o);
    case Done(_) => StillMoves(s, Next(s, a));
  }

  lemma StepKeeps(s: State, a: Action)
    requires Inv(s) && Enabled(s, a)
    ensures Inv(Next(s, a))
  {
    StepMoves(s, a);
    FlagsKept(s, a);
    StepCounted(s, a);
    hide Once, FreeIsSomewhere, Counted, FlagsLookedFor, Enabled;
  }

  // ---- Runs ----

  /** After boot: all frames free in the buddy allocator, all caches empty. */
  function Init(frames: set<Frame>, high: nat, batch: nat, cpus: nat): State {
    State(high, batch, frames, seq(cpus, _ => []), map f | f in frames :: 0, {}, |frames|, map[])
  }

  lemma InitInv(frames: set<Frame>, high: nat, batch: nat, cpus: nat)
    requires batch <= high
    ensures Inv(Init(frames, high, batch, cpus))
  {
    var s := Init(frames, high, batch, cpus);
    forall p, f | At(s, p, f) ensures p == InBuddy {}
    forall f | f in s.tags ensures Somewhere(s, f) { There(s, InBuddy, f); }
    assert Free(s) == frames && Owing(s) == {};
  }

  ghost predicate Steps(s: State, s': State) { s.batch <= s.high && exists a :: Enabled(s, a) && s' == Next(s, a) }

  ghost predicate IsRun(run: seq<State>) {
    |run| > 0 && forall k :: 0 <= k < |run| - 1 ==> Steps(run[k], run[k + 1])
  }

  /**
   In every interleaving every frame is owned or in exactly one place, and the count is exact but for what is
   owed.
   */
  lemma {:induction false} RunInv(run: seq<State>, frames: set<Frame>, high: nat, batch: nat, cpus: nat)
    requires IsRun(run) && run[0] == Init(frames, high, batch, cpus) && batch <= high
    ensures Inv(run[|run| - 1])
  {
    hide Inv, Steps;
    var k := |run| - 1;
    if k == 0 {
      InitInv(frames, high, batch, cpus);
    } else {
      assert IsRun(run[..k]);
      RunInv(run[..k], frames, high, batch, cpus);
      OneStep(run[k - 1], run[k]);
    }
  }

  lemma OneStep(s: State, s': State)
    requires Inv(s) && Steps(s, s')
    ensures Inv(s')
  {
    hide Inv, Next, Enabled;
    var a :| Enabled(s, a) && s' == Next(s, a);
    StepKeeps(s, a);
  }

  // ---- What follows ----

  /** The frames an action hands out. */
  function Taken(s: State, a: Action): set<Frame>
    requires Enabled(s, a)
  {
    match a
    case Pop(_, cpu) => {s.caches[cpu][|s.caches[cpu]| - 1]}
    case Refill(_, block) => {block[0]}
    case AllocBlock(block) => Elements(block)
    case _ => {}
  }

  /** No frame is handed out while it has an owner, and then it has one. */
  lemma TakesFree(s: State, a: Action, f: Frame)
    requires Inv(s) && Enabled(s, a) && f in Taken(s, a)
    ensures f in s.tags && s.tags[f] == 0 && Next(s, a).tags[f] == 1
  {
    if a.Pop? {
      FreeAt(s, Slot(a.cpu, |s.caches[a.cpu]| - 1), f);
    } else {
      BlockFree(s, a.block);
    }
  }

  /** Only the frames handed out, retained or released change owners. */
  lemma OwnersKept(s: State, a: Action, f: Frame)
    requires Inv(s) && Enabled(s, a) && f in s.tags && f !in Taken(s, a)
    requires (a.Retain? || a.Release?) ==> f !in a.range
    ensures f in Next(s, a).tags && Next(s, a).tags[f] == s.tags[f]
  {
    if a.Refill? { BlockFree(s, a.block); }
  }

  /** The buddy allocator never gets a frame back that it has, or that someone owns, or the same one twice. */
  lemma ReturnsOnce(s: State, o: OpId)
    requires Inv(s) && Enabled(s, Return(o))
    ensures Distinct(s.ops[o].batch)
    ensures forall f :: f in s.ops[o].batch ==> f !in s.buddy && f in s.tags && s.tags[f] == 0
  {
    var batch := s.ops[o].batch;
    forall i, j | 0 <= i < j < |batch| ensures batch[i] != batch[j] {
      assert At(s, Batch(o, i), batch[i]) && At(s, Batch(o, j), batch[j]);
    }
    forall f | f in batch ensures f !in s.buddy && f in s.tags && s.tags[f] == 0 {
      var i :| 0 <= i < |batch| && batch[i] == f;
      FreeAt(s, Batch(o, i), f);
      assert At(s, Batch(o, i), f);
      assert !At(s, InBuddy, f);
    }
  }

  function Cached(s: State): set<Frame> {
    set cpu, i | 0 <= cpu < |s.caches| && 0 <= i < |s.caches[cpu]| :: s.caches[cpu][i]
  }

  /** With nothing in flight no flag is set, and the free frames are those of the buddy allocator and of the caches. */
  lemma AtRest(s: State)
    requires Inv(s) && s.ops == map[]
    ensures s.flags == {} && Free(s) == s.buddy + Cached(s) && s.buddy !! Cached(s)
    ensures s.usable == |s.buddy| + |Cached(s)|
  {
    forall f ensures f !in s.flags { assert !LookedFor(s, f); }
    assert s.flags == {};
    forall f ensures f in Cached(s) <==> exists cpu: nat, i: nat :: At(s, Slot(cpu, i), f) {
      if cpu: nat, i: nat :| At(s, Slot(cpu, i), f) { assert s.caches[cpu][i] == f; }
      if f in Cached(s) {
        var cpu: nat, i: nat :| cpu < |s.caches| && i < |s.caches[cpu]| && s.caches[cpu][i] == f;
        assert At(s, Slot(cpu, i), f);
      }
    }
    forall f ensures f in Free(s) <==> f in s.buddy || f in Cached(s) {
      if f in Free(s) {
        assert Somewhere(s, f);
        var p :| At(s, p, f);
        assert p.InBuddy? || p.Slot?;
      }
      if f in s.buddy { FreeAt(s, InBuddy, f); }
    }
    forall f | f in Cached(s) ensures f !in s.buddy {
      var cpu: nat, i: nat :| At(s, Slot(cpu, i), f);
      assert !At(s, InBuddy, f);
    }
    assert Owing(s) == {};
  }

  /** The comparison at the end of frame_validate. */
  predicate CountAgrees(s: State) { s.usable == |s.buddy| }

  /** It succeeds exactly when nothing is cached, in hand or flagged, and no count is owed. */
  lemma CountAgreesIff(s: State)
    requires Inv(s)
    ensures CountAgrees(s) <==> (forall p, f :: At(s, p, f) ==> p == InBuddy) && Owing(s) == {}
  {
    forall f | f in s.buddy ensures f in Free(s) { FreeAt(s, InBuddy, f); }
    if (forall p, f :: At(s, p, f) ==> p == InBuddy) && Owing(s) == {} {
      forall f | f in Free(s) ensures f in s.buddy { assert Somewhere(s, f); }
      assert Free(s) == s.buddy;
    }
    if CountAgrees(s) {
      SubsetSize(s.buddy, Free(s));
      forall p, f | At(s, p, f) ensures p == InBuddy {
        FreeAt(s, p, f);
        assert At(s, InBuddy, f);
      }
    }
  }

  lemma SubsetSize(a: set<Frame>, b: set<Frame>)
    requires a <= b
    ensures |a| <= |b| && (|a| == |b| ==> a == b)
  {
    assert b == a + (b - a);
  }

  /** With nothing in flight and the caches drained the comparison succeeds. */
  lemma DrainedAgrees(s: State)
    requires Inv(s) && s.ops == map[] && forall cpu :: 0 <= cpu < |s.caches| ==> s.caches[cpu] == []
    ensures CountAgrees(s)
  {
    AtRest(s);
    NoneCached(s);
  }

  /** What an allocation of one frame finds nothing in. */
  predicate NothingFound(s: State) { s.buddy == {} && forall cpu :: 0 <= cpu < |s.caches| ==> s.caches[cpu] == [] }

  /** With nothing in flight an allocation of one frame finds nothing exactly when no frame is free. */
  lemma NothingFoundAtRest(s: State)
    requires Inv(s) && s.ops == map[]
    ensures NothingFound(s) <==> Free(s) == {}
  {
    AtRest(s);
    NoneCached(s);
    hide Inv;
  }

  lemma NoneCached(s: State)
    ensures Cached(s) == {} <==> forall cpu :: 0 <= cpu < |s.caches| ==> s.caches[cpu] == []
  {
    forall cpu | 0 <= cpu < |s.caches| && s.caches[cpu] != [] ensures s.caches[cpu][0] in Cached(s) {}
  }

  /**
   One CPU has taken a block of two frames and not yet cached the second.  To all others nothing is free, although
   a frame is, and a validation reports an error, although nothing is wrong.
   */
  lemma BetweenTheLocks(high: nat, batch: nat, cpus: nat) returns (run: seq<State>)
    requires batch <= high
    ensures IsRun(run) && run[0] == Init({1, 2}, high, batch, cpus)
    ensures var s := run[|run| - 1]; NothingFound(s) && Free(s) == {2} && !CountAgrees(s)
  {
    var s := Init({1, 2}, high, batch, cpus);
    var a := Refill(0, [1, 2]);
    assert Elements([1, 2]) == {1, 2};
    assert Enabled(s, a);
    var s' := Next(s, a);
    run := [s, s'];
    assert Steps(s, s');
    assert s'.buddy == {} && s'.tags == map[1 := 1, 2 := 0];
    assert Free(s') == {2};
  }
}
