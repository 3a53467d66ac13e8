/** The filters of all tasks over whole runs of installing, forking, exiting and inspecting. */
module FilterRuns {
  import opened Basics
  import opened Bpf
  import opened FilterChains
  import opened FilterStack

  /** What a task asks for, or what happens to it; a request by a task that is not there does nothing. */
  datatype Op =
    | Install(current: Tid, flags: Flags, program: seq<Insn>, root: bool, threads: seq<Tid>, supply: Supply)
    | GoStrict(current: Tid)
    | NoNewPrivs(current: Tid, value: nat, rest: seq<nat>)
    | Fork(parent: Tid, child: Tid)
    | Zombie(t: Tid)
    | Release(t: Tid)
    | Fetch(t: Tid, offset: nat)
    | GiveBack(id: Id)

  /** Filters and tasks at one moment. */
  datatype World = World(filters: Filters, tasks: Tasks)

  /** The task is still there, with all the filters it had under any newer ones. */
  ghost predicate Kept(a: World, b: World, t: Tid)
    requires t in a.tasks
  {
    t in b.tasks && Suffix(Programs(a.filters, a.tasks[t].filter), Programs(b.filters, b.tasks[t].filter))
  }

  /** No operation but its release loosens what holds for a task. */
  ghost predicate OpKeeps(a: World, b: World, op: Op) {
    forall t :: t in a.tasks && op != Release(t) ==> Kept(a, b, t)
  }

  lemma KeptTransitive(a: World, b: World, c: World, t: Tid)
    requires t in a.tasks && Kept(a, b, t) && Kept(b, c, t)
    ensures Kept(a, c, t)
  {
    SuffixTransitive(Programs(a.filters, a.tasks[t].filter), Programs(b.filters, b.tasks[t].filter),
                     Programs(c.filters, c.tasks[t].filter));
  }

  lemma TightenedKeeps(a: World, b: World, op: Op)
    requires Tightened(a.filters, a.tasks, b.filters, b.tasks)
    ensures OpKeeps(a, b, op)
  {
    forall t | t in a.tasks ensures Kept(a, b, t) { assert t in b.tasks; }
  }

  lemma SameKeeps(a: World, op: Op)
    ensures OpKeeps(a, a, op)
  {}

  lemma ReleaseKeeps(a: World, b: World, t: Tid)
    requires a.tasks.Keys <= b.tasks.Keys
    requires forall u :: u in a.tasks && u != t ==>
               Programs(b.filters, b.tasks[u].filter) == Programs(a.filters, a.tasks[u].filter)
    ensures OpKeeps(a, b, Release(t))
  {}

  /** A new filter on top of the caller's chain, and under the threads that move with it. */
  ghost predicate Installed(a: World, b: World, current: Tid, program: seq<Insn>, threads: seq<Tid>) {
    exists id {:trigger id in b.filters} :: NewOnTop(a, b, current, program, threads, id)
  }

  ghost predicate NewOnTop(a: World, b: World, current: Tid, program: seq<Insn>, threads: seq<Tid>, id: Id) {
    && current in a.tasks && id !in a.filters && b.filters.Keys == a.filters.Keys + {id}
    && Moved(a.tasks[current := a.tasks[current].(filter := Some(id), mode := Filtering)], b.tasks, current, id,
             threads)
    && Programs(b.filters, Some(id)) == [program] + Programs(a.filters, a.tasks[current].filter)
    && Bystanders(a.filters, a.tasks, b.filters, b.tasks, current, threads)
  }

  /** What an operation does to the tasks and to the programs they run. */
  ghost predicate Effect(a: World, b: World, op: Op) {
    match op
    case Install(current, flags, program, _, threads, _) =>
      b == a || Installed(a, b, current, program, if flags.tsync then threads else [])
    case GoStrict(t) =>
      b == if t in a.tasks && a.tasks[t].mode == Disabled then Set(a, t, a.tasks[t].(mode := Strict)) else a
    case NoNewPrivs(t, value, rest) =>
      b == if t in a.tasks && value == 1 && (forall x :: x in rest ==> x == 0)
           then Set(a, t, a.tasks[t].(noNewPrivs := true)) else a
    case Fork(parent, child) =>
      if parent in a.tasks && child !in a.tasks
      then Reached(a, b, Set(a, child, a.tasks[parent].(zombie := false))) else b == a
    case Zombie(t) => b == if t in a.tasks then Set(a, t, a.tasks[t].(zombie := true)) else a
    case Release(t) =>
      if t in a.tasks then Reached(a, b, Set(a, t, a.tasks[t].(mode := Disabled, filter := None))) else b == a
    case Fetch(_, _) => Reached(a, b, a)
    case GiveBack(_) => Reached(a, b, a)
  }

  function Set(w: World, t: Tid, task: Task): World { w.(tasks := w.tasks[t := task]) }

  /** The tasks are those of w; filters may have come or gone, but none that a task runs. */
  ghost predicate Reached(a: World, b: World, w: World) {
    b.tasks == w.tasks && SameChains(a.filters, b.filters, b.tasks)
  }

  lemma ReachedBy(a: World, s: Stack, pins: multiset<Id>, w: World)
    requires Inv(a.filters, a.tasks, pins) && s.Valid() && Survivors(a.filters, s.filters) && s.tasks == w.tasks
    ensures Reached(a, World(s.filters, s.tasks), w)
  {
    assert Linked(a.filters);
    hide Linked, SameChains, Survivors;
    SurvivorsSame(a.filters, s.filters, s.tasks, s.pins);
  }

  /** One operation, whatever it is. */
  method Perform(s: Stack, op: Op)
    requires s.Valid()
    modifies s
    ensures s.Valid() && OpKeeps(old(World(s.filters, s.tasks)), World(s.filters, s.tasks), op)
    ensures Effect(old(World(s.filters, s.tasks)), World(s.filters, s.tasks), op)
  {
    hide Programs, Tightened, Inv, OpKeeps, Moved, Reached, Bystanders, Survivors;
    ghost var a, pins := World(s.filters, s.tasks), s.pins;
    SameKeeps(a, op);
    SurvivorsSelf(s.filters);
    match op
    case Install(current, flags, program, root, threads, supply) =>
      if current in s.tasks && forall u :: u in threads ==> u in s.tasks {
        ghost var id := s.next;
        var out := s.Install(current, flags, program, root, threads, supply);
        TightenedKeeps(a, World(s.filters, s.tasks), op);
        if out.Done? {
          assert NewOnTop(a, World(s.filters, s.tasks), current, program, if flags.tsync then threads else [], id);
        }
      }
    case GoStrict(current) =>
      if current in s.tasks {
        var ok := s.InstallStrict(current);
        TightenedKeeps(a, World(s.filters, s.tasks), op);
      }
    case NoNewPrivs(current, value, rest) =>
      if current in s.tasks {
        var ok := s.SetNoNewPrivs(current, value, rest);
        TightenedKeeps(a, World(s.filters, s.tasks), op);
      }
    case Fork(parent, child) =>
      if parent in s.tasks && child !in s.tasks {
        s.Inherit(child, parent);
        TightenedKeeps(a, World(s.filters, s.tasks), op);
        ReachedBy(a, s, pins, Set(a, child, a.tasks[parent].(zombie := false)));
      }
    case Zombie(t) =>
      if t in s.tasks {
        s.BecomeZombie(t);
        TightenedKeeps(a, World(s.filters, s.tasks), op);
      }
    case Release(t) =>
      if t in s.tasks {
        s.Release(t);
        ReleaseKeeps(a, World(s.filters, s.tasks), t);
        ReachedBy(a, s, pins, Set(a, t, a.tasks[t].(mode := Disabled, filter := None)));
      }
    case Fetch(t, offset) =>
      if t in s.tasks {
        var f := s.GetNth(t, offset);
        TightenedKeeps(a, World(s.filters, s.tasks), op);
      }
      ReachedBy(a, s, pins, a);
    case GiveBack(id) =>
      if id in s.pins {
        s.Unpin(id);
        TightenedKeeps(a, World(s.filters, s.tasks), op);
      }
      ReachedBy(a, s, pins, a);
  }

  /** The moments of a run, each reached from the one before by an operation. */
  ghost predicate IsTrace(trace: seq<World>, ops: seq<Op>) {
    && |trace| == |ops| + 1
    && forall k :: 0 <= k < |ops| ==> OpKeeps(trace[k], trace[k + 1], ops[k]) && Effect(trace[k], trace[k + 1], ops[k])
  }

  predicate Released(ops: seq<Op>, t: Tid) { Release(t) in ops }

  /** From any moment to any later one, a task that is not released in between only gains filters. */
  lemma {:induction false} TraceKeeps(trace: seq<World>, ops: seq<Op>, i: nat, j: nat, t: Tid)
    requires IsTrace(trace, ops) && i <= j <= |ops| && t in trace[i].tasks && !Released(ops[i..j], t)
    ensures Kept(trace[i], trace[j], t)
    decreases j - i
  {
    hide Programs;
    if i == j {
      SameKeeps(trace[i], Release(t + 1));
    } else {
      assert ops[i..j] == ops[i..j - 1] + [ops[j - 1]];
      TraceKeeps(trace, ops, i, j - 1, t);
      assert OpKeeps(trace[j - 1], trace[j], ops[j - 1]);
      KeptTransitive(trace[i], trace[j - 1], trace[j], t);
    }
  }

  /** The decision on a task's system call at one moment. */
  ghost function DecisionAt(w: World, t: Tid, data: seq<U8>): U32
    requires t in w.tasks
  {
    ChainDecision(Programs(w.filters, w.tasks[t].filter), data)
  }

  /**
   From any moment of a run to any later one, for every task not released in between: only more filters, no
   weaker decision.
   */
  ghost predicate OnlyTighter(trace: seq<World>, ops: seq<Op>)
    requires |trace| == |ops| + 1
  {
    forall i, j, t | 0 <= i <= j <= |ops| && t in trace[i].tasks && !Released(ops[i..j], t) ::
      && Kept(trace[i], trace[j], t)
      && forall data :: Rank(DecisionAt(trace[j], t, data)) <= Rank(DecisionAt(trace[i], t, data))
  }

  lemma TraceTightens(trace: seq<World>, ops: seq<Op>)
    requires IsTrace(trace, ops)
    ensures OnlyTighter(trace, ops)
  {
    hide Programs, ChainDecision, Rank;
    forall i, j, t | 0 <= i <= j <= |ops| && t in trace[i].tasks && !Released(ops[i..j], t)
      ensures Kept(trace[i], trace[j], t)
      ensures forall data :: Rank(DecisionAt(trace[j], t, data)) <= Rank(DecisionAt(trace[i], t, data))
    {
      TraceKeeps(trace, ops, i, j, t);
      forall data ensures Rank(DecisionAt(trace[j], t, data)) <= Rank(DecisionAt(trace[i], t, data)) {
        LongerDecides(Programs(trace[i].filters, trace[i].tasks[t].filter),
                      Programs(trace[j].filters, trace[j].tasks[t].filter), data);
      }
    }
  }

  /** Any run from any state: filters only ever get stricter. */
  method PerformAll(s: Stack, ops: seq<Op>) returns (ghost trace: seq<World>)
    requires s.Valid()
    modifies s
    ensures s.Valid() && IsTrace(trace, ops)
    ensures trace[0] == old(World(s.filters, s.tasks)) && trace[|ops|] == World(s.filters, s.tasks)
    ensures OnlyTighter(trace, ops)
  {
    hide OpKeeps, Effect, Inv, OnlyTighter;
    trace := [World(s.filters, s.tasks)];
    for k := 0 to |ops|
      invariant s.Valid() && IsTrace(trace, ops[..k])
      invariant trace[0] == old(World(s.filters, s.tasks)) && trace[k] == World(s.filters, s.tasks)
    {
      ghost var before := trace;
      Perform(s, ops[k]);
      trace := trace + [World(s.filters, s.tasks)];
      forall i | 0 <= i <= k
        ensures OpKeeps(trace[i], trace[i + 1], ops[..k + 1][i]) && Effect(trace[i], trace[i + 1], ops[..k + 1][i])
      {
        if i < k {
          assert OpKeeps(before[i], before[i + 1], ops[..k][i]) && Effect(before[i], before[i + 1], ops[..k][i]);
        }
      }
    }
    assert ops[..|ops|] == ops;
    TraceTightens(trace, ops);
  }
}
