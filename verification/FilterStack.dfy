/**
 Installing, inheriting, releasing and running seccomp filters.  All of it happens under the
 lock of one process; filters are shared between the chains of many tasks.
 */
module FilterStack {
  import opened Basics
  import opened Bpf
  import opened BpfRun
  import BpfVerify
  import opened FilterChains
  import opened FilterSteps

  // ---- Decisions ----

  const KILL_PROCESS: U32 := 0x8000_0000
  const TRAP: U32 := 0x0003_0000
  const ERRNO: U32 := 0x0005_0000
  const USER_NOTIF: U32 := 0x7fc0_0000
  const TRACE: U32 := 0x7ff0_0000
  const LOG: U32 := 0x7ffc_0000
  const ALLOW: U32 := 0x7fff_0000

  /** The action bits of a decision. */
  function Action(v: U32): U32 { v - v % 0x1_0000 }

  /** Actions compare as signed 32-bit numbers; lower is stronger. */
  function Rank(v: U32): int {
    if Action(v) >= 0x8000_0000 then Action(v) - WORD else Action(v)
  }

  predicate Supported(v: U32) {
    Action(v) in {KILL_PROCESS, KILL_THREAD, TRAP, ERRNO, USER_NOTIF, TRACE, LOG, ALLOW}
  }

  /** The rank of what is carried out: an action nobody knows kills the process. */
  function Enforced(v: U32): int { if Supported(v) then Rank(v) else Rank(KILL_PROCESS) }

  /** r is the strongest decision of the chain and w the newest filter that made it; -1 if all allow. */
  ghost predicate Strongest(programs: seq<seq<Insn>>, data: seq<U8>, r: U32, w: int) {
    && -1 <= w < |programs|
    && r == (if w < 0 then ALLOW else Decision(programs[w], data))
    && (forall i :: 0 <= i < |programs| ==> Rank(r) <= Rank(Decision(programs[i], data)))
    && (w >= 0 ==> Rank(r) < Rank(ALLOW))
    && (forall i :: 0 <= i < w ==> Rank(r) < Rank(Decision(programs[i], data)))
  }

  /** A chain decides one way only. */
  lemma StrongestUnique(programs: seq<seq<Insn>>, data: seq<U8>, r: U32, w: int, r': U32, w': int)
    requires Strongest(programs, data, r, w) && Strongest(programs, data, r', w')
    ensures r == r' && w == w'
  {
    hide Decision, Rank;
    assert w >= 0 ==> Rank(r') <= Rank(r);
    assert w' >= 0 ==> Rank(r) <= Rank(r');
  }

  /** More filters never decide weaker. */
  lemma LongerIsStronger(older: seq<seq<Insn>>, programs: seq<seq<Insn>>, data: seq<U8>, r: U32, w: int, r': U32,
                         w': int)
    requires Strongest(older, data, r, w) && Strongest(programs, data, r', w') && Suffix(older, programs)
    ensures Rank(r') <= Rank(r)
  {
    hide Decision;
    if w >= 0 {
      assert programs[|programs| - |older|..][w] == programs[|programs| - |older| + w];
    }
  }

  /** What a further filter does to the action carried out: it can get weaker in one case only. */
  lemma FurtherFilterEnforced(program: seq<Insn>, rest: seq<seq<Insn>>, data: seq<U8>, r: U32, w: int, r': U32, w': int)
    requires Strongest(rest, data, r, w) && Strongest([program] + rest, data, r', w')
    ensures var d := Decision(program, data);
            Enforced(r') <= Enforced(r) <==>
            Supported(r) || Rank(r) <= Rank(d) || !Supported(d) || Action(d) == KILL_PROCESS
  {
    hide Decision;
    var d := Decision(program, data);
    var all := [program] + rest;
    LongerIsStronger(rest, all, data, r, w, r', w') by { assert all[1..] == rest; }
    assert all[0] == program;
    assert forall i :: 0 <= i < |rest| ==> all[i + 1] == rest[i];
    if w' > 0 { assert all[w'] == rest[w' - 1]; }
    assert Rank(d) < Rank(r) ==> r' == d;
    assert Rank(r) <= Rank(d) ==> Action(r') == Action(r);
  }

  /** A program that returns a constant. */
  function Always(v: U32): seq<Insn> { [Insn(RET_K, 0, 0, v)] }

  lemma AlwaysDecides(v: U32, data: seq<U8>)
    ensures Decision(Always(v), data) == v && Accepted(Always(v), MAX_INSNS)
  {
  }

  /** Under an unknown action the process is killed; a newer filter that only logs then lets it go on. */
  lemma LogOverUnknownWeakens(data: seq<U8>)
    ensures Accepted(Always(0x7ffe_0000), MAX_INSNS) && Accepted(Always(LOG), MAX_INSNS)
    ensures Strongest([Always(0x7ffe_0000)], data, 0x7ffe_0000, 0) && Enforced(0x7ffe_0000) == Rank(KILL_PROCESS)
    ensures Strongest([Always(LOG), Always(0x7ffe_0000)], data, LOG, 0) && Enforced(LOG) == Rank(LOG)
    ensures Rank(KILL_PROCESS) < Rank(LOG)
  {
    hide Decision, Accepted, Always;
    AlwaysDecides(0x7ffe_0000, data);
    AlwaysDecides(LOG, data);
  }

  // ---- Chains over time ----

  /** Every task still has all the filters it had, under any newer ones. */
  ghost predicate Tightened(fs: Filters, ts: Tasks, fs': Filters, ts': Tasks) {
    forall t {:trigger ts[t]} :: t in ts ==>
        t in ts' && Suffix(Programs(fs, ts[t].filter), Programs(fs', ts'[t].filter))
  }

  lemma TightenedTransitive(fs: Filters, ts: Tasks, fs': Filters, ts': Tasks, fs'': Filters, ts'': Tasks)
    requires Tightened(fs, ts, fs', ts') && Tightened(fs', ts', fs'', ts'')
    ensures Tightened(fs, ts, fs'', ts'')
  {
    hide Programs;
    forall t | t in ts ensures t in ts'' && Suffix(Programs(fs, ts[t].filter), Programs(fs'', ts''[t].filter)) {
      SuffixTransitive(Programs(fs, ts[t].filter), Programs(fs', ts'[t].filter), Programs(fs'', ts''[t].filter));
    }
  }

  lemma SuffixTransitive<T>(a: seq<T>, b: seq<T>, c: seq<T>)
    requires Suffix(a, b) && Suffix(b, c)
    ensures Suffix(a, c)
  {
    assert c[|c| - |a|..] == c[|c| - |b|..][|b| - |a|..];
  }

  // ---- The decision of a chain ----

  /** What a chain decides: its strongest action. */
  ghost function ChainDecision(programs: seq<seq<Insn>>, data: seq<U8>): U32 {
    if programs == [] then ALLOW
    else
      var n := |programs| - 1;
      var rest, d := ChainDecision(programs[..n], data), Decision(programs[n], data);
      if Rank(d) < Rank(rest) then d else rest
  }

  lemma {:induction false} DecisionStrongest(programs: seq<seq<Insn>>, data: seq<U8>) returns (w: int)
    ensures Strongest(programs, data, ChainDecision(programs, data), w)
  {
    if programs == [] {
      AllAllow(data);
      return -1;
    }
    var n := |programs| - 1;
    w := DecisionStrongest(programs[..n], data);
    StrongestNext(programs[..n], programs[n], data, ChainDecision(programs[..n], data), w);
    assert programs[..n] + [programs[n]] == programs;
    if Rank(Decision(programs[n], data)) < Rank(ChainDecision(programs[..n], data)) { w := n; }
  }

  /** A chain that ends in another decides at least as strong an action. */
  lemma LongerDecides(older: seq<seq<Insn>>, programs: seq<seq<Insn>>, data: seq<U8>)
    requires Suffix(older, programs)
    ensures Rank(ChainDecision(programs, data)) <= Rank(ChainDecision(older, data))
  {
    hide Strongest, ChainDecision;
    var w := DecisionStrongest(older, data);
    var w' := DecisionStrongest(programs, data);
    LongerIsStronger(older, programs, data, ChainDecision(older, data), w, ChainDecision(programs, data), w');
  }

  // ---- Freed exactly when unreachable ----

  lemma FreedIffUnreachable(fs: Filters, after: Filters, ts: Tasks, pins: multiset<Id>, id: Id, bound: Id)
    requires Linked(fs) && Survivors(fs, after) && Inv(after, ts, pins) && id in fs && forall j :: j in fs ==> j < bound
    ensures id in after <==> Reachable(fs, ts, pins, id)
  {
    forall t | t in ts ensures Chain(after, ts[t].filter) == Chain(fs, ts[t].filter) {
      assert TaskOk(after, ts, t);
      ChainKept(fs, after, ts[t].filter);
    }
    forall p | p in pins ensures Chain(after, Some(p)) == Chain(fs, Some(p)) { ChainKept(fs, after, Some(p)); }
    if id in after { NoLeak(after, ts, pins, id, bound); }
  }

  /** Survivors decide as before. */
  lemma SurvivorsTightened(fs: Filters, after: Filters, ts: Tasks, pins: multiset<Id>)
    requires Linked(fs) && Survivors(fs, after) && Inv(after, ts, pins)
    ensures Tightened(fs, ts, after, ts)
    ensures forall t :: t in ts ==> Programs(after, ts[t].filter) == Programs(fs, ts[t].filter)
  {
    forall t | t in ts ensures Programs(after, ts[t].filter) == Programs(fs, ts[t].filter) {
      assert TaskOk(after, ts, t);
      ChainKept(fs, after, ts[t].filter);
    }
  }

  // ---- Operations ----

  datatype Flags = Flags(tsync: bool, logs: bool, newListener: bool, tsyncEsrch: bool, waitKillable: bool,
                         unknown: bool)
  datatype Error = Invalid | Access | Fault | NoMemory | Busy | Search | BadFd

  /**
   What the rest of the kernel answers during an installation: the description of the program can be read, there
   is memory for it, the program can be read, there is memory for a listener and a descriptor for it.
   */
  datatype Supply = Supply(header: bool, memory: bool, body: bool, listener: bool, fd: bool)
  datatype Outcome = Done | Failed(error: Error) | Offender(tid: Tid)

  predicate FlagsOk(flags: Flags) {
    && !flags.unknown && !(flags.newListener && flags.tsync)
    && (flags.tsyncEsrch ==> flags.tsync) && (flags.waitKillable ==> flags.newListener)
  }

  /** Thread u can be moved onto a chain that extends the one at head. */
  ghost predicate Syncable(fs: Filters, ts: Tasks, head: Option<Id>, u: Tid)
    requires u in ts
  {
    ts[u].zombie || (ts[u].mode != Strict && (ts[u].filter.None? || ts[u].filter.value in Chain(fs, head)))
  }

  class Stack {
    var filters: Filters
    var tasks: Tasks
    var next: Id
    var pins: multiset<Id>           // references of callers

    ghost predicate Valid()
      reads this
    {
      Inv(filters, tasks, pins) && forall j :: j in filters ==> j < next
    }

    /** One task, without filters. */
    constructor (first: Tid)
      ensures Valid() && filters == map[] && tasks == map[first := Task(Disabled, None, false, false)]
    {
      filters, tasks, next, pins := map[], map[first := Task(Disabled, None, false, false)], 0, multiset{};
    }

    /** seccomp_filter_put: frees exactly the filters nobody can reach any more. */
    method Put(f: Option<Id>, ghost left: multiset<Id>)
      requires Inv(filters, tasks, left + Held(f)) && forall j :: j in filters ==> j < next
      modifies this`filters
      ensures Inv(filters, tasks, left) && Survivors(old(filters), filters)
      ensures forall id :: id in old(filters) ==> (id in filters <==> Reachable(old(filters), tasks, left, id))
      ensures Tightened(old(filters), tasks, filters, tasks)
      ensures forall t :: t in tasks ==> Programs(filters, tasks[t].filter) == Programs(old(filters), tasks[t].filter)
    {
      hide Inv, Programs, Reachable, Linked, Survivors, Tightened, Recount;
      HeldPresent(filters, tasks, left, f);
      SurvivorsSelf(filters);
      var cur := f;
      while cur.Some?
        invariant Inv(filters, tasks, left + Held(cur)) && Survivors(old(filters), filters)
        invariant cur.Some? ==> cur.value in filters && filters[cur.value].refs > 0
        decreases if cur.Some? then cur.value + 1 else 0
      {
        var id := cur.value;
        assert left + Held(cur) == left + multiset{id};
        if filters[id].refs > 1 {
          DropShared(filters, tasks, left, id);
          SurvivorsTransitive(old(filters), filters, Recount(filters, id, filters[id].refs - 1));
          filters := Recount(filters, id, filters[id].refs - 1);
          cur := None;
          assert left + Held(cur) == left;
        } else {
          DropLast(filters, tasks, left, id);
          SurvivorsTransitive(old(filters), filters, filters - {id});
          cur := filters[id].prev;
          filters := filters - {id};
          HeldPresent(filters, tasks, left, cur);
        }
      }
      assert left + Held(cur) == left;
      PutDone(old(filters), filters, tasks, left, f, next);
    }

    /** seccomp_filter_is_ancestor */
    method IsAncestor(ancestor: Option<Id>, head: Option<Id>) returns (yes: bool)
      requires Linked(filters) && (head.Some? ==> head.value in filters)
      ensures yes <==> ancestor.None? || ancestor.value in Chain(filters, head)
    {
      if ancestor.None? { return true; }
      var cur := head;
      while cur.Some?
        invariant cur.Some? ==> cur.value in filters
        invariant ancestor.value in Chain(filters, head) <==> ancestor.value in Chain(filters, cur)
        decreases if cur.Some? then cur.value + 1 else 0
      {
        assert LinkOk(filters, cur.value);
        ChainStep(filters, cur.value);
        if cur == ancestor { return true; }
        cur := filters[cur.value].prev;
      }
      return false;
    }

    /** seccomp_filter_chain_has_listener */
    method ChainHasListener(head: Option<Id>) returns (yes: bool)
      requires Linked(filters) && (head.Some? ==> head.value in filters)
      ensures yes <==> HasListener(filters, head)
    {
      var cur := head;
      while cur.Some?
        invariant cur.Some? ==> cur.value in filters
        invariant HasListener(filters, head) <==> HasListener(filters, cur)
        decreases if cur.Some? then cur.value + 1 else 0
      {
        assert LinkOk(filters, cur.value);
        HasListenerStep(filters, cur.value);
        if filters[cur.value].listener { return true; }
        cur := filters[cur.value].prev;
      }
      return false;
    }

    /** seccomp_run_stack: the strongest decision and the newest filter that made it. */
    method Run(head: Option<Id>, data: seq<U8>) returns (result: U32, winner: Option<Id>)
      requires Linked(filters) && Paths(filters) && (head.Some? ==> head.value in filters) && |data| == DATA_SIZE
      ensures result == ChainDecision(Programs(filters, head), data)
      ensures exists w ::
          Strongest(Programs(filters, head), data, result, w) && winner == if w < 0 then None
              else Some(Chain(filters, head)[w])
    {
      hide Decision, Strongest, Rank;
      result, winner := ALLOW, None;
      ghost var w := -1;
      var cur := head;
      ghost var c, k := Chain(filters, head), 0;
      assert c[0..] == c && ProgramsOf(filters, c[..0]) == [];
      AllAllow(data);
      while cur.Some?
        invariant cur.Some? ==> cur.value in filters
        invariant 0 <= k <= |c| && c[k..] == Chain(filters, cur)
        invariant -1 <= w < k && winner == (if w < 0 then None else Some(c[w]))
        invariant Strongest(ProgramsOf(filters, c[..k]), data, result, w)
        decreases if cur.Some? then cur.value + 1 else 0
      {
        var id := cur.value;
        assert LinkOk(filters, id) && PathOk(filters, id);
        ChainStep(filters, id);
        assert c[k] == c[k..][0] == id && c[k + 1..] == c[k..][1..];
        var current := Interpret(filters[id].program, data, MAX_INSNS);
        StrongestNext(ProgramsOf(filters, c[..k]), filters[id].program, data, result, w);
        assert ProgramsOf(filters, c[..k + 1]) == ProgramsOf(filters, c[..k]) + [filters[id].program];
        if Rank(current) < Rank(result) {
          result, winner, w := current, cur, k;
        }
        cur := filters[id].prev;
        k := k + 1;
      }
      assert c[..k] == c;
      DecisionIs(Programs(filters, head), data, result, w);
      assert Strongest(Programs(filters, head), data, result, w) && winner == if w < 0 then None
          else Some(Chain(filters, head)[w]);
    }

    /** One step of the second thread loop of seccomp_install_filter. */
    method SyncOne(u: Tid, id: Id, noNewPrivs: bool)
      requires Valid() && u in tasks && id in filters
      requires tasks[u].filter.Some? ==> tasks[u].filter.value in Chain(filters, Some(id))
      modifies this`filters, this`tasks
      ensures Valid() && Survivors(old(filters), filters) && filters.Keys == old(filters.Keys)
      ensures tasks
          == old(tasks)[u := old(tasks[u]).(filter := Some(id), mode := Filtering, noNewPrivs := noNewPrivs
                                            || old(tasks[u]).noNewPrivs)]
      ensures Tightened(old(filters), old(tasks), filters, tasks)
    {
      hide Inv, Programs, Reachable, Survivors, Tightened, Suffix, Recount, Chain;
      var previous := tasks[u].filter;
      var task := tasks[u].(filter := Some(id), mode := Filtering, noNewPrivs := noNewPrivs || tasks[u].noNewPrivs);
      TailSuffix(filters, tasks, pins, previous, Some(id));
      SwitchReaches(filters, tasks, pins, u, task, next);
      SwitchKeeps(filters, tasks, pins, u, task);
      SwitchTightens(filters, tasks, pins, u, task);
      GetKeys(filters, Some(id));
      filters := Get(filters, Some(id));
      tasks := tasks[u := task];
      ghost var fs, ts := filters, tasks;
      SurvivorsKeys(old(filters), fs);
      Put(previous, pins);
      SurvivorsKeys(fs, filters);
      SurvivorsTransitive(old(filters), fs, filters);
      TightenedTransitive(old(filters), old(tasks), fs, ts, filters, tasks);
      assert filters.Keys == old(filters.Keys);
    }

    /** The second thread loop of seccomp_install_filter: all live threads move onto the new chain. */
    method SyncAll(current: Tid, id: Id, threads: seq<Tid>)
      requires Valid() && current in tasks && tasks[current].filter == Some(id)
      requires forall u :: u in threads ==> u in tasks
      requires forall u :: u in threads && Synced(tasks, current, u) ==> OnChain(filters, tasks, u, id)
      modifies this`filters, this`tasks
      ensures Valid() && Moved(old(tasks), tasks, current, id, threads) && filters.Keys == old(filters.Keys)
      ensures
        && Programs(filters, Some(id)) == old(Programs(filters, Some(id))) && SameChains(old(filters), filters, tasks)
      ensures Tightened(old(filters), old(tasks), filters, tasks)
    {
      hide SameChains, Moved, Inv, Programs, Reachable, Survivors, Tightened, Suffix, Linked, Paths, Chain;
      SurvivorsSelf(filters);
      TightenedSelf(filters, tasks);
      NoneMoved(tasks, current, id);
      TaskFilterPresent(filters, tasks, pins, current);
      for k := 0 to |threads|
        invariant Valid() && Survivors(old(filters), filters) && filters.Keys == old(filters.Keys) && Linked(filters)
        invariant Tightened(old(filters), old(tasks), filters, tasks)
        invariant Moved(old(tasks), tasks, current, id, threads[..k])
      {
        var u := threads[k];
        MovedStep(old(tasks), tasks, current, id, threads, k);
        if u != current && !tasks[u].zombie {
          ChainKept(old(filters), filters, Some(id));
          ChainStep(filters, id);
          assert id in Chain(filters, Some(id));
          ghost var fs, ts := filters, tasks;
          SyncOne(u, id, tasks[current].noNewPrivs);
          SurvivorsTransitive(old(filters), fs, filters);
          TightenedTransitive(old(filters), old(tasks), fs, ts, filters, tasks);
          TaskFilterPresent(filters, tasks, pins, current);
        }
      }
      assert threads[..|threads|] == threads;
      ChainKept(old(filters), filters, Some(id));
      SurvivorsSame(old(filters), filters, tasks, pins);
    }

    /** The first thread loop of seccomp_install_filter: the first live thread that cannot be synchronised. */
    method FindOffender(current: Tid, threads: seq<Tid>) returns (offender: Option<Tid>)
      requires Valid() && current in tasks && forall u :: u in threads ==> u in tasks
      ensures offender.None? <==> forall u :: u in threads && Synced(tasks, current, u) ==>
          Syncable(filters, tasks, tasks[current].filter, u)
      ensures offender.Some? ==>
                offender.value in threads && Synced(tasks, current, offender.value) &&
                !Syncable(filters, tasks, tasks[current].filter, offender.value)
    {
      hide Inv, Chain, Linked, Paths;
      TaskFilterPresent(filters, tasks, pins, current);
      for k := 0 to |threads|
        invariant forall i :: 0 <= i < k && Synced(tasks, current, threads[i]) ==>
            Syncable(filters, tasks, tasks[current].filter, threads[i])
      {
        var u := threads[k];
        if u != current && !tasks[u].zombie {
          var related := IsAncestor(tasks[u].filter, tasks[current].filter);
          if tasks[u].mode == Strict || !related {
            assert u in threads && !Syncable(filters, tasks, tasks[current].filter, u);
            return Some(u);
          }
        }
      }
      return None;
    }

    /** What a successful installation needs; the caller can check all of it beforehand. */
    ghost predicate Installable(current: Tid, flags: Flags, program: seq<Insn>, root: bool, threads: seq<Tid>,
                                supply: Supply)
      requires Valid() && current in tasks && forall u :: u in threads ==> u in tasks
      reads this
    {
      TaskFilterPresent(filters, tasks, pins, current);
      && FlagsOk(flags) && (tasks[current].noNewPrivs || root) && Accepted(program, MAX_INSNS)
      && supply.header && supply.memory && supply.body
      && tasks[current].mode != Strict && TotalWith(filters, tasks[current].filter, program) <= MAX_PATH
      && (flags.newListener ==> !HasListener(filters, tasks[current].filter) && supply.listener && supply.fd)
      && (flags.tsync ==> forall u :: u in threads && Synced(tasks, current, u) ==>
          Syncable(filters, tasks, tasks[current].filter, u))
    }

    /** What each error says about the request. */
    ghost predicate Explains(e: Error, current: Tid, flags: Flags, program: seq<Insn>, root: bool, threads: seq<Tid>,
                             supply: Supply)
      requires Valid() && current in tasks && forall u :: u in threads ==> u in tasks
      reads this
    {
      TaskFilterPresent(filters, tasks, pins, current);
      match e
      case Invalid => !FlagsOk(flags) || !Accepted(program, MAX_INSNS)
      case Access => !tasks[current].noNewPrivs && !root
      case Busy => tasks[current].mode == Strict || (flags.newListener && HasListener(filters, tasks[current].filter))
      case Fault => !supply.header || !supply.body
      case NoMemory =>
        || !supply.memory || (flags.newListener && !supply.listener)
        || TotalWith(filters, tasks[current].filter, program) > MAX_PATH
      case Search => flags.tsync && flags.tsyncEsrch && Stuck(current, threads)
      case BadFd => flags.newListener && !supply.fd
    }

    /** Some live thread cannot be synchronised. */
    ghost predicate Stuck(current: Tid, threads: seq<Tid>)
      requires current in tasks && forall u :: u in threads ==> u in tasks
      reads this
    {
      exists u :: u in threads && Synced(tasks, current, u) && !Syncable(filters, tasks, tasks[current].filter, u)
    }

    /** seccomp_prepare_filter: the program is brought in and validated. */
    method Prepare(flags: Flags, program: seq<Insn>, supply: Supply) returns (out: Outcome)
      ensures out.Done? || out.Failed?
      ensures out.Done? <==>
                && Accepted(program, MAX_INSNS) && supply.header && supply.memory && supply.body
                && (flags.newListener ==> supply.listener)
      ensures out == Failed(Fault) ==> !supply.header || !supply.body
      ensures out == Failed(NoMemory) ==> !supply.memory || (flags.newListener && !supply.listener)
      ensures out == Failed(Invalid) ==> !Accepted(program, MAX_INSNS)
      ensures out.Failed? ==> out.error in {Fault, NoMemory, Invalid}
    {
      assert Accepted(program, MAX_INSNS) ==> 0 < |program| <= MAX_INSNS;
      hide Accepted;
      if !supply.header { return Failed(Fault); }
      if |program| == 0 || |program| > MAX_INSNS { return Failed(Invalid); }
      if !supply.memory { return Failed(NoMemory); }
      if !supply.body { return Failed(Fault); }
      var valid := BpfVerify.Validate(program, MAX_INSNS);
      if !valid { return Failed(Invalid); }
      if flags.newListener && !supply.listener { return Failed(NoMemory); }
      return Done;
    }

    /** The checks of seccomp_install_filter, in order. */
    method CheckInstall(current: Tid, flags: Flags, program: seq<Insn>, root: bool, threads: seq<Tid>, supply: Supply)
      returns (out: Outcome)
      requires Valid() && current in tasks && forall u :: u in threads ==> u in tasks
      ensures out.Done? <==> Installable(current, flags, program, root, threads, supply)
      ensures out.Offender? ==>
                && flags.tsync && !flags.tsyncEsrch
                && out.tid in threads && Synced(tasks, current, out.tid)
                   && !Syncable(filters, tasks, tasks[current].filter, out.tid)
      ensures out.Failed? ==> Explains(out.error, current, flags, program, root, threads, supply)
    {
      TaskFilterPresent(filters, tasks, pins, current);
      hide Inv, Chain, Linked, Paths, Accepted, HasListener, Syncable, FlagsOk;
      if !FlagsOk(flags) { return Failed(Invalid); }
      if !tasks[current].noNewPrivs && !root { return Failed(Access); }
      out := Prepare(flags, program, supply);
      if !out.Done? { return; }
      if tasks[current].mode == Strict { return Failed(Busy); }
      if TotalWith(filters, tasks[current].filter, program) > MAX_PATH { return Failed(NoMemory); }
      if flags.newListener {
        var listening := ChainHasListener(tasks[current].filter);
        if listening { return Failed(Busy); }
      }
      if flags.tsync {
        var offender := FindOffender(current, threads);
        if offender.Some? { return if flags.tsyncEsrch then Failed(Search) else Offender(offender.value); }
      }
      if flags.newListener && !supply.fd { return Failed(BadFd); }
      return Done;
    }

    /** Put a new filter on top of a task's chain. */
    method Push(current: Tid, flags: Flags, program: seq<Insn>) returns (id: Id)
      requires Valid() && current in tasks && (tasks[current].filter.Some? ==> tasks[current].filter.value in filters)
      requires Accepted(program, MAX_INSNS) && TotalWith(filters, tasks[current].filter, program) <= MAX_PATH
      requires flags.newListener ==> !HasListener(filters, tasks[current].filter)
      modifies this`filters, this`tasks, this`next
      ensures Valid() && id == old(next)
      ensures tasks == old(tasks)[current := old(tasks)[current].(filter := Some(id), mode := Filtering)]
      ensures Programs(filters, Some(id)) == [program] + old(Programs(filters, tasks[current].filter))
      ensures
        && filters.Keys == old(filters.Keys) + {id}
        && Chain(filters, Some(id)) == [id] + old(Chain(filters, tasks[current].filter))
      ensures Tightened(old(filters), old(tasks), filters, tasks)
      ensures forall u :: u in old(tasks) && u != current ==>
          Programs(filters, tasks[u].filter) == old(Programs(filters, tasks[u].filter))
    {
      hide Accepted, Programs, HasListener, Linked, Paths, Counted, TasksOk, PinsOk;
      ghost var fs, ts := filters, tasks;
      id := next;
      next := next + 1;
      var f := Filter(1, program, TotalWith(filters, tasks[current].filter, program), flags.logs,
                      tasks[current].filter, flags.newListener);
      var task := tasks[current].(filter := Some(id), mode := Filtering);
      PushKeeps(filters, tasks, pins, current, task, id, f);
      PushTightens(filters, tasks, pins, current, task, id, f);
      PushChain(filters, tasks, pins, current, id, f);
      filters := filters[id := f];
      tasks := tasks[current := task];
    }

    /** seccomp_install_filter. */
    method Install(current: Tid, flags: Flags, program: seq<Insn>, root: bool, threads: seq<Tid>, supply: Supply)
      returns (out: Outcome)
      requires Valid() && current in tasks && forall u :: u in threads ==> u in tasks
      modifies this`filters, this`tasks, this`next
      ensures Valid()
      ensures out.Done? <==> old(Installable(current, flags, program, root, threads, supply))
      ensures !out.Done? ==> filters == old(filters) && tasks == old(tasks)
      ensures out.Failed? ==> old(Explains(out.error, current, flags, program, root, threads, supply))
      ensures out.Done? ==>
                var moved := if flags.tsync then threads else [];
                Moved(old(tasks)[current := old(tasks[current]).(filter := Some(old(next)), mode := Filtering)], tasks,
                      current, old(next), moved)
      ensures out.Done? ==>
          Programs(filters, Some(old(next))) == [program] + old(Programs(filters, tasks[current].filter))
      ensures out.Done? ==> filters.Keys == old(filters.Keys) + {old(next)}
      ensures out.Done? ==>
                Bystanders(old(filters), old(tasks), filters, tasks, current, if flags.tsync then threads else [])
      ensures Tightened(old(filters), old(tasks), filters, tasks)
    {
      hide SameChains, Bystanders, Moved, Accepted, Programs, HasListener, Syncable, Inv, Chain, Suffix, Tightened,
          TotalWith;
      TightenedSelf(filters, tasks);
      TaskFilterPresent(filters, tasks, pins, current);
      out := CheckInstall(current, flags, program, root, threads, supply);
      if !out.Done? { return; }
      var id := Push(current, flags, program);
      NoneMoved(tasks, current, id);
      ghost var fs, ts := filters, tasks;
      SameChainsSelf(filters, tasks);
      if flags.tsync {
        forall u | u in threads && Synced(tasks, current, u) ensures OnChain(filters, tasks, u, id) {
          SyncableOnChain(old(filters), old(tasks), current, u);
        }
        SyncAll(current, id, threads);
        TightenedTransitive(old(filters), old(tasks), fs, ts, filters, tasks);
      }
      BystandersMoved(old(filters), old(tasks), fs, ts, filters, tasks, current, ts[current], id,
                      if flags.tsync then threads else []);
    }

    /** seccomp_install_strict */
    method InstallStrict(current: Tid) returns (ok: bool)
      requires Valid() && current in tasks
      modifies this`tasks
      ensures Valid() && (ok <==> old(tasks)[current].mode == Disabled)
      ensures tasks == if ok then old(tasks)[current := old(tasks)[current].(mode := Strict)] else old(tasks)
      ensures Tightened(filters, old(tasks), filters, tasks)
    {
      TightenedSelf(filters, tasks);
      hide Linked, Paths, PinsOk, Counted, TasksOk;
      if tasks[current].mode != Disabled { return false; }
      TaskFilterPresent(filters, tasks, pins, current);
      SameFilterKeeps(filters, tasks, pins, current, tasks[current].(mode := Strict));
      tasks := tasks[current := tasks[current].(mode := Strict)];
      return true;
    }

    /** seccomp_set_no_new_privs; rest: the unused arguments */
    method SetNoNewPrivs(current: Tid, value: nat, rest: seq<nat>) returns (ok: bool)
      requires Valid() && current in tasks
      modifies this`tasks
      ensures Valid() && (ok <==> value == 1 && forall x :: x in rest ==> x == 0)
      ensures tasks == if ok then old(tasks)[current := old(tasks)[current].(noNewPrivs := true)] else old(tasks)
      ensures Tightened(filters, old(tasks), filters, tasks)
    {
      hide Linked, Paths, PinsOk, Counted, TasksOk;
      TightenedSelf(filters, tasks);
      if value != 1 || exists x :: x in rest && x != 0 { return false; }
      TaskFilterPresent(filters, tasks, pins, current);
      SameFilterKeeps(filters, tasks, pins, current, tasks[current].(noNewPrivs := true));
      tasks := tasks[current := tasks[current].(noNewPrivs := true)];
      return true;
    }

    /** A thread has ended and waits to be collected. */
    method BecomeZombie(t: Tid)
      requires Valid() && t in tasks
      modifies this`tasks
      ensures Valid() && tasks == old(tasks)[t := old(tasks)[t].(zombie := true)]
      ensures Tightened(filters, old(tasks), filters, tasks)
    {
      hide Linked, Paths, PinsOk, Counted, TasksOk;
      TightenedSelf(filters, tasks);
      TaskFilterPresent(filters, tasks, pins, t);
      SameFilterKeeps(filters, tasks, pins, t, tasks[t].(zombie := true));
      tasks := tasks[t := tasks[t].(zombie := true)];
    }

    /** seccomp_task_inherit: the child of a fork shares the parent's chain. */
    method Inherit(child: Tid, parent: Tid)
      requires Valid() && parent in tasks && child !in tasks
      modifies this`filters, this`tasks
      ensures Valid() && Survivors(old(filters), filters) && filters.Keys == old(filters.Keys)
      ensures tasks == old(tasks)[child := old(tasks)[parent].(zombie := false)]
      ensures Programs(filters, tasks[child].filter) == old(Programs(filters, tasks[parent].filter))
      ensures Tightened(old(filters), old(tasks), filters, tasks)
    {
      hide Linked, Paths, PinsOk, Counted, TasksOk, Survivors, Programs, Tightened, Get;
      var task := tasks[parent].(zombie := false);
      TaskFilterPresent(filters, tasks, pins, parent);
      SwitchKeeps(filters, tasks, pins, child, task);
      assert pins + Held(FilterOf(tasks, child)) == pins;
      GetKeys(filters, task.filter);
      InheritTightens(filters, Get(filters, task.filter), tasks, pins, child, task);
      filters := Get(filters, task.filter);
      tasks := tasks[child := task];
    }

    /** seccomp_task_release: a task that exits gives up its chain. */
    method Release(t: Tid)
      requires Valid() && t in tasks
      modifies this`filters, this`tasks
      ensures Valid() && Survivors(old(filters), filters)
      ensures tasks == old(tasks)[t := old(tasks)[t].(mode := Disabled, filter := None)]
      ensures forall id :: id in old(filters) ==> (id in filters <==> Reachable(old(filters), tasks, pins, id))
      ensures forall u :: u in tasks && u != t ==>
          Programs(filters, tasks[u].filter) == old(Programs(filters, tasks[u].filter))
    {
      hide Linked, Paths, PinsOk, Counted, TasksOk, Survivors, Programs, Reachable, Tightened;
      var previous := tasks[t].filter;
      var task := tasks[t].(mode := Disabled, filter := None);
      SwitchKeeps(filters, tasks, pins, t, task);
      tasks := tasks[t := task];
      SurvivorsSelf(filters);
      Put(previous, pins);
      SurvivorsKeys(old(filters), filters);
    }

    /** seccomp_get_nth_filter: counting from the oldest filter; the caller gets a reference. */
    method GetNth(t: Tid, offset: nat) returns (f: Option<Id>)
      requires Valid() && t in tasks
      modifies this`filters, this`pins
      ensures Valid() && Survivors(old(filters), filters)
      ensures f.Some? <==> offset < |old(Chain(filters, tasks[t].filter))|
      ensures f.Some? ==> pins == old(pins) + multiset{f.value}
      ensures f.None? ==> pins == old(pins) && filters == old(filters)
      ensures f.Some? ==> var c := old(Chain(filters, tasks[t].filter)); f.value == c[|c| - 1 - offset]
      ensures Tightened(old(filters), tasks, filters, tasks)
    {
      TightenedSelf(filters, tasks);
      SurvivorsSelf(filters);
      hide *;
      f := FindNth(t, offset);
      if f.Some? { Pin(f.value); }
    }

    /** The filter at a distance from the oldest of a task's chain. */
    method FindNth(t: Tid, offset: nat) returns (f: Option<Id>)
      requires Valid() && t in tasks
      ensures f.Some? <==> offset < |Chain(filters, tasks[t].filter)|
      ensures f.Some? ==> var c := Chain(filters, tasks[t].filter); f.value == c[|c| - 1 - offset] && f.value in filters
    {
      assert Chain(filters, None) == [];
      TaskFilterPresent(filters, tasks, pins, t);
      hide *;
      if tasks[t].mode != Filtering { return None; }
      var count := CountChain(tasks[t].filter);
      if offset >= count { return None; }
      var id := Nth(tasks[t].filter.value, count - offset - 1);
      return Some(id);
    }

    /** seccomp_filter_get for a caller */
    method Pin(id: Id)
      requires Valid() && id in filters
      modifies this`filters, this`pins
      ensures Valid() && pins == old(pins) + multiset{id} && Survivors(old(filters), filters)
      ensures Tightened(old(filters), tasks, filters, tasks)
    {
      hide Counted, TasksOk, PinsOk, Survivors, Paths, Tightened, Programs, Linked;
      PinKeeps(filters, tasks, pins, id);
      SurvivorsTightened(filters, Recount(filters, id, filters[id].refs + 1), tasks, pins + multiset{id});
      filters := Recount(filters, id, filters[id].refs + 1);
      pins := pins + multiset{id};
    }

    method CountChain(head: Option<Id>) returns (count: nat)
      requires Linked(filters) && (head.Some? ==> head.value in filters)
      ensures count == |Chain(filters, head)|
    {
      count := 0;
      var cur := head;
      while cur.Some?
        invariant cur.Some? ==> cur.value in filters
        invariant count + |Chain(filters, cur)| == |Chain(filters, head)|
        decreases if cur.Some? then cur.value + 1 else 0
      {
        assert LinkOk(filters, cur.value);
        ChainStep(filters, cur.value);
        count := count + 1;
        cur := filters[cur.value].prev;
      }
    }

    method Nth(head: Id, n: nat) returns (id: Id)
      requires Linked(filters) && head in filters && n < |Chain(filters, Some(head))|
      ensures id == Chain(filters, Some(head))[n] && id in filters
    {
      id := head;
      ghost var c := Chain(filters, Some(head));
      for k := 0 to n
        invariant id in filters && Chain(filters, Some(id)) == c[k..]
      {
        assert LinkOk(filters, id);
        ChainStep(filters, id);
        assert Chain(filters, filters[id].prev) == c[k..][1..] == c[k + 1..];
        id := filters[id].prev.value;
      }
      ChainStep(filters, id);
    }

    /** Give a reference taken by GetNth back. */
    method Unpin(id: Id)
      requires Valid() && id in pins
      modifies this`filters, this`pins
      ensures Valid() && pins == old(pins) - multiset{id} && Survivors(old(filters), filters)
      ensures forall j :: j in old(filters) ==> (j in filters <==> Reachable(old(filters), tasks, pins, j))
      ensures Tightened(old(filters), tasks, filters, tasks)
    {
      hide Linked, Paths, PinsOk, Counted, TasksOk, Survivors, Programs, Reachable, Tightened;
      assert pins == (pins - multiset{id}) + Held(Some(id));
      pins := pins - multiset{id};
      Put(Some(id), pins);
      SurvivorsKeys(old(filters), filters);
    }
  }

  /** A thread the synchronising loops act on. */
  predicate Synced(ts: Tasks, current: Tid, u: Tid) { u in ts && u != current && !ts[u].zombie }

  /** What a thread becomes: it takes over the filter and, if the caller has given them up, gives up privileges. */
  function SyncedTask(ts: Tasks, current: Tid, id: Id, u: Tid): Task
    requires u in ts && current in ts
  {
    ts[u].(filter := Some(id), mode := Filtering, noNewPrivs := ts[current].noNewPrivs || ts[u].noNewPrivs)
  }

  /** The thread's filter, if it has one, is on the chain. */
  ghost predicate OnChain(fs: Filters, ts: Tasks, u: Tid, id: Id)
    requires u in ts
  {
    ts[u].filter.Some? ==> ts[u].filter.value in Chain(fs, Some(id))
  }

  /** The live threads of the list, and no other task, have moved to the new filter. */
  ghost predicate Moved(ts: Tasks, ts': Tasks, current: Tid, id: Id, threads: seq<Tid>) {
    && ts'.Keys == ts.Keys && current in ts
    && forall u {:trigger ts'[u]} :: u in ts ==>
         if u in threads && Synced(ts, current, u)
         then ts'[u] == SyncedTask(ts, current, id, u)
         else ts'[u] == ts[u]
  }

  /** Whatever was freed, the tasks run the programs they ran. */
  ghost predicate SameChains(fs: Filters, fs': Filters, ts: Tasks) {
    forall t {:trigger ts[t]} :: t in ts ==> Programs(fs', ts[t].filter) == Programs(fs, ts[t].filter)
  }

  lemma SameChainsSelf(fs: Filters, ts: Tasks)
    ensures SameChains(fs, fs, ts)
  {}

  lemma SurvivorsSame(fs: Filters, after: Filters, ts: Tasks, pins: multiset<Id>)
    requires Linked(fs) && Survivors(fs, after) && Inv(after, ts, pins)
    ensures SameChains(fs, after, ts)
  {
    hide Programs, Inv, Linked, Survivors;
    SurvivorsTightened(fs, after, ts, pins);
  }

  /** Neither the caller nor one of the threads that move with it: such a task runs the programs it ran. */
  ghost predicate Bystanders(fs: Filters, ts: Tasks, fs': Filters, ts': Tasks, current: Tid, threads: seq<Tid>) {
    forall u {:trigger ts[u]} :: u in ts && u != current && !(u in threads && Synced(ts, current, u)) ==>
      u in ts' && Programs(fs', ts'[u].filter) == Programs(fs, ts[u].filter)
  }

  lemma BystandersMoved(fs: Filters, ts: Tasks, fs': Filters, ts': Tasks, fs'': Filters, ts'': Tasks,
                        current: Tid, task: Task, id: Id, threads: seq<Tid>)
    requires current in ts && ts' == ts[current := task]
    requires forall u :: u in ts && u != current ==> Programs(fs', ts'[u].filter) == Programs(fs, ts[u].filter)
    requires Moved(ts', ts'', current, id, threads) && SameChains(fs', fs'', ts'')
    ensures Bystanders(fs, ts, fs'', ts'', current, threads)
  {
    hide Programs;
    forall u | u in ts && u != current && !(u in threads && Synced(ts, current, u))
      ensures u in ts'' && Programs(fs'', ts''[u].filter) == Programs(fs, ts[u].filter)
    {
      assert ts''[u] == ts'[u];
    }
  }

  lemma NoneMoved(ts: Tasks, current: Tid, id: Id)
    requires current in ts
    ensures Moved(ts, ts, current, id, [])
  {}

  lemma MovedStep(ts: Tasks, ts': Tasks, current: Tid, id: Id, threads: seq<Tid>, k: nat)
    requires k < |threads| && Moved(ts, ts', current, id, threads[..k]) && threads[k] in ts
    ensures ts'.Keys == ts.Keys && ts'[threads[k]].zombie == ts[threads[k]].zombie && ts'[current] == ts[current]
    ensures ts'[threads[k]].filter == ts[threads[k]].filter || ts'[threads[k]].filter == Some(id)
    ensures !Synced(ts, current, threads[k]) ==> Moved(ts, ts', current, id, threads[..k + 1])
    ensures Synced(ts, current, threads[k]) ==>
              Moved(ts, ts'[threads[k] := SyncedTask(ts', current, id, threads[k])], current, id, threads[..k + 1])
  {
    var u := threads[k];
    assert threads[..k + 1] == threads[..k] + [u];
    assert ts'[current] == ts[current];
    assert ts'[u].zombie == ts[u].zombie;
  }

  lemma PushTightens(fs: Filters, ts: Tasks, pins: multiset<Id>, t: Tid, task: Task, id: Id, f: Filter)
    requires Inv(fs, ts, pins) && t in ts && id !in fs && Linked(fs[id := f]) && task.filter == Some(id)
    requires Programs(fs[id := f], Some(id)) == [f.program] + Programs(fs, ts[t].filter)
    ensures Tightened(fs, ts, fs[id := f], ts[t := task])
    ensures forall u :: u in ts && u != t ==> Programs(fs[id := f], ts[u].filter) == Programs(fs, ts[u].filter)
  {
    forall u | u in ts ensures Programs(fs[id := f], ts[u].filter) == Programs(fs, ts[u].filter) {
      assert TaskOk(fs, ts, u);
      ChainExtended(fs, id, f, ts[u].filter);
    }
    PushSuffix(Programs(fs, ts[t].filter), f.program);
  }

  lemma PushSuffix<T>(s: seq<T>, x: T)
    ensures Suffix(s, [x] + s)
  {
    assert ([x] + s)[1..] == s;
  }

  lemma PushChain(fs: Filters, ts: Tasks, pins: multiset<Id>, t: Tid, id: Id, f: Filter)
    requires Inv(fs, ts, pins) && t in ts && id !in fs && Linked(fs[id := f]) && f.prev == ts[t].filter
    ensures Chain(fs[id := f], Some(id)) == [id] + Chain(fs, ts[t].filter)
  {
    assert TaskOk(fs, ts, t);
    ChainStep(fs[id := f], id);
    ChainExtended(fs, id, f, ts[t].filter);
  }

  /** A thread that can be synchronised has its filter on the caller's chain, and so a tail of it. */
  lemma SyncableOnChain(fs: Filters, ts: Tasks, current: Tid, u: Tid)
    requires Linked(fs) && current in ts && Synced(ts, current, u) && Syncable(fs, ts, ts[current].filter, u)
    ensures ts[u].filter.Some? ==> ts[u].filter.value in Chain(fs, ts[current].filter)
    ensures Suffix(Programs(fs, ts[u].filter), Programs(fs, ts[current].filter))
  {
    if ts[u].filter.Some? { AncestorSuffix(fs, ts[u].filter.value, ts[current].filter); }
  }

  lemma TailSuffix(fs: Filters, ts: Tasks, pins: multiset<Id>, tail: Option<Id>, head: Option<Id>)
    requires Inv(fs, ts, pins) && (tail.Some? ==> tail.value in Chain(fs, head))
    ensures Suffix(Programs(fs, tail), Programs(fs, head))
  {
    if tail.Some? { AncestorSuffix(fs, tail.value, head); }
  }

  /** What is on the chain of a filter on a chain is on that chain. */
  lemma {:induction false} ChainWithin(fs: Filters, tail: Id, head: Option<Id>, id: Id)
    requires Linked(fs) && tail in Chain(fs, head) && id in Chain(fs, Some(tail))
    ensures id in Chain(fs, head)
    decreases if head.Some? then head.value + 1 else 0
  {
    if head.value != tail {
      assert LinkOk(fs, head.value);
      ChainStep(fs, head.value);
      ChainWithin(fs, tail, fs[head.value].prev, id);
    }
  }

  /** A thread that moves up its own chain takes nothing out of reach. */
  lemma SwitchReaches(fs: Filters, ts: Tasks, pins: multiset<Id>, u: Tid, task: Task, bound: Id)
    requires Inv(fs, ts, pins) && u in ts && (forall j :: j in fs ==> j < bound)
    requires task.filter.Some? && task.filter.value in fs
    requires ts[u].filter.Some? ==> ts[u].filter.value in Chain(fs, task.filter)
    ensures forall id :: id in fs ==> Reachable(Get(fs, task.filter), ts[u := task], pins, id)
  {
    forall id | id in fs ensures Reachable(Get(fs, task.filter), ts[u := task], pins, id) {
      StillReached(fs, ts, pins, u, task, bound, id);
    }
  }

  lemma StillReached(fs: Filters, ts: Tasks, pins: multiset<Id>, u: Tid, task: Task, bound: Id, id: Id)
    requires Inv(fs, ts, pins) && u in ts && (forall j :: j in fs ==> j < bound) && id in fs
    requires task.filter.Some? && task.filter.value in fs
    requires ts[u].filter.Some? ==> ts[u].filter.value in Chain(fs, task.filter)
    ensures Reachable(Get(fs, task.filter), ts[u := task], pins, id)
  {
    var after, ts' := Get(fs, task.filter), ts[u := task];
    RecountShape(fs, ts, task.filter.value, fs[task.filter.value].refs + 1);
    NoLeak(fs, ts, pins, id, bound);
    if t :| t in ts && id in Chain(fs, ts[t].filter) {
      if t == u {
        ChainWithin(fs, ts[u].filter.value, task.filter, id);
        ChainKept(fs, after, task.filter);
        assert ts'[u] == task && id in Chain(after, ts'[u].filter);
      } else {
        assert TaskOk(fs, ts, t);
        ChainKept(fs, after, ts[t].filter);
        assert id in Chain(after, ts'[t].filter);
      }
    } else {
      var p :| p in pins && id in Chain(fs, Some(p));
      ChainKept(fs, after, Some(p));
    }
  }

  lemma InheritTightens(fs: Filters, after: Filters, ts: Tasks, pins: multiset<Id>, child: Tid, task: Task)
    requires Inv(fs, ts, pins) && child !in ts && Survivors(fs, after) && Inv(after, ts[child := task], pins)
    requires task.filter.Some? ==> task.filter.value in fs
    ensures Programs(after, task.filter) == Programs(fs, task.filter)
    ensures Tightened(fs, ts, after, ts[child := task])
  {
    var ts' := ts[child := task];
    forall u | u in ts' ensures Programs(after, ts'[u].filter) == Programs(fs, ts'[u].filter) {
      assert TaskOk(after, ts', u);
      ChainKept(fs, after, ts'[u].filter);
    }
    assert ts'[child] == task;
  }

  // ---- The limits of a chain ----

  ghost function TotalLength(programs: seq<seq<Insn>>): nat {
    if programs == [] then 0 else |programs[0]| + TotalLength(programs[1..])
  }

  /** The instruction limit of a path: all its programs plus a penalty for each further filter. */
  lemma {:induction false} PathLimit(fs: Filters, id: Id)
    requires Linked(fs) && Paths(fs) && id in fs
    ensures fs[id].total == TotalLength(Programs(fs, Some(id))) + PENALTY * (|Chain(fs, Some(id))| - 1) <= MAX_PATH
    decreases id
  {
    assert PathOk(fs, id) && LinkOk(fs, id);
    ChainStep(fs, id);
    ProgramsStep(fs, id);
    assert Programs(fs, Some(id))[1..] == Programs(fs, fs[id].prev);
    if fs[id].prev.Some? { PathLimit(fs, fs[id].prev.value); }
  }

  /** At most one filter of a chain has a listener. */
  lemma {:induction false} OneListener(fs: Filters, head: Option<Id>, i: nat, j: nat)
    requires Linked(fs) && Paths(fs) && i < j < |Chain(fs, head)|
    ensures !(fs[Chain(fs, head)[i]].listener && fs[Chain(fs, head)[j]].listener)
    decreases if head.Some? then head.value + 1 else 0
  {
    var id := head.value;
    assert PathOk(fs, id) && LinkOk(fs, id);
    ChainStep(fs, id);
    if i > 0 {
      OneListener(fs, fs[id].prev, i - 1, j - 1);
    } else {
      assert Chain(fs, fs[id].prev)[j - 1] == Chain(fs, head)[j];
    }
  }

  lemma TightenedSelf(fs: Filters, ts: Tasks)
    ensures Tightened(fs, ts, fs, ts)
  {}

  lemma GetKeys(fs: Filters, f: Option<Id>)
    requires f.Some? ==> f.value in fs
    ensures Get(fs, f).Keys == fs.Keys
  {}

  lemma SurvivorsKeys(fs: Filters, after: Filters)
    requires Survivors(fs, after)
    ensures forall id :: id in after ==> id in fs
  {}

  lemma TaskFilterPresent(fs: Filters, ts: Tasks, pins: multiset<Id>, t: Tid)
    requires Inv(fs, ts, pins) && t in ts
    ensures ts[t].filter.Some? ==> ts[t].filter.value in fs
    ensures ts[t].filter.Some? <==> ts[t].mode == Filtering
    ensures Linked(fs) && Paths(fs)
  {
    assert TaskOk(fs, ts, t);
  }

  lemma SwitchTightens(fs: Filters, ts: Tasks, pins: multiset<Id>, u: Tid, task: Task)
    requires Inv(fs, ts, pins) && u in ts && task.filter.Some? && task.filter.value in fs
    requires Suffix(Programs(fs, ts[u].filter), Programs(fs, task.filter))
    ensures Tightened(fs, ts, Get(fs, task.filter), ts[u := task])
  {
    var after := Get(fs, task.filter);
    RecountShape(fs, ts, task.filter.value, fs[task.filter.value].refs + 1);
    ChainKept(fs, after, task.filter);
    forall t | t in ts && t != u ensures Programs(after, ts[t].filter) == Programs(fs, ts[t].filter) {
      assert TaskOk(fs, ts, t);
      ChainKept(fs, after, ts[t].filter);
    }
  }

  lemma DecisionIs(programs: seq<seq<Insn>>, data: seq<U8>, r: U32, w: int)
    requires Strongest(programs, data, r, w)
    ensures r == ChainDecision(programs, data)
  {
    hide Strongest, ChainDecision;
    var w' := DecisionStrongest(programs, data);
    StrongestUnique(programs, data, r, w, ChainDecision(programs, data), w');
  }

  lemma AllAllow(data: seq<U8>)
    ensures Strongest([], data, ALLOW, -1)
  {}

  /** One older filter more. */
  lemma StrongestNext(programs: seq<seq<Insn>>, program: seq<Insn>, data: seq<U8>, r: U32, w: int)
    requires Strongest(programs, data, r, w)
    ensures var d := Decision(program, data);
            if Rank(d) < Rank(r) then Strongest(programs + [program], data, d, |programs|)
            else Strongest(programs + [program], data, r, w)
  {
    hide Decision;
    var all := programs + [program];
    assert forall i :: 0 <= i < |programs| ==> all[i] == programs[i];
    assert all[|programs|] == program;
    assert forall v: U32 :: Rank(v) <= Rank(ALLOW);
  }

  lemma SurvivorsSelf(fs: Filters)
    ensures Survivors(fs, fs)
  {}

  lemma HeldPresent(fs: Filters, ts: Tasks, left: multiset<Id>, f: Option<Id>)
    requires Inv(fs, ts, left + Held(f))
    ensures f.Some? ==> f.value in fs && fs[f.value].refs > 0
    ensures Linked(fs)
  {
    if f.Some? {
      assert f.value in left + Held(f);
      assert CountOk(fs, ts, left + Held(f), f.value);
    }
  }

  lemma PutDone(fs: Filters, after: Filters, ts: Tasks, left: multiset<Id>, f: Option<Id>, bound: Id)
    requires Inv(fs, ts, left + Held(f)) && Survivors(fs, after) && Inv(after, ts, left) && forall j :: j in fs ==>
        j < bound
    ensures forall id :: id in fs ==> (id in after <==> Reachable(fs, ts, left, id))
    ensures Tightened(fs, ts, after, ts)
    ensures forall t :: t in ts ==> Programs(after, ts[t].filter) == Programs(fs, ts[t].filter)
  {
    forall id | id in fs ensures id in after <==> Reachable(fs, ts, left, id) {
      FreedIffUnreachable(fs, after, ts, left, id, bound);
    }
    SurvivorsTightened(fs, after, ts, left);
  }
}
