/**
 The seccomp filter stack as data: filters linked from newest to oldest, shared between
 tasks and counted by reference.
 */
module FilterChains {
  import opened Basics
  import opened Bpf

  type Id = nat
  type Tid = nat

  const MAX_INSNS: nat := 4096         // per filter
  const MAX_PATH: nat := 32768         // instructions along one chain, 2^18 bytes of 8 each
  const PENALTY: nat := 4              // charged for every further filter of a chain

  datatype Mode = Disabled | Strict | Filtering
  datatype Task = Task(mode: Mode, filter: Option<Id>, noNewPrivs: bool, zombie: bool)
  datatype Filter = Filter(refs: nat, program: seq<Insn>, total: nat, logs: bool, prev: Option<Id>, listener: bool)

  type Filters = map<Id, Filter>
  type Tasks = map<Tid, Task>

  // ---- Chains ----

  /** A filter points to an older one that is still there. */
  ghost predicate LinkOk(fs: Filters, id: Id) {
    id in fs && fs[id].prev.Some? ==> fs[id].prev.value in fs && fs[id].prev.value < id
  }

  ghost predicate Linked(fs: Filters) {
    forall id {:trigger LinkOk(fs, id)} :: LinkOk(fs, id)
  }

  ghost function Chain(fs: Filters, head: Option<Id>): (c: seq<Id>)
    ensures forall i :: 0 <= i < |c| ==> c[i] in fs
    decreases if head.Some? then head.value + 1 else 0
  {
    if head.None? || head.value !in fs then []
    else
      var prev := fs[head.value].prev;
      [head.value] + if prev.Some? && prev.value >= head.value then [] else Chain(fs, prev)
  }

  lemma ChainStep(fs: Filters, id: Id)
    requires Linked(fs) && id in fs
    ensures Chain(fs, Some(id)) == [id] + Chain(fs, fs[id].prev)
  {
    assert LinkOk(fs, id);
  }

  ghost function ProgramsOf(fs: Filters, c: seq<Id>): seq<seq<Insn>>
    requires forall i :: 0 <= i < |c| ==> c[i] in fs
  {
    seq(|c|, i requires 0 <= i < |c| => fs[c[i]].program)
  }

  /** The programs of a chain, newest first. */
  ghost function Programs(fs: Filters, head: Option<Id>): (p: seq<seq<Insn>>)
    ensures |p| == |Chain(fs, head)|
  {
    ProgramsOf(fs, Chain(fs, head))
  }

  lemma ProgramsStep(fs: Filters, id: Id)
    requires Linked(fs) && id in fs
    ensures Programs(fs, Some(id)) == [fs[id].program] + Programs(fs, fs[id].prev)
  {
    ChainStep(fs, id);
    assert Chain(fs, Some(id))[1..] == Chain(fs, fs[id].prev);
  }

  ghost predicate HasListener(fs: Filters, head: Option<Id>) {
    exists i :: 0 <= i < |Chain(fs, head)| && fs[Chain(fs, head)[i]].listener
  }

  lemma HasListenerStep(fs: Filters, id: Id)
    requires Linked(fs) && id in fs
    ensures HasListener(fs, Some(id)) <==> fs[id].listener || HasListener(fs, fs[id].prev)
  {
    ChainStep(fs, id);
    var c, d := Chain(fs, Some(id)), Chain(fs, fs[id].prev);
    assert c[0] == id && forall i :: 0 <= i < |d| ==> d[i] == c[i + 1];
    if HasListener(fs, Some(id)) && !fs[id].listener {
      var i :| 0 <= i < |c| && fs[c[i]].listener;
      assert fs[d[i - 1]].listener;
    }
  }

  /** Of two chains with a common tail, one is a suffix of the other. */
  ghost predicate Suffix<T>(s: seq<T>, t: seq<T>) {
    |s| <= |t| && t[|t| - |s|..] == s
  }

  /** An ancestor's programs end every chain it is part of. */
  lemma {:induction false} AncestorSuffix(fs: Filters, ancestor: Id, head: Option<Id>)
    requires Linked(fs) && ancestor in Chain(fs, head)
    ensures Suffix(Programs(fs, Some(ancestor)), Programs(fs, head))
    decreases if head.Some? then head.value + 1 else 0
  {
    if head.value != ancestor {
      assert LinkOk(fs, head.value);
      ChainStep(fs, head.value);
      ProgramsStep(fs, head.value);
      AncestorSuffix(fs, ancestor, fs[head.value].prev);
    }
  }

  // ---- Survivors ----

  predicate SameFilter(a: Filter, b: Filter) { a.(refs := 0) == b.(refs := 0) }

  /** Some filters of fs are gone in after; the others differ in their counts only. */
  ghost predicate Survivors(fs: Filters, after: Filters) {
    after.Keys <= fs.Keys && forall id {:trigger after[id]} :: id in after ==> SameFilter(fs[id], after[id])
  }

  lemma SurvivorsTransitive(a: Filters, b: Filters, c: Filters)
    requires Survivors(a, b) && Survivors(b, c)
    ensures Survivors(a, c)
  {
    forall id | id in c ensures SameFilter(a[id], c[id]) { assert SameFilter(a[id], b[id]); }
  }

  /** The chain of a survivor survives whole. */
  lemma {:induction false} ChainKept(fs: Filters, after: Filters, head: Option<Id>)
    requires Linked(fs) && Linked(after) && Survivors(fs, after) && (head.Some? ==> head.value in after)
    ensures Chain(after, head) == Chain(fs, head) && Programs(after, head) == Programs(fs, head)
    ensures HasListener(after, head) <==> HasListener(fs, head)
    decreases if head.Some? then head.value + 1 else 0
  {
    if head.Some? {
      var id := head.value;
      assert LinkOk(fs, id) && LinkOk(after, id) && SameFilter(fs[id], after[id]);
      ChainKept(fs, after, fs[id].prev);
      ChainStep(fs, id);
      ChainStep(after, id);
      ProgramsStep(fs, id);
      ProgramsStep(after, id);
      HasListenerStep(fs, id);
      HasListenerStep(after, id);
    }
  }

  /** Adding a filter under a new number leaves every chain as it was. */
  lemma {:induction false} ChainExtended(fs: Filters, id: Id, f: Filter, head: Option<Id>)
    requires Linked(fs) && id !in fs && Linked(fs[id := f]) && (head.Some? ==> head.value in fs)
    ensures Chain(fs[id := f], head) == Chain(fs, head) && Programs(fs[id := f], head) == Programs(fs, head)
    ensures HasListener(fs[id := f], head) <==> HasListener(fs, head)
  {
    ChainKept(fs[id := f], fs, head);
  }

  // ---- References ----

  ghost function TaskHolders(ts: Tasks, id: Id): set<Tid> { set t | t in ts && ts[t].filter == Some(id) }

  ghost function Children(fs: Filters, id: Id): set<Id> { set j | j in fs && fs[j].prev == Some(id) }

  /** One reference for each task, each newer filter and each caller that holds the filter. */
  ghost predicate CountOk(fs: Filters, ts: Tasks, pins: multiset<Id>, id: Id) {
    id in fs ==> 0 < fs[id].refs == |TaskHolders(ts, id)| + |Children(fs, id)| + pins[id]
  }

  ghost predicate Counted(fs: Filters, ts: Tasks, pins: multiset<Id>) {
    forall id {:trigger CountOk(fs, ts, pins, id)} :: CountOk(fs, ts, pins, id)
  }

  /** The limits checked at installation hold along every chain. */
  ghost predicate PathOk(fs: Filters, id: Id) {
    id in fs ==>
      var f := fs[id];
      && Accepted(f.program, MAX_INSNS) && f.total <= MAX_PATH
      && (f.prev.Some? ==> f.prev.value in fs && f.total == |f.program| + PENALTY + fs[f.prev.value].total)
      && (f.prev.None? ==> f.total == |f.program|)
      && (f.listener ==> !HasListener(fs, f.prev))
  }

  ghost predicate Paths(fs: Filters) {
    forall id {:trigger PathOk(fs, id)} :: PathOk(fs, id)
  }

  ghost predicate TaskOk(fs: Filters, ts: Tasks, t: Tid) {
    t in ts ==> (ts[t].filter.Some? <==> ts[t].mode == Filtering) && (ts[t].filter.Some? ==> ts[t].filter.value in fs)
  }

  ghost predicate TasksOk(fs: Filters, ts: Tasks) {
    forall t {:trigger TaskOk(fs, ts, t)} :: TaskOk(fs, ts, t)
  }

  ghost predicate PinsOk(fs: Filters, pins: multiset<Id>) {
    forall id :: id in pins ==> id in fs
  }

  ghost predicate Inv(fs: Filters, ts: Tasks, pins: multiset<Id>) {
    Linked(fs) && Counted(fs, ts, pins) && Paths(fs) && TasksOk(fs, ts) && PinsOk(fs, pins)
  }

  // ---- No leak ----

  /** id is on the chain of a task or of a caller. */
  ghost predicate Reachable(fs: Filters, ts: Tasks, pins: multiset<Id>, id: Id) {
    || (exists t :: t in ts && id in Chain(fs, ts[t].filter))
    || (exists p :: p in pins && id in Chain(fs, Some(p)))
  }

  lemma {:induction false} LinkOnChain(fs: Filters, head: Option<Id>, j: Id, id: Id)
    requires Linked(fs) && j in Chain(fs, head) && j in fs && fs[j].prev == Some(id)
    ensures id in Chain(fs, head)
    decreases if head.Some? then head.value + 1 else 0
  {
    var h := head.value;
    ChainStep(fs, h);
    assert LinkOk(fs, h) && LinkOk(fs, j);
    if h == j {
      ChainStep(fs, id);
      assert id in Chain(fs, Some(id));
    } else {
      LinkOnChain(fs, fs[h].prev, j, id);
    }
  }

  /** Every filter still allocated is in use: none is leaked. */
  lemma {:induction false} NoLeak(fs: Filters, ts: Tasks, pins: multiset<Id>, id: Id, bound: Id)
    requires Inv(fs, ts, pins) && id in fs && forall j :: j in fs ==> j < bound
    ensures Reachable(fs, ts, pins, id)
    decreases bound - id
  {
    assert CountOk(fs, ts, pins, id);
    ChainStep(fs, id);
    if pins[id] > 0 {
      assert id in pins && id in Chain(fs, Some(id));
    } else if TaskHolders(ts, id) != {} {
      var t :| t in TaskHolders(ts, id);
      assert id in Chain(fs, ts[t].filter);
    } else {
      assert |Children(fs, id)| > 0;
      var j :| j in Children(fs, id);
      assert LinkOk(fs, j);
      NoLeak(fs, ts, pins, j, bound);
      if t :| t in ts && j in Chain(fs, ts[t].filter) {
        LinkOnChain(fs, ts[t].filter, j, id);
      } else {
        var p :| p in pins && j in Chain(fs, Some(p));
        LinkOnChain(fs, Some(p), j, id);
      }
    }
  }
}
