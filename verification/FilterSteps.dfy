/** What each elementary change of the filter stack does to the reference counts. */
module FilterSteps {
  import opened Basics
  import opened Bpf
  import opened FilterChains

  function Same(a: Option<Id>, id: Id): nat { if a == Some(id) then 1 else 0 }

  function Held(f: Option<Id>): multiset<Id> { if f.Some? then multiset{f.value} else multiset{} }

  /** The filter a task number stands for, none if there is no such task. */
  function FilterOf(ts: Tasks, t: Tid): Option<Id> { if t in ts then ts[t].filter else None }

  lemma HolderCount(ts: Tasks, t: Tid, task: Task, id: Id)
    ensures |TaskHolders(ts[t := task], id)|
        == |TaskHolders(ts, id)| - Same(FilterOf(ts, t), id) + Same(task.filter, id)
  {
    var before, after := TaskHolders(ts, id), TaskHolders(ts[t := task], id);
    assert before - {t} == after - {t};
    assert t in before <==> FilterOf(ts, t) == Some(id);
    assert t in after <==> task.filter == Some(id);
    OneDiffers(before, after, t);
  }

  lemma ChildAdded(fs: Filters, j: Id, f: Filter, id: Id)
    requires j !in fs
    ensures |Children(fs[j := f], id)| == |Children(fs, id)| + Same(f.prev, id)
  {
    var before, after := Children(fs, id), Children(fs[j := f], id);
    assert j !in before && after - {j} == before;
    assert j !in after ==> after - {j} == after;
  }

  lemma ChildRemoved(fs: Filters, j: Id, id: Id)
    requires j in fs
    ensures |Children(fs - {j}, id)| == |Children(fs, id)| - Same(fs[j].prev, id)
  {
    ChildAdded(fs - {j}, j, fs[j], id);
    assert fs == (fs - {j})[j := fs[j]];
  }

  lemma RefsOnly(fs: Filters, id: Id, refs: nat, j: Id)
    requires id in fs
    ensures Children(fs[id := fs[id].(refs := refs)], j) == Children(fs, j)
  {}

  /** Another count on one filter. */
  function Recount(fs: Filters, id: Id, refs: nat): Filters
    requires id in fs
  {
    fs[id := fs[id].(refs := refs)]
  }

  /** Everything but the counts survives a change of one count. */
  lemma RecountShape(fs: Filters, ts: Tasks, id: Id, refs: nat)
    requires id in fs && Linked(fs) && Paths(fs) && TasksOk(fs, ts)
    ensures Survivors(fs, Recount(fs, id, refs)) && Linked(Recount(fs, id, refs))
    ensures Paths(Recount(fs, id, refs)) && TasksOk(Recount(fs, id, refs), ts)
  {
    var after := Recount(fs, id, refs);
    forall j ensures LinkOk(after, j) { assert LinkOk(fs, j); }
    forall j ensures PathOk(after, j) {
      assert PathOk(fs, j) && LinkOk(fs, j);
      if j in fs { ChainKept(fs, after, fs[j].prev); }
    }
    forall t ensures TaskOk(after, ts, t) { assert TaskOk(fs, ts, t); }
  }

  /** Dropping a reference that is not the last. */
  lemma DropShared(fs: Filters, ts: Tasks, pins: multiset<Id>, id: Id)
    requires Inv(fs, ts, pins + multiset{id}) && id in fs && fs[id].refs > 1
    ensures Inv(Recount(fs, id, fs[id].refs - 1), ts, pins) && Survivors(fs, Recount(fs, id, fs[id].refs - 1))
  {
    var after := Recount(fs, id, fs[id].refs - 1);
    RecountShape(fs, ts, id, fs[id].refs - 1);
    forall j ensures CountOk(after, ts, pins, j) {
      hide Children, TaskHolders;
      assert CountOk(fs, ts, pins + multiset{id}, j);
      RefsOnly(fs, id, fs[id].refs - 1, j);
    }
    forall j | j in pins ensures j in after { assert j in pins + multiset{id}; }
  }

  /** A filter whose last reference goes is on no chain but its own. */
  lemma LastRef(fs: Filters, ts: Tasks, pins: multiset<Id>, id: Id)
    requires Inv(fs, ts, pins + multiset{id}) && id in fs && fs[id].refs == 1
    ensures TaskHolders(ts, id) == {} && Children(fs, id) == {} && id !in pins
  {
    hide Children, TaskHolders;
    assert CountOk(fs, ts, pins + multiset{id}, id);
    assert (pins + multiset{id})[id] == pins[id] + 1;
  }

  /** Removing it leaves a well-formed stack. */
  lemma RemovedShape(fs: Filters, ts: Tasks, id: Id)
    requires Linked(fs) && Paths(fs) && TasksOk(fs, ts) && id in fs
    requires TaskHolders(ts, id) == {} && Children(fs, id) == {}
    ensures Survivors(fs, fs - {id}) && Linked(fs - {id}) && Paths(fs - {id}) && TasksOk(fs - {id}, ts)
  {
    var after := fs - {id};
    forall j ensures LinkOk(after, j) {
      assert LinkOk(fs, j);
      assert j !in Children(fs, id);
    }
    forall j ensures PathOk(after, j) {
      assert PathOk(fs, j) && LinkOk(fs, j) && LinkOk(after, j);
      if j in after { ChainKept(fs, after, fs[j].prev); }
    }
    forall t ensures TaskOk(after, ts, t) {
      assert TaskOk(fs, ts, t);
      assert t !in TaskHolders(ts, id);
    }
  }

  /** Dropping the last reference frees the filter and passes its reference on to the previous one. */
  lemma DropLast(fs: Filters, ts: Tasks, pins: multiset<Id>, id: Id)
    requires Inv(fs, ts, pins + multiset{id}) && id in fs && fs[id].refs == 1
    ensures Survivors(fs, fs - {id}) && Inv(fs - {id}, ts, pins + Held(fs[id].prev))
    ensures fs[id].prev.Some? ==> fs[id].prev.value in fs - {id} && fs[id].prev.value < id
  {
    var after := fs - {id};
    var pins' := pins + Held(fs[id].prev);
    LastRef(fs, ts, pins, id);
    RemovedShape(fs, ts, id);
    assert LinkOk(fs, id);
    forall j ensures CountOk(after, ts, pins', j) {
      hide Children, TaskHolders;
      assert CountOk(fs, ts, pins + multiset{id}, j);
      ChildRemoved(fs, id, j);
      assert pins'[j] == pins[j] + Same(fs[id].prev, j);
    }
    forall j | j in pins' ensures j in after {
      assert j in pins ==> j in pins + multiset{id};
    }
  }

  function Get(fs: Filters, f: Option<Id>): Filters
    requires f.Some? ==> f.value in fs
  {
    if f.Some? then Recount(fs, f.value, fs[f.value].refs + 1) else fs
  }

  /** A task takes a reference to another filter; the reference it held is now in hand. */
  lemma SwitchKeeps(fs: Filters, ts: Tasks, pins: multiset<Id>, t: Tid, task: Task)
    requires
      && Inv(fs, ts, pins) && (task.filter.Some? <==> task.mode == Filtering)
      && (task.filter.Some? ==> task.filter.value in fs)
    ensures Survivors(fs, Get(fs, task.filter))
    ensures Inv(Get(fs, task.filter), ts[t := task], pins + Held(FilterOf(ts, t)))
  {
    var after, ts' := Get(fs, task.filter), ts[t := task];
    var pins' := pins + Held(FilterOf(ts, t));
    if task.filter.Some? { RecountShape(fs, ts, task.filter.value, fs[task.filter.value].refs + 1); }
    assert TaskOk(fs, ts, t);
    forall u ensures TaskOk(after, ts', u) { assert TaskOk(after, ts, u); }
    forall j ensures CountOk(after, ts', pins', j) {
      hide Children, TaskHolders;
      assert CountOk(fs, ts, pins, j);
      HolderCount(ts, t, task, j);
      if task.filter.Some? { RefsOnly(fs, task.filter.value, fs[task.filter.value].refs + 1, j); }
      assert pins'[j] == pins[j] + Same(FilterOf(ts, t), j);
    }
    forall j | j in pins' ensures j in after { assert j in pins || FilterOf(ts, t) == Some(j); }
  }

  /** A task keeps its filter while its other fields change. */
  lemma SameFilterKeeps(fs: Filters, ts: Tasks, pins: multiset<Id>, t: Tid, task: Task)
    requires
      && Inv(fs, ts, pins) && t in ts && task.filter == ts[t].filter && (task.filter.Some? <==> task.mode == Filtering)
    ensures Inv(fs, ts[t := task], pins)
  {
    var ts' := ts[t := task];
    forall u ensures TaskOk(fs, ts', u) { assert TaskOk(fs, ts, u); }
    forall j ensures CountOk(fs, ts', pins, j) {
      assert CountOk(fs, ts, pins, j);
      assert TaskHolders(ts', j) == TaskHolders(ts, j);
    }
  }

  /** A caller takes a reference. */
  lemma PinKeeps(fs: Filters, ts: Tasks, pins: multiset<Id>, id: Id)
    requires Inv(fs, ts, pins) && id in fs
    ensures
      && Inv(Recount(fs, id, fs[id].refs + 1), ts, pins + multiset{id})
      && Survivors(fs, Recount(fs, id, fs[id].refs + 1))
  {
    var after := Recount(fs, id, fs[id].refs + 1);
    RecountShape(fs, ts, id, fs[id].refs + 1);
    forall j ensures CountOk(after, ts, pins + multiset{id}, j) {
      hide Children, TaskHolders;
      assert CountOk(fs, ts, pins, j);
      RefsOnly(fs, id, fs[id].refs + 1, j);
    }
    forall j | j in pins + multiset{id} ensures j in after { assert j in pins || j == id; }
  }

  function TotalWith(fs: Filters, prev: Option<Id>, program: seq<Insn>): nat
    requires prev.Some? ==> prev.value in fs
  {
    |program| + if prev.Some? then PENALTY + fs[prev.value].total else 0
  }

  /** A new filter on top of a task's chain: the task's reference moves to the new filter's link. */
  lemma PushKeeps(fs: Filters, ts: Tasks, pins: multiset<Id>, t: Tid, task: Task, id: Id, f: Filter)
    requires Inv(fs, ts, pins) && t in ts && id !in fs && (forall j :: j in fs ==> j < id)
    requires f.refs == 1 && f.prev == ts[t].filter && Accepted(f.program, MAX_INSNS)
    requires f.prev.Some? ==> f.prev.value in fs
    requires f.total == TotalWith(fs, f.prev, f.program) <= MAX_PATH && (f.listener ==> !HasListener(fs, f.prev))
    requires task.filter == Some(id) && task.mode == Filtering
    ensures Inv(fs[id := f], ts[t := task], pins)
    ensures Programs(fs[id := f], Some(id)) == [f.program] + Programs(fs, f.prev)
  {
    var after, ts' := fs[id := f], ts[t := task];
    forall j ensures LinkOk(after, j) { assert LinkOk(fs, j); }
    forall j ensures PathOk(after, j) {
      assert PathOk(fs, j) && LinkOk(fs, j);
      if j in after { ChainExtended(fs, id, f, after[j].prev); }
    }
    forall u ensures TaskOk(after, ts', u) { assert TaskOk(fs, ts, u); }
    PushCounts(fs, ts, pins, t, task, id, f);
    ProgramsStep(after, id);
    ChainExtended(fs, id, f, f.prev);
  }

  lemma PushCounts(fs: Filters, ts: Tasks, pins: multiset<Id>, t: Tid, task: Task, id: Id, f: Filter)
    requires Inv(fs, ts, pins) && t in ts && id !in fs
    requires f.refs == 1 && f.prev == ts[t].filter && task.filter == Some(id)
    ensures Counted(fs[id := f], ts[t := task], pins)
  {
    var after, ts' := fs[id := f], ts[t := task];
    assert forall u :: TaskOk(fs, ts, u) ==> u !in TaskHolders(ts, id);
    assert TaskHolders(ts, id) == {} by { forall u ensures u !in TaskHolders(ts, id) { assert TaskOk(fs, ts, u); } }
    assert Children(fs, id) == {} by { forall j ensures j !in Children(fs, id) { assert j in fs ==> LinkOk(fs, j); } }
    forall j ensures CountOk(after, ts', pins, j) {
      hide Children, TaskHolders;
      assert CountOk(fs, ts, pins, j);
      HolderCount(ts, t, task, j);
      ChildAdded(fs, id, f, j);
      assert f.prev != Some(id) by { assert TaskOk(fs, ts, t); }
      assert id !in pins;
    }
  }
}
