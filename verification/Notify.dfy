/**
 The user-notification protocol of seccomp as a state machine.  Each action is what one party
 does under the listener's lock; what it does with the lock dropped (copying a message out,
 installing a descriptor) is an operation in flight that a later action completes.
 */
module Notify {
  import opened Basics

  type Id = nat
  type OpId = nat

  datatype Phase = Fresh | Sent | Replied
  datatype Response = Response(id: Id, val: int, error: int, proceed: bool)
  datatype Item = Item(phase: Phase, active: nat, response: Option<Response>)
  datatype Op = AddFd(id: Id, send: bool) | CopyOut(id: Id)
  datatype Outcome = Proceed | Value(v: int) | NoSys | Restart

  datatype State = State(
    next: Id,
    detached: bool,
    items: map<Id, Item>,              // notifications on the queue
    queue: seq<Id>,                    // their order
    ops: map<OpId, Op>,                // operations in flight
    replies: map<Id, seq<Response>>,   // history: replies accepted, by notification
    outcomes: map<Id, Outcome>)        // history: how waiters resumed

  datatype Action =
    | Enqueue                          // a task starts to wait
    | Recv(op: OpId)                   // the supervisor takes the oldest fresh notification
    | RecvEnd(op: OpId, fault: bool)   // ... and has copied it out, or failed to
    | Send(response: Response)
    | AddStart(op: OpId, id: Id, send: bool)
    | AddEnd(op: OpId, fd: int)
    | Detach
    | Wait(id: Id, signal: bool)       // a waiter looks at its notification

  function Init(): State { State(1, false, map[], [], map[], map[], map[]) }

  predicate ResponseValid(r: Response) { r.proceed ==> r.error == 0 && r.val == 0 }

  /** Position of the oldest fresh notification. */
  ghost predicate OldestFresh(s: State, k: nat) {
    && k < |s.queue| && s.queue[k] in s.items && s.items[s.queue[k]].phase == Fresh
    && forall j :: 0 <= j < k && s.queue[j] in s.items ==> s.items[s.queue[j]].phase != Fresh
  }

  ghost predicate Enabled(s: State, a: Action) {
    match a
    case Enqueue => true
    case Recv(op) => op !in s.ops && exists k :: OldestFresh(s, k)
    case RecvEnd(op, _) => op in s.ops && s.ops[op].CopyOut?
    case Send(r) => ResponseValid(r) && !s.detached && r.id in s.items && s.items[r.id].phase == Sent
    case AddStart(op, id, send) =>
      op !in s.ops && !s.detached && id in s.items && s.items[id].phase == Sent && (send ==> s.items[id].active == 0)
    case AddEnd(op, _) => op in s.ops && s.ops[op].AddFd? && s.ops[op].id in s.items && s.items[s.ops[op].id].active > 0
    case Detach => true
    case Wait(id, signal) =>
      id in s.items && s.items[id].active == 0 && (s.items[id].phase == Replied || s.detached || signal)
  }

  function Resumed(r: Response): Outcome {
    if r.proceed then Proceed else Value(if r.error != 0 then r.error else r.val)
  }

  /** The response field of a notification; it starts as zeros. */
  function Stored(item: Item): Response {
    if item.response.Some? then item.response.value else Response(0, 0, 0, false)
  }

  function Accepted(s: State, r: Response): map<Id, seq<Response>> {
    s.replies[r.id := (if r.id in s.replies then s.replies[r.id] else []) + [r]]
  }

  ghost function Next(s: State, a: Action): State
    requires Enabled(s, a)
  {
    match a
    case Enqueue =>
      var id := s.next + 1;
      if s.detached then s.(next := id, outcomes := s.outcomes[id := NoSys])
      else s.(next := id, items := s.items[id := Item(Fresh, 0, None)], queue := s.queue + [id])
    case Recv(op) =>
      var k: nat :| OldestFresh(s, k);
      var id := s.queue[k];
      s.(items := s.items[id := s.items[id].(phase := Sent)], ops := s.ops[op := CopyOut(id)])
    case RecvEnd(op, fault) =>
      var id := s.ops[op].id;
      var items := if fault && id in s.items && s.items[id].phase == Sent
          then s.items[id := s.items[id].(phase := Fresh)] else s.items;
      s.(items := items, ops := s.ops - {op})
    case Send(r) =>
      s.(items := s.items[r.id := s.items[r.id].(phase := Replied, response := Some(r))], replies := Accepted(s, r))
    case AddStart(op, id, send) =>
      var item := s.items[id];
      s.(items := s.items[id := Item(if send then Replied else item.phase, item.active + 1, item.response)],
         ops := s.ops[op := AddFd(id, send)])
    case AddEnd(op, fd) =>
      var id := s.ops[op].id;
      var item := s.items[id].(active := s.items[id].active - 1);
      if !s.ops[op].send then s.(items := s.items[id := item], ops := s.ops - {op})
      else if fd < 0 then s.(items := s.items[id := item.(phase := Sent)], ops := s.ops - {op})
      else
        var r := Response(id, fd, 0, false);
        s.(items := s.items[id := item.(response := Some(r))], ops := s.ops - {op}, replies := Accepted(s, r))
    case Detach => s.(detached := true)
    case Wait(id, _) =>
      var item := s.items[id];
      var outcome := if item.phase == Replied then Resumed(Stored(item)) else if s.detached then NoSys else Restart;
      s.(items := s.items - {id}, queue := Without(s.queue, id), outcomes := s.outcomes[id := outcome])
  }

  // ---- What every action keeps ----

  ghost function OpsOn(ops: map<OpId, Op>, id: Id): set<OpId> {
    set op | op in ops && ops[op].AddFd? && ops[op].id == id
  }

  ghost predicate SendInFlight(ops: map<OpId, Op>, id: Id) { exists op :: op in ops && ops[op] == AddFd(id, true) }

  ghost function Replies(s: State, id: Id): seq<Response> { if id in s.replies then s.replies[id] else [] }

  ghost predicate ItemOk(s: State, id: Id) {
    id in s.items ==>
      var item := s.items[id];
      && item.active == |OpsOn(s.ops, id)| && id !in s.outcomes && id in s.queue
      && (SendInFlight(s.ops, id) ==> item.phase == Replied && item.active == 1 && Replies(s, id) == [])
      && (item.phase == Replied && !SendInFlight(s.ops, id) ==>
            item.response.Some? && item.response.value.id == id && Replies(s, id) == [item.response.value])
      && (item.phase != Replied ==> Replies(s, id) == [])
  }

  /** A descriptor is only ever being installed for a notification that is still queued. */
  ghost predicate OpOk(s: State, op: OpId) { op in s.ops && s.ops[op].AddFd? ==> s.ops[op].id in s.items }

  /** A waiter resumed with what the one reply to it said, or without one. */
  ghost predicate OutcomeOk(s: State, id: Id) {
    id in s.outcomes ==>
      match s.outcomes[id]
      case NoSys => Replies(s, id) == []
      case Restart => Replies(s, id) == []
      case _ => |Replies(s, id)| == 1 && Replies(s, id)[0].id == id && s.outcomes[id] == Resumed(Replies(s, id)[0])
  }

  ghost predicate NumberOk(s: State, id: Id) { id > s.next ==> id !in s.items && id !in s.replies && id !in s.outcomes }

  ghost predicate Inv(s: State) {
    && (forall id {:trigger ItemOk(s, id)} :: ItemOk(s, id))
    && (forall op {:trigger OpOk(s, op)} :: OpOk(s, op))
    && (forall id {:trigger OutcomeOk(s, id)} :: OutcomeOk(s, id))
    && (forall id {:trigger NumberOk(s, id)} :: NumberOk(s, id))
  }

  lemma OpAdded(ops: map<OpId, Op>, op: OpId, o: Op, id: Id)
    requires op !in ops
    ensures |OpsOn(ops[op := o], id)| == |OpsOn(ops, id)| + if o.AddFd? && o.id == id then 1 else 0
    ensures SendInFlight(ops[op := o], id) <==> SendInFlight(ops, id) || o == AddFd(id, true)
  {
    if o.AddFd? && o.id == id {
      assert OpsOn(ops[op := o], id) == OpsOn(ops, id) + {op};
    } else {
      assert OpsOn(ops[op := o], id) == OpsOn(ops, id);
    }
    if SendInFlight(ops, id) {
      var x :| x in ops && ops[x] == AddFd(id, true);
      assert ops[op := o][x] == AddFd(id, true);
    }
    if o == AddFd(id, true) { assert ops[op := o][op] == AddFd(id, true); }
  }

  lemma OpRemoved(ops: map<OpId, Op>, op: OpId, id: Id)
    requires op in ops
    ensures |OpsOn(ops - {op}, id)| == |OpsOn(ops, id)| - if ops[op].AddFd? && ops[op].id == id then 1 else 0
    ensures SendInFlight(ops, id) <==> SendInFlight(ops - {op}, id) || ops[op] == AddFd(id, true)
  {
    OpAdded(ops - {op}, op, ops[op], id);
    assert ops == (ops - {op})[op := ops[op]];
  }

  /** With one operation on an item, a send in flight is that operation. */
  lemma OnlyOp(ops: map<OpId, Op>, op: OpId, id: Id)
    requires op in ops && ops[op].AddFd? && ops[op].id == id && |OpsOn(ops, id)| == 1
    ensures !SendInFlight(ops - {op}, id)
  {
    OpRemoved(ops, op, id);
    NoneActive(ops - {op}, id);
  }

  lemma KeepEnqueue(s: State)
    requires Inv(s)
    ensures Inv(Next(s, Enqueue))
  {
    hide OpsOn, SendInFlight;
    var s', n := Next(s, Enqueue), s.next + 1;
    assert NumberOk(s, n);
    NobodyYet(s, n);
    forall id ensures ItemOk(s', id) && OutcomeOk(s', id) && NumberOk(s', id) {
      assert ItemOk(s, id) && OutcomeOk(s, id) && NumberOk(s, id);
    }
    forall op ensures OpOk(s', op) { assert OpOk(s, op); }
  }

  lemma NobodyYet(s: State, id: Id)
    requires Inv(s) && id !in s.items
    ensures OpsOn(s.ops, id) == {} && !SendInFlight(s.ops, id)
  {
    forall op ensures op !in OpsOn(s.ops, id) && !(op in s.ops && s.ops[op] == AddFd(id, true)) { assert OpOk(s, op); }
  }

  lemma KeepRecv(s: State, a: Action)
    requires Inv(s) && Enabled(s, a) && a.Recv?
    ensures Inv(Next(s, a))
  {
    hide OpsOn, SendInFlight;
    var s' := Next(s, a);
    var k: nat :| OldestFresh(s, k)
        && s' == s.(items := s.items[s.queue[k] := s.items[s.queue[k]].(phase := Sent)],
                    ops := s.ops[a.op := CopyOut(s.queue[k])]);
    forall id ensures ItemOk(s', id) && OutcomeOk(s', id) && NumberOk(s', id) {
      assert ItemOk(s, id) && OutcomeOk(s, id) && NumberOk(s, id);
      OpAdded(s.ops, a.op, CopyOut(s.queue[k]), id);
    }
    forall op ensures OpOk(s', op) { assert OpOk(s, op); }
  }

  lemma KeepRecvEnd(s: State, a: Action)
    requires Inv(s) && Enabled(s, a) && a.RecvEnd?
    ensures Inv(Next(s, a))
  {
    hide OpsOn, SendInFlight;
    var s' := Next(s, a);
    forall id ensures ItemOk(s', id) && OutcomeOk(s', id) && NumberOk(s', id) {
      assert ItemOk(s, id) && OutcomeOk(s, id) && NumberOk(s, id);
      OpRemoved(s.ops, a.op, id);
    }
    forall op ensures OpOk(s', op) { assert OpOk(s, op); }
  }

  lemma KeepSend(s: State, a: Action)
    requires Inv(s) && Enabled(s, a) && a.Send?
    ensures Inv(Next(s, a))
  {
    hide OpsOn, SendInFlight;
    var s' := Next(s, a);
    assert ItemOk(s, a.response.id);
    forall id ensures ItemOk(s', id) && OutcomeOk(s', id) && NumberOk(s', id) {
      assert ItemOk(s, id) && OutcomeOk(s, id) && NumberOk(s, id);
    }
    forall op ensures OpOk(s', op) { assert OpOk(s, op); }
  }

  lemma KeepAddStart(s: State, a: Action)
    requires Inv(s) && Enabled(s, a) && a.AddStart?
    ensures Inv(Next(s, a))
  {
    hide OpsOn, SendInFlight;
    var s' := Next(s, a);
    forall id ensures ItemOk(s', id) && OutcomeOk(s', id) && NumberOk(s', id) {
      assert ItemOk(s, id) && OutcomeOk(s, id) && NumberOk(s, id);
      OpAdded(s.ops, a.op, AddFd(a.id, a.send), id);
    }
    forall op ensures OpOk(s', op) { assert OpOk(s, op); }
  }

  lemma KeepAddEnd(s: State, a: Action)
    requires Inv(s) && Enabled(s, a) && a.AddEnd?
    ensures Inv(Next(s, a))
  {
    hide OpsOn, SendInFlight;
    var s' := Next(s, a);
    var here := s.ops[a.op].id;
    assert ItemOk(s, here);
    SendSeen(s.ops, a.op);
    if s.ops[a.op].send { OnlyOp(s.ops, a.op, here); }
    forall id ensures ItemOk(s', id) && OutcomeOk(s', id) && NumberOk(s', id) {
      assert ItemOk(s, id) && OutcomeOk(s, id) && NumberOk(s, id);
      OpRemoved(s.ops, a.op, id);
      if id == here && SendInFlight(s.ops, id) { OnlyOp(s.ops, a.op, id); }
    }
    forall op ensures OpOk(s', op) { assert OpOk(s, op); }
  }

  lemma SendSeen(ops: map<OpId, Op>, op: OpId)
    requires op in ops && ops[op].AddFd?
    ensures ops[op].send ==> SendInFlight(ops, ops[op].id)
  {}

  lemma KeepWait(s: State, a: Action)
    requires Inv(s) && Enabled(s, a) && a.Wait?
    ensures Inv(Next(s, a))
  {
    var s' := Next(s, a);
    assert ItemOk(s, a.id) && NumberOk(s, a.id);
    NoneActive(s.ops, a.id);
    hide OpsOn, SendInFlight, Without;
    forall id ensures ItemOk(s', id) && OutcomeOk(s', id) && NumberOk(s', id) {
      assert ItemOk(s, id) && OutcomeOk(s, id) && NumberOk(s, id);
      InWithout(s.queue, a.id, id);
    }
    forall op ensures OpOk(s', op) {
      assert OpOk(s, op);
      NotOn(s.ops, op, a.id);
    }
  }

  lemma NoneActive(ops: map<OpId, Op>, id: Id)
    requires |OpsOn(ops, id)| == 0
    ensures OpsOn(ops, id) == {} && !SendInFlight(ops, id)
  {
    assert forall x :: x in ops && ops[x] == AddFd(id, true) ==> x in OpsOn(ops, id);
  }

  lemma NotOn(ops: map<OpId, Op>, op: OpId, id: Id)
    requires OpsOn(ops, id) == {}
    ensures op in ops && ops[op].AddFd? ==> ops[op].id != id
  {
    assert op !in OpsOn(ops, id);
  }

  lemma KeepDetach(s: State)
    requires Inv(s)
    ensures Inv(Next(s, Detach))
  {
    hide OpsOn, SendInFlight;
    var s' := Next(s, Detach);
    forall id ensures ItemOk(s', id) && OutcomeOk(s', id) && NumberOk(s', id) {
      assert ItemOk(s, id) && OutcomeOk(s, id) && NumberOk(s, id);
    }
    forall op ensures OpOk(s', op) { assert OpOk(s, op); }
  }

  lemma StepKeeps(s: State, a: Action)
    requires Inv(s) && Enabled(s, a)
    ensures Inv(Next(s, a))
  {
    hide Inv, Next;
    match a
    case Enqueue => KeepEnqueue(s);
    case Recv(_) => KeepRecv(s, a);
    case RecvEnd(_, _) => KeepRecvEnd(s, a);
    case Send(_) => KeepSend(s, a);
    case AddStart(_, _, _) => KeepAddStart(s, a);
    case AddEnd(_, _) => KeepAddEnd(s, a);
    case Detach => KeepDetach(s);
    case Wait(_, _) => KeepWait(s, a);
  }

  // ---- Every interleaving ----

  ghost predicate Steps(s: State, s': State) { exists a :: Enabled(s, a) && s' == Next(s, a) }

  ghost predicate IsRun(run: seq<State>) {
    |run| > 0 && run[0] == Init() && forall k :: 0 <= k < |run| - 1 ==> Steps(run[k], run[k + 1])
  }

  lemma {:induction false} RunInv(run: seq<State>)
    requires IsRun(run)
    ensures Inv(run[|run| - 1])
  {
    var n := |run| - 1;
    if n > 0 {
      hide Inv, Next, Enabled;
      RunInv(run[..n]);
      assert Steps(run[n - 1], run[n]);
      var a :| Enabled(run[n - 1], a) && run[n] == Next(run[n - 1], a);
      StepKeeps(run[n - 1], a);
    }
  }

  /** A notification is never taken off the queue under an operation in flight, so the operation can always finish. */
  lemma AddFdCanFinish(run: seq<State>, op: OpId, fd: int)
    requires IsRun(run) && op in run[|run| - 1].ops && run[|run| - 1].ops[op].AddFd?
    ensures Enabled(run[|run| - 1], AddEnd(op, fd))
  {
    RunInv(run);
    var s := run[|run| - 1];
    assert OpOk(s, op) && ItemOk(s, s.ops[op].id);
    assert op in OpsOn(s.ops, s.ops[op].id);
  }

  /** A waiter that was replied to and that nobody uses can resume at once, with the one reply it got. */
  lemma WaiterCanFinish(run: seq<State>, id: Id)
    requires IsRun(run) && id in run[|run| - 1].items
    requires run[|run| - 1].items[id].phase == Replied && run[|run| - 1].items[id].active == 0
    ensures var s := run[|run| - 1];
            && Enabled(s, Wait(id, false)) && |Replies(s, id)| == 1
            && Next(s, Wait(id, false)).outcomes[id] == Resumed(Replies(s, id)[0])
  {
    RunInv(run);
    assert ItemOk(run[|run| - 1], id);
  }

  /** A descriptor installed as a reply is the only operation on its notification, and ends in one of two ways. */
  lemma SendAddFd(run: seq<State>, op: OpId, fd: int)
    requires IsRun(run) && op in run[|run| - 1].ops && run[|run| - 1].ops[op].AddFd? && run[|run| - 1].ops[op].send
    ensures var s := run[|run| - 1];
            var id := s.ops[op].id;
            && id in s.items && s.items[id].active == 1 && s.items[id].phase == Replied && Enabled(s, AddEnd(op, fd))
            && var s' := Next(s, AddEnd(op, fd));
               id in s'.items && s'.items[id].active == 0 &&
               if fd < 0 then s'.items[id].phase == Sent && Replies(s', id) == []
               else s'.items[id].phase == Replied && Replies(s', id) == [Response(id, fd, 0, false)]
  {
    AddFdCanFinish(run, op, fd);
    RunInv(run);
    var s := run[|run| - 1];
    assert OpOk(s, op) && ItemOk(s, s.ops[op].id) && s.ops[op] == AddFd(s.ops[op].id, true);
  }

  /** A notification takes at most one reply, and only one addressed to it. */
  lemma AtMostOneReply(run: seq<State>, id: Id)
    requires IsRun(run) && (id in run[|run| - 1].items || id in run[|run| - 1].outcomes)
    ensures var replies := Replies(run[|run| - 1], id); |replies| <= 1 && (|replies| == 1 ==> replies[0].id == id)
  {
    RunInv(run);
    var s := run[|run| - 1];
    assert ItemOk(s, id) && OutcomeOk(s, id);
  }

  /** A waiter goes on with a value, or with its system call, only as the reply to it says. */
  lemma ResumedByOwnReply(run: seq<State>, id: Id)
    requires IsRun(run) && id in run[|run| - 1].outcomes && run[|run| - 1].outcomes[id] !in {NoSys, Restart}
    ensures var s := run[|run| - 1];
            exists r :: Replies(s, id) == [r] && r.id == id && s.outcomes[id] == Resumed(r)
  {
    RunInv(run);
    var s := run[|run| - 1];
    assert OutcomeOk(s, id);
    assert Replies(s, id) == [Replies(s, id)[0]];
  }

  /** A waiter that is told there was no reply never had one: no accepted reply is lost. */
  lemma NoReplyLost(run: seq<State>, id: Id)
    requires IsRun(run) && id in run[|run| - 1].outcomes && run[|run| - 1].outcomes[id] in {NoSys, Restart}
    ensures Replies(run[|run| - 1], id) == []
  {
    RunInv(run);
    assert OutcomeOk(run[|run| - 1], id);
  }

  /** As long as any notification is fresh the supervisor can receive one. */
  lemma FreshIsReceived(run: seq<State>, id: Id, op: OpId)
    requires IsRun(run) && op !in run[|run| - 1].ops
    requires id in run[|run| - 1].items && run[|run| - 1].items[id].phase == Fresh
    ensures Enabled(run[|run| - 1], Recv(op))
  {
    RunInv(run);
    var s := run[|run| - 1];
    assert ItemOk(s, id);
    var k :| 0 <= k < |s.queue| && s.queue[k] == id;
    var j := FirstFresh(s, k);
  }

  lemma {:induction false} FirstFresh(s: State, k: nat) returns (j: nat)
    requires k < |s.queue| && s.queue[k] in s.items && s.items[s.queue[k]].phase == Fresh
    ensures OldestFresh(s, j)
  {
    if i :| 0 <= i < k && s.queue[i] in s.items && s.items[s.queue[i]].phase == Fresh {
      j := FirstFresh(s, i);
    } else {
      j := k;
    }
  }
}
