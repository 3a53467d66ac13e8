/**
 The BPF verifier.  Its second pass visits every instruction once, in ascending
 order, and keeps for each one whether it is reachable and which scratch words
 are certainly stored.  The pass is exact: those words are the intersection, over
 all control-flow paths, of the words stored, and the program is rejected exactly
 when some path reads a word it has not stored.
 */
module BpfVerify {
  import opened Bpf

  // ---- The data-flow facts, stated over paths ----

  /** The path ends at t, and arrives there from an instruction below bound. */
  ghost predicate Arrives(program: seq<Insn>, path: seq<nat>, t: nat, bound: nat) {
    PathTo(program, path, t) && (1 < |path| ==> path[|path| - 2] < bound)
  }

  ghost predicate Reached(program: seq<Insn>, t: nat, bound: nat) {
    exists path :: Arrives(program, path, t, bound)
  }

  /** Every path that arrives at t from below bound has stored word w. */
  ghost predicate Surely(program: seq<Insn>, t: nat, bound: nat, w: U32) {
    forall path :: Arrives(program, path, t, bound) ==> w in Written(program, path)
  }

  /** Edges lead forward, so every path to t arrives from below t. */
  lemma ArrivesFromBelow(program: seq<Insn>, path: seq<nat>, t: nat)
    requires PathTo(program, path, t)
    ensures Arrives(program, path, t, t)
  {
    if 1 < |path| {
      assert Edge(program, path[|path| - 2], path[|path| - 1]);
    }
  }

  /** A longer path is a shorter one followed by an edge. */
  lemma SplitLast(program: seq<Insn>, path: seq<nat>)
    requires Path(program, path) && 1 < |path|
    ensures PathTo(program, path[..|path| - 1], path[|path| - 2])
    ensures Edge(program, path[|path| - 2], path[|path| - 1])
    ensures Written(program, path)
         == Written(program, path[..|path| - 1]) + Stores(program[path[|path| - 2]])
  {
    assert Edge(program, path[|path| - 2], path[|path| - 1]);
  }

  lemma Extend(program: seq<Insn>, path: seq<nat>, i: nat, t: nat)
    requires PathTo(program, path, i) && Edge(program, i, t)
    ensures PathTo(program, path + [t], t)
    ensures Arrives(program, path + [t], t, i + 1)
    ensures Written(program, path + [t]) == Written(program, path) + Stores(program[i])
  {
    var longer := path + [t];
    forall n | 0 < n < |longer| ensures Edge(program, longer[n - 1], longer[n]) {
      if n < |path| {
        assert longer[n - 1] == path[n - 1] && longer[n] == path[n];
      }
    }
    assert longer[..|longer| - 1] == path;
  }

  /** How reachability grows when instruction i has been processed. */
  lemma ReachedStep(program: seq<Insn>, i: nat, t: nat)
    ensures Reached(program, t, i + 1)
       <==> Reached(program, t, i) || (Edge(program, i, t) && Reached(program, i, i))
  {
    if Reached(program, t, i + 1) && !Reached(program, t, i) {
      var path :| Arrives(program, path, t, i + 1);
      assert !Arrives(program, path, t, i);
      SplitLast(program, path);
      ArrivesFromBelow(program, path[..|path| - 1], i);
    }
    if Edge(program, i, t) && Reached(program, i, i) {
      var path :| Arrives(program, path, i, i);
      Extend(program, path, i, t);
    }
    if Reached(program, t, i) {
      var path :| Arrives(program, path, t, i);
      assert Arrives(program, path, t, i + 1);
    }
  }

  /** How the certainly stored words shrink when instruction i has been processed. */
  lemma SurelyStep(program: seq<Insn>, i: nat, t: nat, w: U32)
    requires i < |program|
    ensures Surely(program, t, i + 1, w)
       <==> Surely(program, t, i, w)
            && (Edge(program, i, t) ==> Surely(program, i, i, w) || w in Stores(program[i]))
  {
    if Surely(program, t, i + 1, w) {
      forall path | Arrives(program, path, t, i) ensures w in Written(program, path) {
        assert Arrives(program, path, t, i + 1);
      }
      if Edge(program, i, t) && w !in Stores(program[i]) {
        forall path | Arrives(program, path, i, i) ensures w in Written(program, path) {
          Extend(program, path, i, t);
        }
      }
    }
    if Surely(program, t, i, w) && (Edge(program, i, t) ==> Surely(program, i, i, w) || w in Stores(program[i])) {
      forall path | Arrives(program, path, t, i + 1) ensures w in Written(program, path) {
        if !Arrives(program, path, t, i) {
          SplitLast(program, path);
          ArrivesFromBelow(program, path[..|path| - 1], i);
        }
      }
    }
  }

  // ---- The verifier ----

  /** First pass. */
  method CheckStructure(program: seq<Insn>, maxInsns: nat) returns (ok: bool)
    ensures ok <==> WellFormed(program, maxInsns)
  {
    if |program| == 0 || |program| > maxInsns { return false; }
    for i := 0 to |program|
      invariant forall j :: 0 <= j < i ==> ValidInsn(program[j], j, |program|)
    {
      if !ValidInsn(program[i], i, |program|) { return false; }
    }
    return Class(program[|program| - 1].code) == RET;
  }

  function Successors(program: seq<Insn>, i: nat): (r: seq<nat>)
    requires i < |program| && Class(program[i].code) != RET
    ensures forall t: nat :: t in r <==> Edge(program, i, t)
  {
    if program[i].code == JMP_JA then [i + 1 + program[i].k]
    else if Class(program[i].code) == JMP then [i + 1 + program[i].jt, i + 1 + program[i].jf]
    else [i + 1]
  }

  /** In a well-formed program control never leaves the program. */
  lemma EdgesStayInside(program: seq<Insn>, maxInsns: nat, i: nat, t: nat)
    requires WellFormed(program, maxInsns) && Edge(program, i, t)
    ensures i < t < |program|
  {
    assert ValidInsn(program[i], i, |program|);
  }

  /** The scratch words all hold what the paths say, for instructions processed below bound. */
  ghost predicate Exact(program: seq<Insn>, reachable: seq<bool>, masks: seq<set<U32>>, bound: nat) {
    && |reachable| == |masks| == |program|
    && (forall t :: 0 <= t < |program| ==> (reachable[t] <==> Reached(program, t, bound)))
    && (forall t, w :: 0 <= t < |program| && reachable[t] && 0 <= w < MEMWORDS ==>
          (w in masks[t] <==> Surely(program, t, bound, w)))
  }

  /** The effect of processing instruction i on what is known of instruction t. */
  ghost predicate Propagated(program: seq<Insn>, i: nat,
                             reachable: seq<bool>, masks: seq<set<U32>>,
                             reachable': seq<bool>, masks': seq<set<U32>>)
  {
    && i < |program| == |reachable| == |masks| == |reachable'| == |masks'|
    && forall t :: 0 <= t < |program| ==>
         var flows := reachable[i] && Edge(program, i, t);
         var mask := masks[i] + Stores(program[i]);
         && reachable'[t] == (reachable[t] || flows)
         && masks'[t] == if !flows then masks[t] else if reachable[t] then masks[t] * mask else mask
  }

  lemma ExactStart(program: seq<Insn>, reachable: seq<bool>, masks: seq<set<U32>>)
    requires 0 < |program| == |reachable| == |masks|
    requires forall t :: 0 <= t < |program| ==> reachable[t] == (t == 0) && masks[t] == {}
    ensures Exact(program, reachable, masks, 0)
  {
    assert Arrives(program, [0], 0, 0);
    assert forall path, t: nat :: Arrives(program, path, t, 0) ==> path == [0];
  }

  /** Nothing reaches instruction t from below i: every word is vacuously certain. */
  lemma UnreachedSurely(program: seq<Insn>, t: nat, i: nat, w: U32)
    requires !Reached(program, t, i)
    ensures Surely(program, t, i, w)
  {
  }

  lemma ExactStep(program: seq<Insn>, i: nat,
                  reachable: seq<bool>, masks: seq<set<U32>>, reachable': seq<bool>, masks': seq<set<U32>>)
    requires Exact(program, reachable, masks, i)
    requires Propagated(program, i, reachable, masks, reachable', masks')
    ensures Exact(program, reachable', masks', i + 1)
  {
    forall t | 0 <= t < |program| ensures reachable'[t] <==> Reached(program, t, i + 1) {
      ReachedStep(program, i, t);
    }
    forall t, w | 0 <= t < |program| && reachable'[t] && 0 <= w < MEMWORDS
      ensures w in masks'[t] <==> Surely(program, t, i + 1, w)
    {
      SurelyStep(program, i, t, w);
      if !reachable[t] { UnreachedSurely(program, t, i, w); }
      if !reachable[i] { UnreachedSurely(program, i, i, w); }
    }
  }

  /** At instruction i the pass decides exactly whether a path reads an unwritten word there. */
  lemma ExactVerdict(program: seq<Insn>, i: nat, reachable: seq<bool>, masks: seq<set<U32>>)
    requires Exact(program, reachable, masks, i)
    requires i < |program| && (ReadsWord(program[i]) ==> program[i].k < MEMWORDS)
    ensures (exists path :: ReadsUnwritten(program, path) && path[|path| - 1] == i)
       <==> reachable[i] && ReadsWord(program[i]) && program[i].k !in masks[i]
  {
    if reachable[i] && ReadsWord(program[i]) && program[i].k !in masks[i] {
      var path :| Arrives(program, path, i, i) && program[i].k !in Written(program, path);
      assert ReadsUnwritten(program, path);
    }
    forall path | ReadsUnwritten(program, path) && path[|path| - 1] == i
      ensures reachable[i] && program[i].k !in masks[i]
    {
      ArrivesFromBelow(program, path, i);
    }
  }

  /** The branches in done have received mask. */
  ghost predicate Spread(program: seq<Insn>, reachable: seq<bool>, masks: seq<set<U32>>,
                         reachable': seq<bool>, masks': seq<set<U32>>, mask: set<U32>, done: seq<nat>)
  {
    && |program| == |reachable| == |masks| == |reachable'| == |masks'|
    && forall t :: 0 <= t < |program| ==>
         && reachable'[t] == (reachable[t] || t in done)
         && masks'[t] == if t !in done then masks[t] else if reachable[t] then masks[t] * mask else mask
  }

  /** Hand the words stored after instruction i to each of its successors. */
  method Propagate(program: seq<Insn>, i: nat, reachable: array<bool>, masks: array<set<U32>>, ghost maxInsns: nat)
    requires WellFormed(program, maxInsns) && i < |program| == reachable.Length == masks.Length
    requires reachable[i]
    modifies reachable, masks
    ensures Propagated(program, i, old(reachable[..]), old(masks[..]), reachable[..], masks[..])
  {
    ghost var reachable0, masks0 := reachable[..], masks[..];
    var mask := masks[i] + Stores(program[i]);
    if Class(program[i].code) == RET { return; }
    var successors := Successors(program, i);
    for branch := 0 to |successors|
      invariant Spread(program, reachable0, masks0, reachable[..], masks[..], mask, successors[..branch])
    {
      var target := successors[branch];
      EdgesStayInside(program, maxInsns, i, target);
      if !reachable[target] {
        reachable[target] := true;
        masks[target] := mask;
      } else {
        masks[target] := masks[target] * mask;
      }
      assert successors[..branch + 1] == successors[..branch] + [target];
    }
    assert successors[..|successors|] == successors;
  }

  /** No path that ends below instruction i reads an unwritten scratch word. */
  ghost predicate FineBelow(program: seq<Insn>, i: nat) {
    forall path :: ReadsUnwritten(program, path) ==> i <= path[|path| - 1]
  }

  lemma FineStart(program: seq<Insn>)
    ensures FineBelow(program, 0)
  {}

  /** What the test at one instruction decides. */
  lemma OneVerdict(program: seq<Insn>, maxInsns: nat, i: nat, reachable: seq<bool>, masks: seq<set<U32>>)
    requires WellFormed(program, maxInsns) && Exact(program, reachable, masks, i) && i < |program|
    requires FineBelow(program, i)
    ensures |reachable| == |masks| == |program|
    ensures
      if reachable[i] && ReadsWord(program[i]) && program[i].k !in masks[i] then !Initialized(program)
      else FineBelow(program, i + 1)
  {
    assert ValidInsn(program[i], i, |program|);
    ExactVerdict(program, i, reachable, masks);
  }

  lemma FineAll(program: seq<Insn>)
    requires FineBelow(program, |program|)
    ensures Initialized(program)
  {}

  /** An instruction that no path arrives at changes nothing. */
  lemma NotPropagated(program: seq<Insn>, i: nat, reachable: seq<bool>, masks: seq<set<U32>>)
    requires i < |program| == |reachable| == |masks| && !reachable[i]
    ensures Propagated(program, i, reachable, masks, reachable, masks)
  {}

  /** Second pass: rejects if and only if some path reads an unwritten scratch word. */
  method CheckScratch(program: seq<Insn>, ghost maxInsns: nat) returns (ok: bool)
    requires WellFormed(program, maxInsns)
    ensures ok <==> Initialized(program)
  {
    assert |program| > 0;
    var masks := new set<U32>[|program|](_ => {});
    var reachable := new bool[|program|](_ => false);
    reachable[0] := true;
    hide Exact, Initialized, FineBelow, Propagated, WellFormed;
    ExactStart(program, reachable[..], masks[..]);
    FineStart(program);
    for i := 0 to |program|
      invariant Exact(program, reachable[..], masks[..], i) && FineBelow(program, i)
    {
      ghost var reachable0, masks0 := reachable[..], masks[..];
      OneVerdict(program, maxInsns, i, reachable0, masks0);
      if reachable[i] {
        if ReadsWord(program[i]) && program[i].k !in masks[i] { return false; }
        Propagate(program, i, reachable, masks, maxInsns);
      } else {
        NotPropagated(program, i, reachable0, masks0);
      }
      ExactStep(program, i, reachable0, masks0, reachable[..], masks[..]);
    }
    FineAll(program);
    return true;
  }

  /** The whole verifier. */
  method Validate(program: seq<Insn>, maxInsns: nat) returns (ok: bool)
    ensures ok <==> Accepted(program, maxInsns)
  {
    ok := CheckStructure(program, maxInsns);
    if ok {
      ok := CheckScratch(program, maxInsns);
    }
  }
}
