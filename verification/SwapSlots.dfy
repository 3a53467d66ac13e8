/** Swap slots: the entry format and the reference-counted slot map of one swap area. */
module SwapSlots {

  // ---- Entries ----

  const PRESENT: bv64 := 0x1
  const SWAP: bv64 := 0x800
  const BUSY: bv64 := 0x10_0000_0000_0000
  const KEPT_FLAGS: bv64 := 0x8000_0000_0000_0606     // WRITEABLE, USER, COW, SHARED, NO_EXECUTE
  const TYPE_MASK: bv64 := 0x1f
  const OFFSET_MASK: bv64 := 0x7_ffff_ffff

  function Encode(area: bv64, offset: bv64, flags: bv64): bv64 {
    SWAP | (flags & KEPT_FLAGS) | ((area & TYPE_MASK) << 12) | ((offset & OFFSET_MASK) << 17)
  }

  function AreaOf(pte: bv64): bv64 { (pte >> 12) & TYPE_MASK }

  function OffsetOf(pte: bv64): bv64 { (pte >> 17) & OFFSET_MASK }

  function FlagsOf(pte: bv64): bv64 { pte & KEPT_FLAGS }

  predicate IsPresent(pte: bv64) { pte & PRESENT != 0 }

  predicate IsMarked(pte: bv64) { pte & SWAP != 0 }

  predicate IsBusy(pte: bv64) { pte & BUSY != 0 }

  function MarkBusy(pte: bv64): bv64 { pte | BUSY }

  function ClearBusy(pte: bv64): bv64 { pte & !BUSY }

  predicate IsSwap(pte: bv64) { !IsPresent(pte) && IsMarked(pte) && OffsetOf(pte) != 0 }

  lemma AreaBack(area: bv64, offset: bv64, flags: bv64)
    requires area <= TYPE_MASK
    ensures AreaOf(Encode(area, offset, flags)) == area
  {}

  lemma OffsetBack(area: bv64, offset: bv64, flags: bv64)
    requires offset <= OFFSET_MASK
    ensures OffsetOf(Encode(area, offset, flags)) == offset
  {}

  lemma FlagsBack(area: bv64, offset: bv64, flags: bv64)
    ensures FlagsOf(Encode(area, offset, flags)) == FlagsOf(flags)
  {}

  lemma Marks(area: bv64, offset: bv64, flags: bv64)
    ensures var e := Encode(area, offset, flags); !IsPresent(e) && IsMarked(e) && !IsBusy(e)
  {}

  /** The busy bit is none of the other fields. */
  lemma BusyFields(e: bv64)
    ensures
      && AreaOf(MarkBusy(e)) == AreaOf(e) && OffsetOf(MarkBusy(e)) == OffsetOf(e) && FlagsOf(MarkBusy(e)) == FlagsOf(e)
  {}

  lemma BusyMarks(e: bv64)
    ensures IsPresent(MarkBusy(e)) == IsPresent(e) && IsMarked(MarkBusy(e)) == IsMarked(e) && IsBusy(MarkBusy(e))
  {}

  lemma BusyOff(e: bv64)
    requires !IsBusy(e)
    ensures ClearBusy(MarkBusy(e)) == e
  {}

  /** An entry gives back what went into it, busy or not, and is never taken for a mapping. */
  lemma EntryRoundTrip(area: bv64, offset: bv64, flags: bv64)
    requires area <= TYPE_MASK && 0 < offset <= OFFSET_MASK
    ensures var e := Encode(area, offset, flags);
            && IsSwap(e) && !IsBusy(e) && AreaOf(e) == area && OffsetOf(e) == offset && FlagsOf(e) == FlagsOf(flags)
            && IsSwap(MarkBusy(e)) && IsBusy(MarkBusy(e))
            && AreaOf(MarkBusy(e)) == area && OffsetOf(MarkBusy(e)) == offset && FlagsOf(MarkBusy(e)) == FlagsOf(flags)
            && ClearBusy(MarkBusy(e)) == e
  {
    hide Encode, AreaOf, OffsetOf, FlagsOf, IsPresent, IsMarked, IsBusy, MarkBusy, ClearBusy;
    AreaBack(area, offset, flags);
    OffsetBack(area, offset, flags);
    FlagsBack(area, offset, flags);
    Marks(area, offset, flags);
    var e := Encode(area, offset, flags);
    BusyFields(e);
    BusyMarks(e);
    BusyOff(e);
  }

  // ---- The slot map ----

  const MAX_REFS: nat := 0xffff_ffff

  ghost function Free(refs: seq<nat>): set<nat> { set s | 1 <= s < |refs| && refs[s] == 0 }

  lemma FreeUpdate(refs: seq<nat>, s: nat, n: nat)
    requires 1 <= s < |refs|
    ensures |Free(refs[s := n])| == |Free(refs)| - (if refs[s] == 0 then 1 else 0) + (if n == 0 then 1 else 0)
  {
    var a, b := Free(refs), Free(refs[s := n]);
    assert a - {s} == b - {s};
    assert s !in a ==> a - {s} == a;
    assert s !in b ==> b - {s} == b;
  }

  /** Slot number k steps from start on, around the end. */
  function Around(start: nat, k: nat, slots: nat): nat
    requires 1 <= start <= slots && k < slots
  {
    if start + k > slots then start + k - slots else start + k
  }

  /** Going around once passes every slot. */
  lemma AroundAll(start: nat, slots: nat, s: nat)
    requires 1 <= start <= slots && 1 <= s <= slots
    ensures exists k :: 0 <= k < slots && Around(start, k, slots) == s
  {
    var k := if s >= start then s - start else s + slots - start;
    assert Around(start, k, slots) == s;
  }

  class SlotMap {
    const slots: nat
    const used: array<bool>        // the bitmap
    const refs: array<nat>
    var next: nat                  // where the search starts
    var freeSlots: int

    ghost predicate Valid()
      reads this, used, refs
    {
      && 1 <= slots && used.Length == refs.Length == slots + 1
      && (forall s :: 1 <= s <= slots ==> (used[s] <==> refs[s] > 0) && refs[s] <= MAX_REFS)
      && freeSlots == |Free(refs[..])| && 1 <= next <= slots
    }

    /** swap_slot_map_init */
    constructor (n: nat)
      requires 1 <= n
      ensures Valid() && slots == n && freeSlots == n && fresh(used) && fresh(refs)
      ensures forall s :: 1 <= s <= n ==> refs[s] == 0
    {
      slots := n;
      used := new bool[n + 1](_ => false);
      refs := new nat[n + 1](_ => 0);
      next, freeSlots := 1, n;
      new;
      AllFree(refs[..], n);
    }

    /** swap_slot_alloc: the first free slot from the cursor on; 0 exactly when none is free. */
    method Alloc() returns (slot: nat)
      requires Valid()
      modifies this`next, this`freeSlots, used, refs
      ensures Valid()
      ensures slot == 0 <==> old(Free(refs[..])) == {}
      ensures slot == 0 ==> refs[..] == old(refs[..])
      ensures slot != 0 ==>
          slot <= slots && old(refs[..])[slot] == 0 && refs[..] == old(refs[..])[slot := 1]
              && freeSlots == old(freeSlots) - 1
      ensures slot != 0 ==>
                exists k :: 0 <= k < slots && slot == Around(old(next), k, slots) &&
                            forall j :: 0 <= j < k ==> old(refs[..])[Around(old(next), j, slots)] > 0
      ensures next == if slot == 0 then old(next) else if slot == slots then 1 else slot + 1
    {
      var start := next;
      for scanned := 0 to slots
        invariant forall j :: 0 <= j < scanned ==> used[Around(start, j, slots)]
      {
        slot := Around(start, scanned, slots);
        if !used[slot] {
          Take(slot);
          return;
        }
      }
      forall s | s in Free(refs[..]) ensures false { AroundAll(start, slots, s); }
      return 0;
    }

    method Take(slot: nat)
      requires Valid() && 1 <= slot <= slots && !used[slot]
      modifies this`next, this`freeSlots, used, refs
      ensures Valid() && refs[..] == old(refs[..])[slot := 1] && freeSlots == old(freeSlots) - 1
      ensures next == if slot == slots then 1 else slot + 1
    {
      FreeUpdate(refs[..], slot, 1);
      used[slot] := true;
      refs[slot] := 1;
      assert refs[..] == old(refs[..])[slot := 1];
      next := if slot == slots then 1 else slot + 1;
      freeSlots := freeSlots - 1;
    }

    /** swap_slot_retain */
    method Retain(slot: nat) returns (ok: bool)
      requires Valid()
      modifies refs
      ensures Valid()
      ensures ok <==> 1 <= slot <= slots && 0 < old(refs[..])[slot] < MAX_REFS
      ensures refs[..] == if ok then old(refs[..])[slot := old(refs[..])[slot] + 1] else old(refs[..])
    {
      if slot < 1 || slot > slots { return false; }
      if !used[slot] || refs[slot] == 0 || refs[slot] == MAX_REFS { return false; }
      FreeUpdate(refs[..], slot, refs[slot] + 1);
      refs[slot] := refs[slot] + 1;
      assert refs[..] == old(refs[..])[slot := old(refs[slot]) + 1];
      return true;
    }

    /** swap_slot_release: the slot is free again exactly after its last release. */
    method Release(slot: nat) returns (ok: bool)
      requires Valid()
      modifies this`freeSlots, used, refs
      ensures Valid()
      ensures ok <==> 1 <= slot <= slots && 0 < old(refs[..])[slot]
      ensures refs[..] == if ok then old(refs[..])[slot := old(refs[..])[slot] - 1] else old(refs[..])
      ensures freeSlots == old(freeSlots) + if ok && old(refs[..])[slot] == 1 then 1 else 0
    {
      if slot < 1 || slot > slots { return false; }
      if !used[slot] || refs[slot] == 0 { return false; }
      FreeUpdate(refs[..], slot, refs[slot] - 1);
      refs[slot] := refs[slot] - 1;
      assert refs[..] == old(refs[..])[slot := old(refs[slot]) - 1];
      if refs[slot] == 0 {
        used[slot] := false;
        freeSlots := freeSlots + 1;
      }
      return true;
    }
  }

  lemma {:induction false} AllFree(refs: seq<nat>, n: nat)
    requires |refs| == n + 1 && forall s :: 1 <= s <= n ==> refs[s] == 0
    ensures |Free(refs)| == n
  {
    if n == 0 {
      assert Free(refs) == {};
    } else {
      AllFree(refs[..n], n - 1);
      assert Free(refs) == Free(refs[..n]) + {n};
    }
  }
}
