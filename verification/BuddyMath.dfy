/**
 Powers of two, aligned blocks and their buddies.  The bit tests of the allocator are
 written as recursions over the binary digits of an index.
 */
module BuddyMath {
  import opened Basics

  /** (i & (Pow2(order) - 1)) == 0: the low binary digits are zero. */
  predicate Aligned(i: nat, order: nat) {
    order == 0 || (i % 2 == 0 && Aligned(i / 2, order - 1))
  }

  /** i ^ Pow2(order): flip one binary digit. */
  function BuddyOf(i: nat, order: nat): (b: nat) {
    if order == 0 then if i % 2 == 0 then i + 1 else i - 1
    else 2 * BuddyOf(i / 2, order - 1) + i % 2
  }

  predicate InBlock(p: int, i: int, order: nat) { i <= p < i + Pow2(order) }

  /** The bit test is divisibility. */
  lemma {:induction false} AlignedIsMultiple(i: nat, order: nat)
    ensures Aligned(i, order) <==> exists q: nat :: i == q * Pow2(order)
  {
    if order == 0 {
      assert i == i * Pow2(0);
    } else {
      AlignedIsMultiple(i / 2, order - 1);
      var u := Pow2(order - 1);
      forall q: nat ensures i == q * Pow2(order) <==> i % 2 == 0 && i / 2 == q * u {
        assert q * Pow2(order) == 2 * (q * u);
      }
      if Aligned(i, order) {
        var q: nat :| i / 2 == q * u;
        assert i == q * Pow2(order);
      }
    }
  }

  /** An index aligned for a larger order is aligned for a smaller one. */
  lemma {:induction false} AlignedDown(i: nat, o: nat, p: nat)
    requires o <= p && Aligned(i, p)
    ensures Aligned(i, o)
  {
    if o > 0 { AlignedDown(i / 2, o - 1, p - 1); }
  }

  /** Aligned blocks that meet are nested: the smaller lies inside the larger. */
  lemma {:induction false} Nested(i: nat, o: nat, j: nat, p: nat, x: int)
    requires o <= p && Aligned(i, o) && Aligned(j, p) && InBlock(x, i, o) && InBlock(x, j, p)
    ensures j <= i && i + Pow2(o) <= j + Pow2(p)
  {
    if o > 0 { Nested(i / 2, o - 1, j / 2, p - 1, x / 2); }
  }

  lemma NestedEither(i: nat, o: nat, j: nat, p: nat, x: int)
    requires Aligned(i, o) && Aligned(j, p) && InBlock(x, i, o) && InBlock(x, j, p)
    ensures o <= p ==> j <= i && i + Pow2(o) <= j + Pow2(p)
    ensures p <= o ==> i <= j && j + Pow2(p) <= i + Pow2(o)
  {
    if o <= p { Nested(i, o, j, p, x); }
    if p <= o { Nested(j, p, i, o, x); }
  }

  /** The buddy of an aligned block is one block up or one block down. */
  lemma {:induction false} BuddyOfAligned(i: nat, o: nat)
    requires Aligned(i, o)
    ensures var b := BuddyOf(i, o);
            && Aligned(b, o) && BuddyOf(b, o) == i
            && (b == i + Pow2(o) || b == i - Pow2(o))
            && Aligned(if b < i then b else i, o + 1)
  {
    if o > 0 {
      BuddyOfAligned(i / 2, o - 1);
    }
  }

  /** A block and its buddy are the two halves of a block of the next order. */
  lemma BuddyHalves(i: nat, o: nat)
    requires Aligned(i, o)
    ensures var b := BuddyOf(i, o);
            && Aligned(b, o) && BuddyOf(b, o) == i && (b == i + Pow2(o) || b == i - Pow2(o))
            && var m := if b < i then b else i;
            && Aligned(m, o + 1)
            && (forall x :: InBlock(x, m, o + 1) <==> InBlock(x, i, o) || InBlock(x, b, o))
  {
    BuddyOfAligned(i, o);
  }

  /** The two halves of an aligned block. */
  lemma {:induction false} Halves(i: nat, o: nat)
    requires Aligned(i, o + 1)
    ensures Aligned(i, o) && Aligned(i + Pow2(o), o)
    ensures BuddyOf(i, o) == i + Pow2(o) && BuddyOf(i + Pow2(o), o) == i
  {
    if o > 0 {
      Halves(i / 2, o - 1);
      var j := i + Pow2(o);
      assert j % 2 == 0 && j / 2 == i / 2 + Pow2(o - 1);
    }
  }

  lemma {:induction false} Pow2Monotone(o: nat, p: nat)
    requires o <= p
    ensures Pow2(o) <= Pow2(p)
  {
    if o < p { Pow2Monotone(o, p - 1); }
  }

  /** buddy_order_for_units: the smallest order that holds count pages, or limit + 1. */
  method OrderForUnits(count: nat, limit: nat) returns (order: nat)
    ensures order <= limit + 1
    ensures order <= limit ==> count <= Pow2(order)
    ensures 0 < order ==> Pow2(order - 1) < count
  {
    if count == 0 { return 0; }
    order := 0;
    var units := 1;
    while units < count && order < limit
      invariant order <= limit && units == Pow2(order)
      invariant 0 < order ==> Pow2(order - 1) < count
    {
      units := 2 * units;
      order := order + 1;
    }
    if units < count { return limit + 1; }
  }
}
