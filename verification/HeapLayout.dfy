/** Where objects lie: size classes, slabs and large blocks of the kernel heap. */
module HeapLayout {
  import opened Basics

  const PAGE: nat := 4096
  const SLAB_HEADER: nat := 80
  const OBJECT_HEADER: nat := 40
  const LARGE_HEADER: nat := 64
  const MIN_ALIGNMENT: nat := 16
  const MAX_SLAB_ORDER: nat := 8

  // ---- Alignment ----

  ghost predicate Multiple(x: nat, a: nat) { exists q: nat :: x == q * a }

  lemma MultipleSum(x: nat, y: nat, a: nat)
    requires Multiple(x, a) && Multiple(y, a)
    ensures Multiple(x + y, a)
  {
    var p: nat :| x == p * a;
    var q: nat :| y == q * a;
    assert x + y == (p + q) * a;
  }

  lemma MultipleTimes(x: nat, k: nat, a: nat)
    requires Multiple(x, a)
    ensures Multiple(k * x, a) && Multiple(x * k, a)
  {
    var q: nat :| x == q * a;
    assert k * x == (k * q) * a;
  }

  /** valid_alignment: a power of two; those up to a page divide a page. */
  ghost predicate AlignmentOk(a: nat) { exists k: nat :: k <= 63 && a == Pow2(k) }

  lemma {:induction false} PowerDivides(k: nat, m: nat)
    requires k <= m
    ensures Multiple(Pow2(m), Pow2(k))
  {
    if k == m {
      assert Pow2(m) == 1 * Pow2(k);
    } else {
      PowerDivides(k, m - 1);
      MultipleTimes(Pow2(m - 1), 2, Pow2(k));
    }
  }

  /** An alignment from the minimum to a page is a multiple of the minimum and divides a page. */
  lemma AlignmentDivides(a: nat)
    requires AlignmentOk(a) && MIN_ALIGNMENT <= a <= PAGE
    ensures Multiple(a, MIN_ALIGNMENT) && Multiple(PAGE, a)
  {
    var k: nat :| k <= 63 && a == Pow2(k);
    assert Pow2(4) == MIN_ALIGNMENT && Pow2(12) == PAGE by { assert Pow2(6) == 64 && Pow2(9) == 512; }
    if k < 4 { Pow2Grows(k, 4); }
    if 12 < k { Pow2Grows(12, k); }
    PowerDivides(4, k);
    PowerDivides(k, 12);
  }

  /** align_up_size: the next multiple at or after the value. */
  function AlignUp(x: nat, a: nat): nat
    requires a > 0
  {
    (x + a - 1) / a * a
  }

  lemma AlignUpIs(x: nat, a: nat)
    requires a > 0
    ensures Multiple(AlignUp(x, a), a) && x <= AlignUp(x, a) < x + a
  {
    var n := x + a - 1;
    assert n == n / a * a + n % a;
  }

  lemma {:induction false} TimesGrows(i: nat, j: nat, s: nat)
    requires i < j
    ensures i * s + s <= j * s
  {
    assert j * s == (j - 1) * s + s;
    if i < j - 1 { TimesGrows(i, j - 1, s); }
  }

  lemma TimesUpTo(i: nat, j: nat, s: nat)
    requires i <= j
    ensures i * s <= j * s
  {
    if i < j { TimesGrows(i, j, s); }
  }

  /** Division with remainder has one answer. */
  lemma DivisionUnique(n: nat, q: nat, r: nat, s: nat)
    requires n == q * s + r && r < s
    ensures n / s == q && n % s == r
  {
    var p := n / s;
    assert n == p * s + n % s;
    if p < q { TimesGrows(p, q, s); }
    if q < p { TimesGrows(q, p, s); }
  }

  // ---- Size classes ----

  /** The geometry of a cache. */
  datatype Cache = Cache(objectSize: nat, alignment: nat, payload: nat, stride: nat, order: nat)

  function Bytes(order: nat): nat { PAGE * Pow2(order) }

  /** Objects start behind the slab header. */
  function Start(c: Cache): nat
    requires c.alignment > 0
  {
    AlignUp(SLAB_HEADER, c.alignment)
  }

  function ObjectCount(c: Cache): nat
    requires c.alignment > 0 && c.stride > 0
  {
    if Start(c) >= Bytes(c.order) then 0 else (Bytes(c.order) - Start(c)) / c.stride
  }

  ghost predicate CacheOk(c: Cache) {
    && 0 < c.objectSize && 0 < c.alignment && Multiple(c.alignment, MIN_ALIGNMENT) && Multiple(PAGE, c.alignment)
    && OBJECT_HEADER <= c.payload && Multiple(c.payload, c.alignment)
    && c.payload + c.objectSize <= c.stride && Multiple(c.stride, c.alignment)
    && c.order <= MAX_SLAB_ORDER && ObjectCount(c) > 0
  }

  /** What a slab of this order leaves over; none can be made if it holds no object. */
  function Waste(size: nat, alignment: nat, order: nat): Option<nat>
    requires 0 < size && 0 < alignment
  {
    ShapeOk(size, alignment);
    var c := Shape(size, alignment, order);
    if ObjectCount(c) == 0 then None else Some(Leftover(c))
  }

  /** At least eight objects, and no more than an eighth left over. */
  predicate Roomy(size: nat, alignment: nat, order: nat)
    requires 0 < size && 0 < alignment
  {
    ShapeOk(size, alignment);
    var w := Waste(size, alignment, order);
    w.Some? && ObjectCount(Shape(size, alignment, order)) >= 8 && w.value <= Bytes(order) / 8
  }

  /** Order o is preferred to order p: the first roomy one; if there is none, the first of least waste. */
  predicate Preferred(size: nat, alignment: nat, o: nat, p: nat)
    requires 0 < size && 0 < alignment
  {
    var v, w := Waste(size, alignment, o), Waste(size, alignment, p);
    && v.Some?
    && (w.Some? ==>
          if Roomy(size, alignment, o) then Roomy(size, alignment, p) ==> o <= p
          else !Roomy(size, alignment, p) && (v.value < w.value || (v.value == w.value && o <= p)))
  }

  /** cache_layout: the preferred order, if a slab of any holds an object. */
  method Layout(size: nat, alignment: nat) returns (c: Option<Cache>)
    requires 0 < size && AlignmentOk(alignment) && MIN_ALIGNMENT <= alignment <= PAGE
    ensures c.Some? ==>
        CacheOk(c.value) && c.value == Shape(size, alignment, c.value.order) && c.value.order <= MAX_SLAB_ORDER
    ensures c.Some? ==> forall p :: 0 <= p <= MAX_SLAB_ORDER ==> Preferred(size, alignment, c.value.order, p)
    ensures c.None? ==> forall o :: 0 <= o <= MAX_SLAB_ORDER ==> Waste(size, alignment, o).None?
  {
    var best, waste := Pick(size, alignment);
    if best > MAX_SLAB_ORDER { return None; }
    AlignmentDivides(alignment);
    ShapeOk(size, alignment);
    return Some(Shape(size, alignment, best));
  }

  /** The search over the orders. */
  method Pick(size: nat, alignment: nat) returns (best: nat, least: nat)
    requires 0 < size && 0 < alignment
    ensures best <= MAX_SLAB_ORDER ==> Waste(size, alignment, best) == Some(least)
    ensures best <= MAX_SLAB_ORDER ==> forall p :: 0 <= p <= MAX_SLAB_ORDER ==> Preferred(size, alignment, best, p)
    ensures best > MAX_SLAB_ORDER ==> forall o :: 0 <= o <= MAX_SLAB_ORDER ==> Waste(size, alignment, o).None?
  {
    hide Waste, Roomy;
    best, least := MAX_SLAB_ORDER + 1, 0;
    for order := 0 to MAX_SLAB_ORDER + 1
      invariant best < order || best == MAX_SLAB_ORDER + 1
      invariant best > MAX_SLAB_ORDER ==> forall o :: 0 <= o < order ==> Waste(size, alignment, o).None?
      invariant best <= MAX_SLAB_ORDER ==> Waste(size, alignment, best) == Some(least)
      invariant best <= MAX_SLAB_ORDER ==> forall p :: 0 <= p < order ==> Preferred(size, alignment, best, p)
      invariant forall p :: 0 <= p < order ==> !Roomy(size, alignment, p)
    {
      var waste := Waste(size, alignment, order);
      RoomyWaste(size, alignment, order);
      if waste.Some? {
        if best > MAX_SLAB_ORDER || waste.value < least {
          forall p | 0 <= p < order && best <= MAX_SLAB_ORDER && !Roomy(size, alignment, order)
              ensures Preferred(size, alignment, order, p) {
            assert Preferred(size, alignment, best, p);
          }
          best, least := order, waste.value;
        }
        if Roomy(size, alignment, order) {
          best, least := order, waste.value;
          break;
        }
      }
    }
  }

  lemma RoomyWaste(size: nat, alignment: nat, order: nat)
    requires 0 < size && 0 < alignment
    ensures Roomy(size, alignment, order) ==> Waste(size, alignment, order).Some?
  {}

  /** The geometry for an order. */
  function Shape(size: nat, alignment: nat, order: nat): Cache
    requires alignment > 0
  {
    var payload := AlignUp(OBJECT_HEADER, alignment);
    Cache(size, alignment, payload, AlignUp(payload + size, alignment), order)
  }

  lemma ShapeOk(size: nat, alignment: nat)
    requires 0 < size && 0 < alignment
    ensures forall o: nat {:trigger Shape(size, alignment, o)} ::
              var c := Shape(size, alignment, o);
              && OBJECT_HEADER <= c.payload && Multiple(c.payload, alignment)
              && c.payload + size <= c.stride && Multiple(c.stride, alignment)
  {
    AlignUpIs(OBJECT_HEADER, alignment);
    AlignUpIs(AlignUp(OBJECT_HEADER, alignment) + size, alignment);
  }

  // ---- Objects of a slab ----

  /** The first object and how many there are; the start may be shifted by a colour. */
  datatype Slots = Slots(start: nat, count: nat)

  ghost predicate SlotsOk(c: Cache, s: Slots) {
    0 < s.count && SLAB_HEADER <= s.start && Multiple(s.start, c.alignment)
        && s.start + s.count * c.stride <= Bytes(c.order)
  }

  /** Offset of an object's payload within its slab. */
  function ObjectAt(c: Cache, s: Slots, i: nat): nat { s.start + c.payload + i * c.stride }

  lemma ObjectInside(c: Cache, s: Slots, i: nat)
    requires CacheOk(c) && SlotsOk(c, s) && i < s.count
    ensures SLAB_HEADER <= ObjectAt(c, s, i) && ObjectAt(c, s, i) + c.objectSize <= Bytes(c.order)
    ensures Multiple(ObjectAt(c, s, i), c.alignment)
  {
    TimesGrows(i, s.count, c.stride);
    MultipleTimes(c.stride, i, c.alignment);
    MultipleSum(s.start, c.payload, c.alignment);
    MultipleSum(s.start + c.payload, i * c.stride, c.alignment);
  }

  lemma ObjectsApart(c: Cache, s: Slots, i: nat, j: nat)
    requires CacheOk(c) && i < j
    ensures ObjectAt(c, s, i) + c.objectSize <= ObjectAt(c, s, j)
  {
    TimesGrows(i, j, c.stride);
  }

  /** The index an offset stands for, as computed on freeing. */
  lemma ObjectIndex(c: Cache, s: Slots, i: nat)
    requires CacheOk(c)
    ensures var d := ObjectAt(c, s, i) - (s.start + c.payload); d % c.stride == 0 && d / c.stride == i
  {
    DivisionUnique(i * c.stride, i, 0, c.stride);
  }

  /** The slots of a new slab; successive slabs shift their objects within the space left over. */
  method Colour(c: Cache, next: nat) returns (s: Slots)
    requires CacheOk(c)
    ensures SlotsOk(c, s) && s.count == ObjectCount(c)
  {
    var count := ObjectCount(c);
    var leftover := Leftover(c);
    var colours := leftover / c.alignment + 1;
    var k := next % colours;
    ColourFits(c, k);
    return Slots(Start(c) + k * c.alignment, count);
  }

  function Leftover(c: Cache): (r: nat)
    requires c.alignment > 0 && c.stride > 0 && Start(c) <= Bytes(c.order)
    ensures Start(c) + ObjectCount(c) * c.stride + r == Bytes(c.order)
  {
    var room := Bytes(c.order) - Start(c);
    assert room == room / c.stride * c.stride + room % c.stride;
    room - ObjectCount(c) * c.stride
  }

  lemma ColourFits(c: Cache, k: nat)
    requires CacheOk(c) && Start(c) <= Bytes(c.order) && k <= Leftover(c) / c.alignment
    ensures SlotsOk(c, Slots(Start(c) + k * c.alignment, ObjectCount(c)))
  {
    hide Leftover, ObjectCount;
    AlignUpIs(SLAB_HEADER, c.alignment);
    hide AlignUp;
    var left := Leftover(c);
    TimesUpTo(k, left / c.alignment, c.alignment);
    assert left == left / c.alignment * c.alignment + left % c.alignment;
    assert Multiple(c.alignment, c.alignment) by { assert c.alignment == 1 * c.alignment; }
    MultipleTimes(c.alignment, k, c.alignment);
    MultipleSum(Start(c), k * c.alignment, c.alignment);
  }
}
