/**
 The page cache of one file as a refinement of a flat file.  Cached pages stand between
 readers and writers and a backing store that may be shorter than the file; what the file
 contains is decided by the pages that are up to date and by the backing store elsewhere.
 */
module PageCache {
  import opened Basics

  const PAGE: nat := 4096
  const SPACE: nat := 0x1_0000_0000_0000_0000      // file sizes and offsets are below 2^64

  datatype Page = Page(data: seq<Byte>, uptodate: bool, dirty: bool)

  type Pages = map<nat, Page>

  function BackingByte(backing: seq<Byte>, pos: nat): Byte { if pos < |backing| then backing[pos] else 0 }

  /** Byte i of page k of the backing store. */
  function OnPage(backing: seq<Byte>, k: nat, i: nat): Byte { BackingByte(backing, k * PAGE + i) }

  /** The byte of the file at a position; 0 beyond its end. */
  function ByteAt(pages: Pages, backing: seq<Byte>, pos: nat): Byte {
    var k := pos / PAGE;
    if k in pages && pages[k].uptodate && |pages[k].data| == PAGE then pages[k].data[pos % PAGE]
        else BackingByte(backing, pos)
  }

  ghost predicate PageOk(size: nat, backing: seq<Byte>, k: nat, p: Page) {
    && k * PAGE < SPACE && |p.data| == PAGE && (p.dirty ==> p.uptodate)
    && (p.uptodate ==> forall i {:trigger p.data[i]} :: 0 <= i < PAGE && size <= k * PAGE + i ==> p.data[i] == 0)
    && (p.uptodate && !p.dirty ==> forall i {:trigger p.data[i]} :: 0 <= i < PAGE ==>
        p.data[i] == OnPage(backing, k, i))
  }

  ghost predicate PagesOk(size: nat, pages: Pages, backing: seq<Byte>) {
    forall k {:trigger PageOk(size, backing, k, pages[k])} :: k in pages ==> PageOk(size, backing, k, pages[k])
  }

  ghost predicate Inv(size: nat, pages: Pages, backing: seq<Byte>) {
    |backing| <= size < SPACE && PagesOk(size, pages, backing)
  }

  /** Nothing is stored beyond the end of the file. */
  lemma ZeroBeyondEnd(size: nat, pages: Pages, backing: seq<Byte>, pos: nat)
    requires Inv(size, pages, backing) && size <= pos
    ensures ByteAt(pages, backing, pos) == 0
  {
    var k := pos / PAGE;
    if k in pages { assert PageOk(size, backing, k, pages[k]); }
  }

  /** The file: its size and every byte of it. */
  ghost predicate SameFile(pages: Pages, backing: seq<Byte>, pages': Pages, backing': seq<Byte>) {
    forall pos: nat {:trigger ByteAt(pages', backing', pos)} ::
        ByteAt(pages', backing', pos) == ByteAt(pages, backing, pos)
  }

  /** With no dirty page left the backing store holds the whole file. */
  lemma CleanIsStored(size: nat, pages: Pages, backing: seq<Byte>)
    requires Inv(size, pages, backing) && forall k :: k in pages ==> !pages[k].dirty
    ensures SameFile(pages, backing, map[], backing)
  {
    forall pos: nat ensures ByteAt(pages, backing, pos) == BackingByte(backing, pos) {
      var k := pos / PAGE;
      assert pos == k * PAGE + pos % PAGE;
      if k in pages { assert PageOk(size, backing, k, pages[k]); }
    }
  }

  // ---- One page ----

  function Zeros(n: nat): (r: seq<Byte>)
    ensures |r| == n && forall i {:trigger r[i]} :: 0 <= i < n ==> r[i] == 0
  {
    seq(n, _ => 0)
  }

  /** What the backing store has of the page, zeros after it. */
  function Loaded(backing: seq<Byte>, k: nat): (r: seq<Byte>)
    ensures |r| == PAGE && forall i {:trigger r[i]} :: 0 <= i < PAGE ==> r[i] == OnPage(backing, k, i)
  {
    seq<Byte>(PAGE, i requires 0 <= i => OnPage(backing, k, i))
  }

  /** Loading a page, up to date now, shows what was there. */
  lemma LoadKeeps(size: nat, pages: Pages, backing: seq<Byte>, k: nat)
    requires Inv(size, pages, backing) && k in pages && !pages[k].uptodate
    ensures Inv(size, pages[k := Page(Loaded(backing, k), true, pages[k].dirty)], backing)
    ensures SameFile(pages, backing, pages[k := Page(Loaded(backing, k), true, pages[k].dirty)], backing)
  {
    var pages' := pages[k := Page(Loaded(backing, k), true, pages[k].dirty)];
    assert PageOk(size, backing, k, pages[k]);
    forall j | j in pages' ensures PageOk(size, backing, j, pages'[j]) {
      assert j in pages && PageOk(size, backing, j, pages[j]);
    }
  }

  /** A page that is not up to date can come and go unseen. */
  lemma AddKeeps(size: nat, pages: Pages, backing: seq<Byte>, k: nat)
    requires Inv(size, pages, backing) && k !in pages && k * PAGE < SPACE
    ensures Inv(size, pages[k := Page(Zeros(PAGE), false, false)], backing)
    ensures SameFile(pages, backing, pages[k := Page(Zeros(PAGE), false, false)], backing)
  {
    var pages' := pages[k := Page(Zeros(PAGE), false, false)];
    forall j | j in pages' ensures PageOk(size, backing, j, pages'[j]) {
      assert j != k ==> PageOk(size, backing, j, pages[j]);
    }
  }

  /** A page that is not dirty can be dropped unseen. */
  lemma DropKeeps(size: nat, pages: Pages, backing: seq<Byte>, k: nat)
    requires Inv(size, pages, backing) && k in pages && !pages[k].dirty
    ensures Inv(size, pages - {k}, backing) && SameFile(pages, backing, pages - {k}, backing)
  {
    var pages' := pages - {k};
    forall j | j in pages' ensures PageOk(size, backing, j, pages'[j]) { assert PageOk(size, backing, j, pages[j]); }
    assert PageOk(size, backing, k, pages[k]);
  }

  // ---- Writing back ----

  /** Bytes written to the backing store, which grows as needed and fills gaps with zeros. */
  function Stored(backing: seq<Byte>, start: nat, bytes: seq<Byte>): (r: seq<Byte>)
    ensures forall pos: nat {:trigger BackingByte(r, pos)} ::
              BackingByte(r, pos) == if start <= pos < start + |bytes| then bytes[pos - start]
                  else BackingByte(backing, pos)
    ensures |r| == if bytes == [] || start + |bytes| <= |backing| then |backing| else start + |bytes|
  {
    var n := if bytes == [] || start + |bytes| <= |backing| then |backing| else start + |bytes|;
    seq(n, pos requires 0 <= pos => if start <= pos < start + |bytes| then bytes[pos - start]
        else BackingByte(backing, pos))
  }

  /** How much of page k lies inside the file. */
  function InFile(size: nat, k: nat): (n: nat)
    ensures n <= PAGE && forall i {:trigger k * PAGE + i} :: 0 <= i < PAGE ==> (i < n <==> k * PAGE + i < size)
  {
    var start := k * PAGE;
    if start >= size then 0 else if size - start < PAGE then size - start else PAGE
  }

  /** Writing a dirty page back makes it clean and leaves the file as it is. */
  lemma WritebackKeeps(size: nat, pages: Pages, backing: seq<Byte>, k: nat)
    requires Inv(size, pages, backing) && k in pages && pages[k].dirty && |pages[k].data| == PAGE
    ensures var backing' := Stored(backing, k * PAGE, pages[k].data[..InFile(size, k)]);
            var pages' := pages[k := pages[k].(dirty := false)];
            Inv(size, pages', backing') && SameFile(pages, backing, pages', backing')
  {
    var n := InFile(size, k);
    var bytes := pages[k].data[..n];
    var backing' := Stored(backing, k * PAGE, bytes);
    var pages' := pages[k := pages[k].(dirty := false)];
    assert PageOk(size, backing, k, pages[k]);
    forall i | 0 <= i < PAGE ensures OnPage(backing', k, i) == pages[k].data[i] {
      assert i < n <==> k * PAGE + i < size;
      assert i < n ==> bytes[i] == pages[k].data[i];
    }
    forall j | j in pages' ensures PageOk(size, backing', j, pages'[j]) {
      if j != k {
        assert PageOk(size, backing, j, pages[j]);
        forall i | 0 <= i < PAGE ensures OnPage(backing', j, i) == OnPage(backing, j, i) {
          assert j * PAGE + i < k * PAGE || j * PAGE + i >= k * PAGE + PAGE;
        }
      }
    }
    forall pos: nat ensures ByteAt(pages', backing', pos) == ByteAt(pages, backing, pos) {
      var j := pos / PAGE;
      assert pos == j * PAGE + pos % PAGE;
      if j != k { assert pos < k * PAGE || pos >= k * PAGE + PAGE; }
    }
    assert k * PAGE + n <= size || n == 0;
  }

  // ---- Writing ----

  /** Bytes put into an up-to-date page, at a position of the file; the file may grow. */
  lemma PatchKeeps(size: nat, pages: Pages, backing: seq<Byte>, k: nat, inside: nat, bytes: seq<Byte>)
    requires Inv(size, pages, backing) && k in pages && pages[k].uptodate && |pages[k].data| == PAGE
    requires inside + |bytes| <= PAGE && k * PAGE + inside + |bytes| < SPACE
    ensures var pages' := pages[k := Page(Patch(pages[k].data, inside, bytes), true, true)];
            var start := k * PAGE + inside;
            && Inv(Max(size, start + |bytes|), pages', backing)
            && forall pos: nat {:trigger ByteAt(pages', backing, pos)} ::
                 ByteAt(pages', backing, pos) == if start <= pos < start + |bytes| then bytes[pos - start]
                     else ByteAt(pages, backing, pos)
  {
    var pages' := pages[k := Page(Patch(pages[k].data, inside, bytes), true, true)];
    var start := k * PAGE + inside;
    var size' := Max(size, start + |bytes|);
    assert PageOk(size, backing, k, pages[k]);
    forall j | j in pages' ensures PageOk(size', backing, j, pages'[j]) {
      assert PageOk(size, backing, j, pages[j]);
      if j == k {
        forall i | 0 <= i < PAGE && size' <= k * PAGE + i ensures pages'[k].data[i] == 0 {
          assert pages'[k].data[i] == pages[k].data[i];
        }
      }
    }
    forall pos: nat
      ensures ByteAt(pages', backing, pos) == if start <= pos < start + |bytes| then bytes[pos - start]
          else ByteAt(pages, backing, pos)
    {
      var j, i := pos / PAGE, pos % PAGE;
      assert pos == j * PAGE + i;
      if j == k {
        assert start <= pos < start + |bytes| <==> inside <= i < inside + |bytes|;
        assert pages'[k].data[i] == if inside <= i < inside + |bytes| then bytes[i - inside] else pages[k].data[i];
      } else {
        assert pos < k * PAGE || pos >= k * PAGE + PAGE;
      }
    }
  }

  /** A page wholly beyond the end of the file can be filled with zeros unread. */
  lemma ZeroPageKeeps(size: nat, pages: Pages, backing: seq<Byte>, k: nat)
    requires Inv(size, pages, backing) && k in pages && !pages[k].uptodate && size <= k * PAGE
    ensures Inv(size, pages[k := Page(Zeros(PAGE), true, pages[k].dirty)], backing)
    ensures SameFile(pages, backing, pages[k := Page(Zeros(PAGE), true, pages[k].dirty)], backing)
  {
    LoadKeeps(size, pages, backing, k);
    assert Loaded(backing, k) == Zeros(PAGE);
  }

  // ---- Ranges of pages ----

  /** A page has bytes in a range; a range whose end comes before its start has none. */
  predicate Overlaps(k: nat, start: nat, end: nat) {
    start <= end && start <= k * PAGE + PAGE - 1 && k * PAGE <= end
  }

  function PagesIn(pages: Pages, start: nat, end: nat): set<nat> { set k | k in pages && Overlaps(k, start, end) }

  function DirtyIn(pages: Pages, start: nat, end: nat): set<nat> {
    set k | k in pages && pages[k].dirty && Overlaps(k, start, end)
  }

  lemma NoRange(pages: Pages, start: nat, end: nat)
    requires end < start
    ensures PagesIn(pages, start, end) == DirtyIn(pages, start, end) == {}
  {}

  // ---- Truncating ----

  /** The backing store cut or extended with zeros. */
  function Resized(backing: seq<Byte>, n: nat): (r: seq<Byte>)
    ensures |r| == n
    ensures forall pos: nat {:trigger BackingByte(r, pos)} ::
        BackingByte(r, pos) == if pos < n then BackingByte(backing, pos) else 0
  {
    seq<Byte>(n, pos requires 0 <= pos => BackingByte(backing, pos))
  }

  /** The first page wholly beyond size n, as computed in 64 bits. */
  function FirstDead(n: nat): nat { (n + PAGE - 1) % SPACE / PAGE }

  /** The cache after the file shrinks to n. */
  function Shrunk(pages: Pages, n: nat): Pages {
    var kept := pages - PagesIn(pages, FirstDead(n) * PAGE, SPACE - 1);
    var last := n / PAGE;
    if n % PAGE != 0 && last in kept && |kept[last].data| == PAGE
    then kept[last := kept[last].(data := Patch(kept[last].data, n % PAGE, Zeros(PAGE - n % PAGE)))]
    else kept
  }

  /** The file is cut, or extended with zeros, to n bytes. */
  ghost predicate Truncated(pages: Pages, backing: seq<Byte>, pages': Pages, backing': seq<Byte>, n: nat) {
    forall pos: nat {:trigger ByteAt(pages', backing', pos)} ::
      ByteAt(pages', backing', pos) == if pos < n then ByteAt(pages, backing, pos) else 0
  }

  lemma GrowRight(size: nat, pages: Pages, backing: seq<Byte>, n: nat)
    requires Inv(size, pages, backing) && size <= n < SPACE
    ensures Inv(n, pages, Resized(backing, n)) && Truncated(pages, backing, pages, Resized(backing, n), n)
  {
    var backing' := Resized(backing, n);
    forall k | k in pages ensures PageOk(n, backing', k, pages[k]) {
      assert PageOk(size, backing, k, pages[k]);
      assert forall i: nat :: OnPage(backing', k, i) == OnPage(backing, k, i);
    }
    forall pos: nat ensures ByteAt(pages, backing', pos) == if pos < n then ByteAt(pages, backing, pos) else 0 {
      if n <= pos { ZeroBeyondEnd(size, pages, backing, pos); }
      assert BackingByte(backing', pos) == BackingByte(backing, pos);
    }
  }

  /** Without wrap-around exactly the pages beyond the new end go. */
  lemma KeptPages(pages: Pages, n: nat, k: nat)
    requires n + PAGE - 1 < SPACE && k in pages && k * PAGE < SPACE
    ensures k in Shrunk(pages, n) <==> k * PAGE < n
    ensures k in Shrunk(pages, n) && (n % PAGE == 0 || k != n / PAGE) ==> Shrunk(pages, n)[k] == pages[k]
  {
    assert FirstDead(n) * PAGE <= k * PAGE + PAGE - 1 <==> n <= k * PAGE;
  }

  lemma ShrunkPage(size: nat, pages: Pages, backing: seq<Byte>, n: nat, k: nat)
    requires Inv(size, pages, backing) && n < size && n + PAGE - 1 < SPACE && k in Shrunk(pages, n)
    ensures k in pages && PageOk(n, Resized(backing, n), k, Shrunk(pages, n)[k]) && k * PAGE < n
    ensures forall i {:trigger Shrunk(pages, n)[k].data[i]} :: 0 <= i < PAGE && k * PAGE + i < n ==>
        Shrunk(pages, n)[k].data[i] == pages[k].data[i]
    ensures Shrunk(pages, n)[k].uptodate == pages[k].uptodate
  {
    assert PageOk(size, backing, k, pages[k]);
    KeptPages(pages, n, k);
    var p, backing' := Shrunk(pages, n)[k], Resized(backing, n);
    forall i | 0 <= i < PAGE
        ensures k * PAGE + i < n ==> p.data[i] == pages[k].data[i] && OnPage(backing', k, i) == OnPage(backing, k, i) {
      assert k == n / PAGE && n % PAGE != 0 ==> (i < n % PAGE <==> k * PAGE + i < n);
    }
    forall i | 0 <= i < PAGE ensures n <= k * PAGE + i && p.uptodate ==> p.data[i] == 0 && OnPage(backing', k, i) == 0 {
      assert n <= k * PAGE + i ==> k == n / PAGE && n % PAGE != 0 && n % PAGE <= i;
    }
  }

  /** Shrinking cuts the file, as long as rounding the size up stays below 2^64. */
  lemma ShrinkRight(size: nat, pages: Pages, backing: seq<Byte>, n: nat)
    requires Inv(size, pages, backing) && n < size && n + PAGE - 1 < SPACE
    ensures
      && Inv(n, Shrunk(pages, n), Resized(backing, n))
      && Truncated(pages, backing, Shrunk(pages, n), Resized(backing, n), n)
  {
    var pages', backing' := Shrunk(pages, n), Resized(backing, n);
    forall k | k in pages' ensures PageOk(n, backing', k, pages'[k]) { ShrunkPage(size, pages, backing, n, k); }
    forall pos: nat ensures ByteAt(pages', backing', pos) == if pos < n then ByteAt(pages, backing, pos) else 0 {
      var k := pos / PAGE;
      assert pos == k * PAGE + pos % PAGE;
      if n <= pos {
        ZeroBeyondEnd(n, pages', backing', pos);
      } else {
        if k in pages { assert PageOk(size, backing, k, pages[k]); KeptPages(pages, n, k); }
        if k in pages' { ShrunkPage(size, pages, backing, n, k); }
      }
    }
  }

  /** With wrap-around every page goes, dirty or not, and the backing store is all that is left. */
  lemma ShrinkWraps(size: nat, pages: Pages, backing: seq<Byte>, n: nat)
    requires Inv(size, pages, backing) && n < size && SPACE <= n + PAGE - 1
    ensures Shrunk(pages, n) == map[] && Inv(n, Shrunk(pages, n), Resized(backing, n))
  {
    assert FirstDead(n) == 0;
    forall k | k in pages ensures k in PagesIn(pages, 0, SPACE - 1) { assert PageOk(size, backing, k, pages[k]); }
  }

  /** Shrinking is right in every state of the cache exactly when the rounded size stays below 2^64. */
  lemma ShrinkRightIff(n: nat)
    requires n + 1 < SPACE
    ensures n + PAGE - 1 < SPACE <==>
            forall size: nat, pages: Pages, backing: seq<Byte> {:trigger Inv(size, pages, backing)} ::
              Inv(size, pages, backing) && n < size ==>
                  Truncated(pages, backing, Shrunk(pages, n), Resized(backing, n), n)
  {
    if n + PAGE - 1 < SPACE {
      forall size: nat, pages: Pages, backing: seq<Byte> | Inv(size, pages, backing) && n < size
        ensures Truncated(pages, backing, Shrunk(pages, n), Resized(backing, n), n)
      {
        ShrinkRight(size, pages, backing, n);
      }
    } else {
      var pages := DirtyFirstPage(n + 1);
      ShrinkWraps(n + 1, pages, [], n);
      assert ByteAt(pages, [], 0) == 1 && ByteAt(Shrunk(pages, n), Resized([], n), 0) == 0;
    }
  }

  /** A large sparse file with one byte written and not yet stored. */
  lemma DirtyFirstPage(size: nat) returns (pages: Pages)
    requires PAGE <= size < SPACE
    ensures Inv(size, pages, []) && 0 in pages && pages[0] == Page(Patch(Zeros(PAGE), 0, [1]), true, true)
  {
    pages := map[0 := Page(Patch(Zeros(PAGE), 0, [1]), true, true)];
    assert PageOk(size, [], 0, pages[0]);
  }
}
