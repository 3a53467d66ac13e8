/** Reading, writing, writing back, invalidating and truncating a cached file. */
module PageCacheFile {
  import opened Basics
  import opened PageCache
  import PageSort

  datatype Status = Ok | NoMemory | IoError | Busy | TooBig | Invalid

  /**
   What goes wrong during one call, by page: no memory for the page, a failing read, a failing
   write together with how many bytes of it reached the store; and no memory for the list of a
   write-back, a failing sync.
   */
  datatype Faults = Faults(alloc: set<nat>, read: set<nat>, write: map<nat, nat>, list: bool, sync: bool)

  const MAX_LIST: nat := 1000000

  /** The bytes of s now stand at offset, everything else is as it was. */
  ghost predicate Written(pages: Pages, backing: seq<Byte>, pages': Pages, backing': seq<Byte>, offset: nat,
                          s: seq<Byte>) {
    forall pos: nat {:trigger ByteAt(pages', backing', pos)} ::
      ByteAt(pages', backing', pos) == if offset <= pos < offset + |s| then s[pos - offset]
          else ByteAt(pages, backing, pos)
  }

  ghost predicate Shows(pages: Pages, backing: seq<Byte>, offset: nat, s: seq<Byte>) {
    forall i {:trigger s[i]} :: 0 <= i < |s| ==> s[i] == ByteAt(pages, backing, offset + i)
  }

  lemma SameFileTransitive(pages: Pages, backing: seq<Byte>, pages': Pages, backing': seq<Byte>, pages'': Pages,
                           backing'': seq<Byte>)
    requires SameFile(pages, backing, pages', backing') && SameFile(pages', backing', pages'', backing'')
    ensures SameFile(pages, backing, pages'', backing'')
  {
    hide ByteAt;
    forall pos: nat ensures ByteAt(pages'', backing'', pos) == ByteAt(pages, backing, pos) {
      assert ByteAt(pages', backing', pos) == ByteAt(pages, backing, pos);
    }
  }

  lemma SameFileSelf(pages: Pages, backing: seq<Byte>)
    ensures SameFile(pages, backing, pages, backing)
  {}

  /** Some pages have gone, some have been cleaned; no other page has changed. */
  ghost predicate Thinned(pages: Pages, pages': Pages) {
    && pages'.Keys <= pages.Keys
    && forall k :: k in pages' ==> pages'[k] == pages[k] || pages'[k] == pages[k].(dirty := false)
  }

  /** Why a write-back is refused as a whole; Ok when it is not. */
  function Refused(pages: Pages, start: nat, end: nat, faults: Faults): Status {
    var n := |DirtyIn(pages, start, end)|;
    if n > MAX_LIST then TooBig else if n > 0 && faults.list then NoMemory else Ok
  }

  /** The pages of a list whose write succeeds are clean, all others are as they were. */
  ghost predicate Cleaned(pages: Pages, pages': Pages, list: seq<nat>, faults: Faults)
    requires pages'.Keys == pages.Keys
  {
    forall k :: k in pages' ==>
      pages'[k] == if k in list && k !in faults.write then pages[k].(dirty := false) else pages[k]
  }

  lemma InvSized(size: nat, pages: Pages, backing: seq<Byte>, k: nat)
    requires Inv(size, pages, backing) && k in pages
    ensures |pages[k].data| == PAGE
  {
    assert PageOk(size, backing, k, pages[k]);
  }

  /** A page shows its part of the file. */
  lemma PageShows(pages: Pages, backing: seq<Byte>, k: nat, inside: nat, n: nat)
    requires k in pages && pages[k].uptodate && |pages[k].data| == PAGE && inside + n <= PAGE
    ensures Shows(pages, backing, k * PAGE + inside, pages[k].data[inside..inside + n])
  {
    var s := pages[k].data[inside..inside + n];
    forall i | 0 <= i < n ensures s[i] == ByteAt(pages, backing, k * PAGE + inside + i) {
      assert (k * PAGE + inside + i) / PAGE == k && (k * PAGE + inside + i) % PAGE == inside + i;
    }
  }

  lemma ShowsMore(pages: Pages, backing: seq<Byte>, offset: nat, s: seq<Byte>, next: nat, t: seq<Byte>)
    requires Shows(pages, backing, offset, s) && next == offset + |s| && Shows(pages, backing, next, t)
    ensures Shows(pages, backing, offset, s + t)
  {
    hide ByteAt;
    forall i | 0 <= i < |s + t| ensures (s + t)[i] == ByteAt(pages, backing, offset + i) {
      if i >= |s| { assert (s + t)[i] == t[i - |s|] && offset + i == next + (i - |s|); }
    }
  }

  lemma ShowsSame(pages: Pages, backing: seq<Byte>, pages': Pages, backing': seq<Byte>, offset: nat, s: seq<Byte>)
    requires Shows(pages, backing, offset, s) && SameFile(pages, backing, pages', backing')
    ensures Shows(pages', backing', offset, s)
  {
    hide ByteAt;
  }

  lemma WrittenMore(p0: Pages, b0: seq<Byte>, p1: Pages, b1: seq<Byte>, p2: Pages, b2: seq<Byte>, offset: nat,
                    s: seq<Byte>, next: nat, t: seq<Byte>)
    requires Written(p0, b0, p1, b1, offset, s) && next == offset + |s| && Written(p1, b1, p2, b2, next, t)
    ensures Written(p0, b0, p2, b2, offset, s + t)
  {
    hide ByteAt;
    forall pos: nat
        ensures ByteAt(p2, b2, pos) == if offset <= pos < offset + |s + t| then (s + t)[pos - offset]
            else ByteAt(p0, b0, pos) {
      assert ByteAt(p1, b1, pos) == if offset <= pos < offset + |s| then s[pos - offset] else ByteAt(p0, b0, pos);
      if next <= pos < next + |t| { assert (s + t)[pos - offset] == t[pos - next]; }
    }
  }

  lemma PatchWrites(size: nat, pages: Pages, backing: seq<Byte>, k: nat, inside: nat, bytes: seq<Byte>)
    requires Inv(size, pages, backing) && k in pages && pages[k].uptodate && |pages[k].data| == PAGE
    requires bytes != [] && inside + |bytes| <= PAGE && k * PAGE + inside + |bytes| < SPACE
    ensures var pages' := pages[k := Page(Patch(pages[k].data, inside, bytes), true, true)];
            && Inv(Max(size, k * PAGE + inside + |bytes|), pages', backing)
            && Written(pages, backing, pages', backing, k * PAGE + inside, bytes)
  {
    PatchKeeps(size, pages, backing, k, inside, bytes);
    hide ByteAt, Inv;
  }

  /** A write over all of a page does not need what was there. */
  lemma WholePage(size: nat, pages: Pages, backing: seq<Byte>, k: nat, bytes: seq<Byte>)
    requires Inv(size, pages, backing) && k in pages && !pages[k].uptodate && |bytes| == PAGE && k * PAGE + PAGE < SPACE
    ensures var pages' := pages[k := Page(Patch(Zeros(PAGE), 0, bytes), true, true)];
            Inv(Max(size, k * PAGE + PAGE), pages', backing)
                && Written(pages, backing, pages', backing, k * PAGE, bytes)
  {
    var loaded := pages[k := Page(Loaded(backing, k), true, pages[k].dirty)];
    LoadKeeps(size, pages, backing, k);
    PatchKeeps(size, loaded, backing, k, 0, bytes);
    assert Patch(Zeros(PAGE), 0, bytes) == Patch(Loaded(backing, k), 0, bytes);
    var pages' := loaded[k := Page(Patch(Loaded(backing, k), 0, bytes), true, true)];
    assert pages' == pages[k := Page(Patch(Zeros(PAGE), 0, bytes), true, true)];
    forall pos: nat
        ensures ByteAt(pages', backing, pos) == if k * PAGE <= pos < k * PAGE + PAGE then bytes[pos - k * PAGE]
            else ByteAt(pages, backing, pos) {
      assert ByteAt(loaded, backing, pos) == ByteAt(pages, backing, pos);
    }
  }

  /** A failing write leaves the page dirty, whatever reached the store. */
  lemma FailedWriteKeeps(size: nat, pages: Pages, backing: seq<Byte>, k: nat, m: nat)
    requires
      && Inv(size, pages, backing) && k in pages && pages[k].dirty && m <= InFile(size, k) && |pages[k].data| == PAGE
    ensures var backing' := Stored(backing, k * PAGE, pages[k].data[..m]);
            Inv(size, pages, backing') && SameFile(pages, backing, pages, backing')
  {
    var backing' := Stored(backing, k * PAGE, pages[k].data[..m]);
    assert PageOk(size, backing, k, pages[k]);
    forall j | j in pages ensures PageOk(size, backing', j, pages[j]) {
      assert PageOk(size, backing, j, pages[j]);
      if j != k {
        forall i | 0 <= i < PAGE ensures OnPage(backing', j, i) == OnPage(backing, j, i) {
          assert j * PAGE + i < k * PAGE || j * PAGE + i >= k * PAGE + PAGE;
        }
      }
    }
    forall pos: nat ensures ByteAt(pages, backing', pos) == ByteAt(pages, backing, pos) {
      var j := pos / PAGE;
      assert pos == j * PAGE + pos % PAGE;
      if j != k { assert pos < k * PAGE || pos >= k * PAGE + PAGE; }
    }
    assert m > 0 ==> k * PAGE + (m - 1) < size;
  }

  class File {
    var size: nat
    var pages: Pages
    var backing: seq<Byte>

    ghost predicate Valid()
      reads this
    {
      Inv(size, pages, backing)
    }

    constructor (store: seq<Byte>, n: nat)
      requires |store| <= n < SPACE
      ensures Valid() && size == n && backing == store && pages == map[]
    {
      size, pages, backing := n, map[], store;
    }

    /** The part of pc_get_page that adds a page, without making room first. */
    method AddPage(k: nat, faults: Faults) returns (ok: bool)
      requires Valid() && k * PAGE < SPACE
      modifies this`pages
      ensures Valid() && SameFile(old(pages), backing, pages, backing)
      ensures ok ==> k in pages && |pages[k].data| == PAGE
      ensures !ok ==> k in faults.alloc
      ensures forall j :: j != k ==> (j in pages <==> j in old(pages))
      ensures forall j :: j in old(pages) ==> j in pages && pages[j] == old(pages)[j]
    {
      hide ByteAt;
      if k !in pages {
        SameFileSelf(pages, backing);
        if k in faults.alloc { return false; }
        AddKeeps(size, pages, backing, k);
        pages := pages[k := Page(Zeros(PAGE), false, false)];
      } else {
        assert PageOk(size, backing, k, pages[k]);
      }
      return true;
    }

    /**
     What a call of pagecache_reclaim may do to this file: any of its pages, in any order, are written
     back, and dropped or not.
     */
    method MakeRoom(faults: Faults)
      requires Valid()
      modifies this`pages, this`backing
      ensures Valid() && SameFile(old(pages), old(backing), pages, backing) && Thinned(old(pages), pages)
    {
      hide ByteAt, Inv, SameFile;
      SameFileSelf(pages, backing);
      var victims: seq<nat> := *;
      for i := 0 to |victims|
        invariant Valid() && SameFile(old(pages), old(backing), pages, backing) && Thinned(old(pages), pages)
      {
        ghost var before, store := pages, backing;
        var drop: bool := *;
        if victims[i] in pages {
          if drop {
            var _ := ReclaimPage(victims[i], faults);
          } else {
            var _ := WritebackPage(victims[i], faults);
          }
          SameFileTransitive(old(pages), old(backing), before, store, pages, backing);
        }
      }
    }

    /** pagecache_get_page with create set: a page that is not there yet may cost others their place. */
    method GetPage(k: nat, faults: Faults) returns (ok: bool)
      requires Valid() && k * PAGE < SPACE
      modifies this`pages, this`backing
      ensures Valid() && SameFile(old(pages), old(backing), pages, backing)
      ensures ok ==> k in pages && |pages[k].data| == PAGE
      ensures !ok ==> k in faults.alloc
      ensures k in old(pages) ==> ok && pages == old(pages) && backing == old(backing)
      ensures Thinned(old(pages), pages - {k}) || pages == old(pages)
    {
      hide ByteAt, Inv, SameFile;
      SameFileSelf(pages, backing);
      if k in pages {
        InvSized(size, pages, backing, k);
        return true;
      }
      MakeRoom(faults);
      ghost var before := pages;
      ok := AddPage(k, faults);
      SameFileTransitive(old(pages), old(backing), before, backing, pages, backing);
      assert forall j :: j in pages - {k} ==> j in before && (pages - {k})[j] == before[j];
    }

    /** pc_load_locked */
    method Load(k: nat, faults: Faults) returns (ok: bool)
      requires Valid() && k in pages && |pages[k].data| == PAGE
      modifies this`pages
      ensures Valid() && SameFile(old(pages), backing, pages, backing) && k in pages && |pages[k].data| == PAGE
      ensures pages.Keys == old(pages).Keys
      ensures ok ==> pages[k].uptodate
      ensures !ok ==> k in faults.read
    {
      hide ByteAt;
      SameFileSelf(pages, backing);
      if pages[k].uptodate { return true; }
      if k in faults.read { return false; }
      LoadKeeps(size, pages, backing, k);
      pages := pages[k := Page(Loaded(backing, k), true, pages[k].dirty)];
      return true;
    }

    /** pagecache_read */
    method Read(offset: nat, n: nat, faults: Faults) returns (status: Status, data: seq<Byte>)
      requires Valid()
      modifies this`pages, this`backing
      ensures Valid() && SameFile(old(pages), old(backing), pages, backing)
      ensures |data| <= n && offset + |data| <= Max(size, offset) && Shows(pages, backing, offset, data)
      ensures status == Ok || data == []
      ensures |data| == n || offset + |data| >= size || (offset + |data|) / PAGE in faults.alloc + faults.read
    {
      assert size < SPACE;
      hide ByteAt, Inv;
      data := [];
      SameFileSelf(pages, backing);
      if offset >= size || n == 0 { return Ok, []; }
      var want := if n > size - offset then size - offset else n;
      while |data| < want
        invariant |data| <= want && Valid() && SameFile(old(pages), old(backing), pages, backing)
        invariant Shows(pages, backing, offset, data)
        decreases want - |data|
      {
        var at := offset + |data|;
        var k, inside := at / PAGE, at % PAGE;
        var count := if PAGE - inside > want - |data| then want - |data| else PAGE - inside;
        ghost var before, store := pages, backing;
        var ok := ReadPage(k, faults);
        SameFileTransitive(old(pages), old(backing), before, store, pages, backing);
        ShowsSame(before, store, pages, backing, offset, data);
        if !ok { return if data == [] then (if k in faults.alloc then NoMemory else IoError) else Ok, data; }
        PageShows(pages, backing, k, inside, count);
        ShowsMore(pages, backing, offset, data, at, pages[k].data[inside..inside + count]);
        data := data + pages[k].data[inside..inside + count];
      }
      var first: nat, ahead: nat := *, *; // what the readahead window asks for
      ghost var before := pages;
      var _ := Readahead(first, ahead, false, faults);
      SameFileTransitive(old(pages), old(backing), before, backing, pages, backing);
      ShowsSame(before, backing, pages, backing, offset, data);
      return Ok, data;
    }

    /** Get a page and make it up to date. */
    method ReadPage(k: nat, faults: Faults) returns (ok: bool)
      requires Valid() && k * PAGE < SPACE
      modifies this`pages, this`backing
      ensures Valid() && SameFile(old(pages), old(backing), pages, backing)
      ensures ok ==> k in pages && |pages[k].data| == PAGE && pages[k].uptodate
      ensures !ok ==> k in faults.alloc + faults.read
    {
      hide ByteAt, Inv, SameFile;
      ok := GetPage(k, faults);
      if !ok { return; }
      ghost var before := pages;
      ok := Load(k, faults);
      SameFileTransitive(old(pages), old(backing), before, backing, pages, backing);
    }

    /** pc_readahead_pages: brings pages of the file into the cache, and nothing else. */
    method Readahead(first: nat, count: nat, strict: bool, faults: Faults) returns (status: Status)
      requires Valid()
      modifies this`pages
      ensures Valid() && SameFile(old(pages), backing, pages, backing)
      ensures forall k :: k in pages && k !in old(pages) ==> first <= k < first + count && k * PAGE < size
      ensures !strict ==> status == Ok
    {
      assert size < SPACE;
      hide ByteAt, Inv;
      SameFileSelf(pages, backing);
      var filePages := size / PAGE + if size % PAGE != 0 then 1 else 0;
      if filePages == 0 || first >= filePages { return Ok; }
      var n := if count > filePages - first then filePages - first else count;
      for offset := 0 to n
        invariant Valid() && SameFile(old(pages), backing, pages, backing)
        invariant forall k :: k in pages && k !in old(pages) ==> first <= k < first + n
      {
        ghost var before := pages;
        var got := AddPage(first + offset, faults);
        SameFileTransitive(old(pages), backing, before, backing, pages, backing);
        if !got { return Ok; }
        ghost var mid := pages;
        var ok := Load(first + offset, faults);
        SameFileTransitive(old(pages), backing, mid, backing, pages, backing);
        if !ok { return if strict then IoError else Ok; }
      }
      return Ok;
    }

    /** What pagecache_reclaim does to a page it takes: written back if dirty, then dropped. */
    method ReclaimPage(k: nat, faults: Faults) returns (freed: bool)
      requires Valid() && k in pages
      modifies this`pages, this`backing
      ensures Valid() && SameFile(old(pages), old(backing), pages, backing)
      ensures freed <==> !(old(pages)[k].dirty && k in faults.write)
      ensures pages == if freed then old(pages) - {k} else old(pages)
    {
      hide ByteAt, Inv, SameFile;
      var status := WritebackPage(k, faults);
      if status != Ok { return false; }
      ghost var before := pages;
      DropKeeps(size, pages, backing, k);
      pages := pages - {k};
      SameFileTransitive(old(pages), old(backing), before, backing, pages, backing);
      return true;
    }

    /** One round of the loop of pagecache_write: bytes for one page. */
    method WritePage(k: nat, inside: nat, bytes: seq<Byte>, faults: Faults) returns (status: Status)
      requires Valid() && bytes != [] && inside + |bytes| <= PAGE && k * PAGE + inside + |bytes| < SPACE
      modifies this`pages, this`backing, this`size
      ensures Valid()
      ensures status == Ok ==>
                Written(old(pages), old(backing), pages, backing, k * PAGE + inside, bytes)
                    && size == Max(old(size), k * PAGE + inside + |bytes|)
      ensures status != Ok ==>
          SameFile(old(pages), old(backing), pages, backing) && size == old(size) && k in faults.alloc + faults.read
      ensures status in {Ok, NoMemory, IoError}
    {
      hide ByteAt, SameFile, Written, Thinned, Inv, PageOk, Patch, Loaded;
      var got := GetPage(k, faults);
      if !got { return NoMemory; }
      ghost var got' := pages;
      var start := k * PAGE;
      var oldInPage := InFile(size, k);
      if !pages[k].uptodate {
        if (inside > 0 || |bytes| != PAGE) && start < size {
          var ok := Load(k, faults);
          SameFileTransitive(old(pages), old(backing), got', backing, pages, backing);
          if !ok { return IoError; }
        } else if start < size {
          WholePage(size, pages, backing, k, bytes);
          WrittenSame(old(pages), old(backing), got', backing,
                      pages[k := Page(Patch(Zeros(PAGE), 0, bytes), true, true)], start, bytes);
          pages := pages[k := Page(Patch(Zeros(PAGE), 0, bytes), true, true)];
          size := Max(size, start + inside + |bytes|);
          return Ok;
        } else {
          ZeroPageKeeps(size, pages, backing, k);
          SameFileTransitive(old(pages), old(backing), got', backing,
                             pages[k := Page(Zeros(PAGE), true, pages[k].dirty)], backing);
          pages := pages[k := Page(Zeros(PAGE), true, pages[k].dirty)];
        }
      }
      ghost var ready := pages;
      var data := pages[k].data;
      if inside > oldInPage {
        data := Patch(data, oldInPage, Zeros(inside - oldInPage));
        AlreadyZero(size, pages, backing, k, oldInPage, inside);
        assert data == pages[k].data;
      }
      PatchWrites(size, pages, backing, k, inside, bytes);
      WrittenSame(old(pages), old(backing), ready, backing, pages[k := Page(Patch(data, inside, bytes), true, true)],
                  start + inside, bytes);
      pages := pages[k := Page(Patch(data, inside, bytes), true, true)];
      size := Max(size, start + inside + |bytes|);
      return Ok;
    }

    /** pagecache_write */
    method Write(offset: nat, s: seq<Byte>, faults: Faults) returns (status: Status, done: nat)
      requires Valid()
      modifies this`pages, this`backing, this`size
      ensures Valid() && done <= |s|
      ensures Written(old(pages), old(backing), pages, backing, offset, s[..done])
      ensures size == if done == 0 then old(size) else Max(old(size), offset + done)
      ensures status == TooBig <==> s != [] && offset + |s| >= SPACE
      ensures status != Ok ==> done == 0
      ensures done == |s| || status == TooBig || (offset + done) / PAGE in faults.alloc + faults.read
    {
      hide ByteAt, Inv, Written;
      done := 0;
      NothingWritten(pages, backing, offset);
      assert s[..0] == [];
      if s == [] { return Ok, 0; }
      if offset > SPACE - 1 - |s| { return TooBig, 0; }
      while done < |s|
        invariant done <= |s| && Valid() && Written(old(pages), old(backing), pages, backing, offset, s[..done])
        invariant size == if done == 0 then old(size) else Max(old(size), offset + done)
      {
        var at := offset + done;
        var k, inside := at / PAGE, at % PAGE;
        var count := if PAGE - inside > |s| - done then |s| - done else PAGE - inside;
        ghost var before, store := pages, backing;
        var result := WritePage(k, inside, s[done..done + count], faults);
        if result != Ok {
          WrittenThenSame(old(pages), old(backing), before, store, pages, backing, offset, s[..done]);
          return if done > 0 then Ok else result, done;
        }
        WrittenMore(old(pages), old(backing), before, store, pages, backing, offset, s[..done], at,
                    s[done..done + count]);
        assert s[..done] + s[done..done + count] == s[..done + count];
        done := done + count;
      }
      return Ok, done;
    }

    /** pc_writeback_page_locked */
    method WritebackPage(k: nat, faults: Faults) returns (status: Status)
      requires Valid() && k in pages
      modifies this`pages, this`backing
      ensures Valid() && SameFile(old(pages), old(backing), pages, backing)
      ensures status == Ok <==> !(old(pages)[k].dirty && k in faults.write)
      ensures pages == if status == Ok then old(pages)[k := old(pages)[k].(dirty := false)] else old(pages)
      ensures status in {Ok, IoError}
    {
      hide ByteAt;
      SameFileSelf(pages, backing);
      if !pages[k].dirty { return Ok; }
      assert PageOk(size, backing, k, pages[k]);
      var count := InFile(size, k);
      if k in faults.write {
        var stored := if faults.write[k] < count then faults.write[k] else count;
        FailedWriteKeeps(size, pages, backing, k, stored);
        backing := Stored(backing, k * PAGE, pages[k].data[..stored]);
        return IoError;
      }
      WritebackKeeps(size, pages, backing, k);
      backing := Stored(backing, k * PAGE, pages[k].data[..count]);
      pages := pages[k := pages[k].(dirty := false)];
      return Ok;
    }

    /** The dirty pages of a range of bytes, in the order of a walk over the hash table. */
    method CollectDirty(start: nat, end: nat) returns (list: seq<nat>)
      ensures Lists(list, DirtyIn(pages, start, end))
    {
      list := [];
      var left := DirtyIn(pages, start, end);
      while left != {}
        invariant left <= DirtyIn(pages, start, end) && Lists(list, DirtyIn(pages, start, end) - left)
        decreases |left|
      {
        var k :| k in left;
        ListsMore(list, DirtyIn(pages, start, end) - left, k);
        assert DirtyIn(pages, start, end) - left + {k} == DirtyIn(pages, start, end) - (left - {k});
        list := list + [k];
        left := left - {k};
      }
      assert DirtyIn(pages, start, end) - left == DirtyIn(pages, start, end);
    }

    /**
     pagecache_writeback: in file order, all of them even after an error; the first error is returned. Too
     long a list is refused before anything is written.
     */
    method Writeback(start: nat, end: nat, sync: bool, faults: Faults) returns (status: Status, ghost order: seq<nat>)
      requires Valid()
      modifies this`pages, this`backing
      ensures Valid() && SameFile(old(pages), old(backing), pages, backing)
      ensures pages.Keys == old(pages).Keys && status != Invalid
      ensures status == Refused(old(pages), start, end, faults) || Refused(old(pages), start, end, faults) == Ok
      ensures Refused(old(pages), start, end, faults) != Ok ==> pages == old(pages) && backing == old(backing)
      ensures Refused(old(pages), start, end, faults) == Ok ==>
                && PageSort.Sorted(order, 0) && Lists(order, DirtyIn(old(pages), start, end))
                && Cleaned(old(pages), pages, order, faults)
                && (status == Ok <==>
                    (forall k :: k in order ==> k !in faults.write) && !(start <= end && sync && faults.sync))
                && status in {Ok, IoError}
    {
      hide ByteAt, Inv, SameFile, DirtyIn;
      SameFileSelf(pages, backing);
      order := [];
      if end < start {
        NoRange(pages, start, end);
        assert Lists(order, {}) && PageSort.Sorted(order, 0) && Cleaned(pages, pages, order, faults);
        return Ok, [];
      }
      hide Lists, PageSort.Sorted, Cleaned;
      var list := CollectDirty(start, end);
      ListsCount(list, DirtyIn(pages, start, end));
      if |list| > MAX_LIST { return TooBig, []; }
      if list != [] && faults.list { return NoMemory, []; }
      var a := new nat[|list|](i requires 0 <= i < |list| => list[i]);
      assert a[..] == list;
      PageSort.Sort(a);
      ListsPermuted(list, a[..], DirtyIn(pages, start, end));
      order := a[..];
      status := WriteAll(a[..], start, end, faults);
      if status == Ok && sync && faults.sync { status := IoError; }
    }

    /** Writes back the pages of a list. */
    method WriteAll(order: seq<nat>, start: nat, end: nat, faults: Faults) returns (status: Status)
      requires Valid() && Lists(order, DirtyIn(pages, start, end))
      modifies this`pages, this`backing
      ensures Valid() && SameFile(old(pages), old(backing), pages, backing) && pages.Keys == old(pages).Keys
      ensures Cleaned(old(pages), pages, order, faults)
      ensures status == Ok <==> forall k :: k in order ==> k !in faults.write
      ensures status in {Ok, IoError}
    {
      hide ByteAt, Inv, SameFile, Lists, DirtyIn;
      SameFileSelf(pages, backing);
      ListsDirty(order, old(pages), start, end);
      status := Ok;
      for i := 0 to |order|
        invariant pages.Keys == old(pages).Keys && status in {Ok, IoError}
        invariant Valid() && SameFile(old(pages), old(backing), pages, backing)
        invariant Cleaned(old(pages), pages, order[..i], faults)
        invariant status == Ok <==> forall j :: 0 <= j < i ==> order[j] !in faults.write
      {
        ghost var before, store := pages, backing;
        ListsOnce(order, DirtyIn(old(pages), start, end), i);
        var result := WritebackPage(order[i], faults);
        SameFileTransitive(old(pages), old(backing), before, store, pages, backing);
        if result != Ok && status == Ok { status := result; }
        assert order[..i + 1] == order[..i] + [order[i]];
      }
      assert order[..|order|] == order;
    }

    /** pagecache_invalidate with dirty pages discarded */
    method DropRange(start: nat, end: nat)
      modifies this`pages
      ensures pages == old(pages) - PagesIn(old(pages), start, end)
    {
      if end < start {
        NoRange(pages, start, end);
        assert pages - {} == pages;
        return;
      }
      while PagesIn(pages, start, end) != {}
        invariant pages.Keys <= old(pages).Keys && forall k :: k in pages ==> pages[k] == old(pages)[k]
        invariant forall k :: k in old(pages) && !Overlaps(k, start, end) ==> k in pages
        decreases |pages|
      {
        var k :| k in PagesIn(pages, start, end);
        assert |pages - {k}| < |pages|;
        pages := pages - {k};
      }
      forall k ensures k in pages <==> k in old(pages) && k !in PagesIn(old(pages), start, end) {
        assert k in pages && Overlaps(k, start, end) ==> k in PagesIn(pages, start, end);
      }
    }

    /** pagecache_invalidate without discarding: clean pages go until a dirty one is met. */
    method Invalidate(start: nat, end: nat, pinned: bool) returns (status: Status)
      requires Valid()
      modifies this`pages
      ensures Valid() && SameFile(old(pages), backing, pages, backing)
      ensures status == Ok <==> end < start || (!pinned && DirtyIn(old(pages), start, end) == {})
      ensures status == Ok ==> pages == old(pages) - PagesIn(old(pages), start, end)
      ensures status in {Ok, Busy}
      ensures DirtyIn(pages, start, end) == DirtyIn(old(pages), start, end)
    {
      hide ByteAt, SameFile, Inv;
      SameFileSelf(pages, backing);
      if end < start {
        NoRange(pages, start, end);
        assert pages - {} == pages;
        return Ok;
      }
      if pinned { return Busy; }
      while PagesIn(pages, start, end) != {}
        invariant Valid() && pages.Keys <= old(pages).Keys && SameFile(old(pages), backing, pages, backing)
        invariant forall k :: k in pages ==> pages[k] == old(pages)[k]
        invariant forall k :: k in old(pages) && !Overlaps(k, start, end) ==> k in pages
        invariant DirtyIn(pages, start, end) == DirtyIn(old(pages), start, end)
        decreases |pages|
      {
        var k :| k in PagesIn(pages, start, end);
        if pages[k].dirty {
          assert k in DirtyIn(pages, start, end);
          return Busy;
        }
        ghost var before := pages;
        DropKeeps(size, pages, backing, k);
        assert |pages - {k}| < |pages|;
        pages := pages - {k};
        SameFileTransitive(old(pages), backing, before, backing, pages, backing);
        assert DirtyIn(pages, start, end) == DirtyIn(before, start, end);
      }
      assert DirtyIn(pages, start, end) <= PagesIn(pages, start, end);
      forall k ensures k in pages <==> k in old(pages) && k !in PagesIn(old(pages), start, end) {
        assert k in pages && Overlaps(k, start, end) ==> k in PagesIn(pages, start, end);
      }
      return Ok;
    }

    /** pagecache_evict with write-back: the range leaves the cache and the file stays what it was. */
    method Evict(start: nat, end: nat, pinned: bool, faults: Faults) returns (status: Status)
      requires Valid()
      modifies this`pages, this`backing
      ensures Valid() && SameFile(old(pages), old(backing), pages, backing)
      ensures var dirty := DirtyIn(old(pages), start, end);
              status == Ok <==>
                && start <= end && !pinned
                && (dirty != {} ==> Refused(old(pages), start, end, faults) == Ok && !faults.sync)
                && forall k :: k in dirty ==> k !in faults.write
      ensures status == Ok ==> PagesIn(pages, start, end) == {}
      ensures status == Invalid <==> end < start
      ensures status == Invalid ==> pages == old(pages) && backing == old(backing)
    {
      hide ByteAt, SameFile, Inv, Refused;
      SameFileSelf(pages, backing);
      if end < start { return Invalid; }
      ghost var order := [];
      var result := Ok;
      if DirtyIn(pages, start, end) != {} {
        result, order := Writeback(start, end, true, faults);
      }
      ghost var before, store := pages, backing;
      if result != Ok {
        return result;
      }
      assert DirtyIn(pages, start, end) == {};
      status := Invalidate(start, end, pinned);
      SameFileTransitive(old(pages), old(backing), before, store, pages, backing);
    }

    /** pagecache_truncate */
    method Truncate(n: nat, resizeFails: bool) returns (status: Status)
      requires Valid() && n < SPACE
      modifies this
      ensures Valid()
      ensures status == Ok <==> n == old(size) || !resizeFails
      ensures status != Ok ==> size == old(size) && pages == old(pages) && backing == old(backing)
      ensures status == Ok ==> size == n
      ensures status == Ok && (old(size) <= n || n + PAGE - 1 < SPACE) ==>
          Truncated(old(pages), old(backing), pages, backing, n)
      ensures status == Ok && n < old(size) && SPACE <= n + PAGE - 1 ==>
          Truncated(map[], old(backing), pages, backing, n)
    {
      hide ByteAt, Inv, FirstDead;
      if n == size {
        GrowRight(size, pages, backing, n);
        TruncatedToSize(size, pages, backing);
        return Ok;
      }
      if resizeFails { return IoError; }
      var was := size;
      backing := Resized(backing, n);
      size := n;
      if was <= n {
        GrowRight(was, pages, old(backing), n);
        return Ok;
      }
      var firstDead := FirstDead(n);
      if firstDead <= (SPACE - 1) / PAGE {
        DropRange(firstDead * PAGE, SPACE - 1);
      }
      FirstDeadInside(n);
      var last := n / PAGE;
      if n % PAGE != 0 && last in pages && |pages[last].data| == PAGE {
        pages := pages[last := pages[last].(data := Patch(pages[last].data, n % PAGE, Zeros(PAGE - n % PAGE)))];
      }
      if n + PAGE - 1 < SPACE {
        ShrinkRight(was, old(pages), old(backing), n);
      } else {
        ShrinkWraps(was, old(pages), old(backing), n);
        EmptyTruncated(old(backing), n);
      }
      return Ok;
    }
  }

  lemma FirstDeadInside(n: nat)
    requires n < SPACE
    ensures FirstDead(n) <= (SPACE - 1) / PAGE
  {}

  lemma EmptyTruncated(backing: seq<Byte>, n: nat)
    ensures Truncated(map[], backing, map[], Resized(backing, n), n)
  {}

  lemma TruncatedToSize(size: nat, pages: Pages, backing: seq<Byte>)
    requires Inv(size, pages, backing)
    ensures Truncated(pages, backing, pages, backing, size)
  {
    forall pos: nat ensures pos >= size ==> ByteAt(pages, backing, pos) == 0 {
      if pos >= size { ZeroBeyondEnd(size, pages, backing, pos); }
    }
  }

  lemma ListsDirty(list: seq<nat>, pages: Pages, start: nat, end: nat)
    requires Lists(list, DirtyIn(pages, start, end))
    ensures forall i :: 0 <= i < |list| ==> list[i] in pages && pages[list[i]].dirty
  {
    forall i | 0 <= i < |list| ensures list[i] in pages && pages[list[i]].dirty { assert list[i] in list; }
  }

  /** A list of a set is as long as the set is large. */
  lemma {:induction false} ListsCount(list: seq<nat>, s: set<nat>)
    requires Lists(list, s)
    ensures |list| == |s|
  {
    if list == [] {
      assert forall k :: k in s ==> k in list;
      assert s == {};
    } else {
      var n := |list| - 1;
      assert list[n] in list;
      assert list == list[..n] + [list[n]];
      ListsCount(list[..n], s - {list[n]});
    }
  }

  lemma NothingWritten(pages: Pages, backing: seq<Byte>, offset: nat)
    ensures Written(pages, backing, pages, backing, offset, [])
  {}

  lemma WrittenSame(p0: Pages, b0: seq<Byte>, p1: Pages, b1: seq<Byte>, p2: Pages, offset: nat, s: seq<Byte>)
    requires SameFile(p0, b0, p1, b1) && Written(p1, b1, p2, b1, offset, s)
    ensures Written(p0, b0, p2, b1, offset, s)
  {
    hide ByteAt;
    forall pos: nat
        ensures ByteAt(p2, b1, pos) == if offset <= pos < offset + |s| then s[pos - offset] else ByteAt(p0, b0, pos) {
      assert ByteAt(p1, b1, pos) == ByteAt(p0, b0, pos);
    }
  }

  lemma WrittenThenSame(p0: Pages, b0: seq<Byte>, p1: Pages, b1: seq<Byte>, p2: Pages, b2: seq<Byte>, offset: nat,
                        s: seq<Byte>)
    requires Written(p0, b0, p1, b1, offset, s) && SameFile(p1, b1, p2, b2)
    ensures Written(p0, b0, p2, b2, offset, s)
  {
    hide ByteAt;
    forall pos: nat
        ensures ByteAt(p2, b2, pos) == if offset <= pos < offset + |s| then s[pos - offset] else ByteAt(p0, b0, pos) {
      assert ByteAt(p2, b2, pos) == ByteAt(p1, b1, pos);
    }
  }

  /** The gap between the end of the file and the new bytes holds zeros already. */
  lemma AlreadyZero(size: nat, pages: Pages, backing: seq<Byte>, k: nat, from: nat, to: nat)
    requires Inv(size, pages, backing) && k in pages && pages[k].uptodate && |pages[k].data| == PAGE
    requires from == InFile(size, k) && from <= to <= PAGE
    ensures Patch(pages[k].data, from, Zeros(to - from)) == pages[k].data
  {
    assert PageOk(size, backing, k, pages[k]);
    forall i | from <= i < to ensures pages[k].data[i] == 0 { assert i < from <==> k * PAGE + i < size; }
  }
}
