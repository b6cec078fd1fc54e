/**
 Memory-mapped files (virtual-memory/vm/page.c and mmap and munmap of virtual-memory/userprog/syscall.c)
 as values: a process's supplemental page table, its resident pages and their dirty bits (module PageDir
 gives these their meaning), and the files. Pages are never evicted, and nobody else writes a mapped file.
 */
module MappedPages {
  import opened Machine

  const PAGES := 0x10_0000
  const USER_PAGES := 0xC0000

  type PageNo = x: int | 0 <= x < PAGES

  datatype Entry = Entry(upage: PageNo, file: Option<int>, off: nat, writable: bool)

  /** inodeOf: the inode behind each open file; content: the bytes of each inode. */
  datatype Space = Space(
    table: seq<Entry>,
    mem: map<PageNo, seq<byte>>,
    dirty: set<PageNo>,
    inodeOf: map<int, int>,
    content: map<int, seq<byte>>)

  /** find_upage: the first entry for the page, or the length of the list. */
  function IndexOf(t: seq<Entry>, v: PageNo): (i: nat)
    ensures i <= |t| && (i < |t| ==> t[i].upage == v)
    ensures forall j :: 0 <= j < i ==> t[j].upage != v
  {
    if t == [] || t[0].upage == v then 0 else 1 + IndexOf(t[1..], v)
  }

  /** find_file. */
  function IndexOfFile(t: seq<Entry>, f: int): (i: nat)
    ensures i <= |t| && (i < |t| ==> t[i].file == Some(f))
    ensures forall j :: 0 <= j < i ==> t[j].file != Some(f)
  {
    if t == [] || t[0].file == Some(f) then 0 else 1 + IndexOfFile(t[1..], f)
  }

  /** page_in_table: the null page is never found. */
  predicate InTable(t: seq<Entry>, v: PageNo) { v != 0 && IndexOf(t, v) < |t| }

  ghost predicate Distinct(t: seq<Entry>) {
    forall i, j :: 0 <= i < j < |t| ==> t[i].upage != t[j].upage
  }

  /** A file page is writable and starts inside its file. */
  ghost predicate Backed(s: Space, e: Entry) {
    e.file.Some? ==>
      && e.file.value in s.inodeOf && s.inodeOf[e.file.value] in s.content
      && e.off < |s.content[s.inodeOf[e.file.value]]|
      && e.writable
  }

  ghost predicate FileEntryOk(s: Space, e: Entry) {
    Backed(s, e) && (e.file.Some? ==> e.upage < USER_PAGES)
  }

  /** What every list of pages meets, whatever addresses mmap was given. */
  ghost predicate Loose(s: Space) {
    && (forall i :: 0 <= i < |s.table| ==> Backed(s, s.table[i]))
    && (forall v :: v in s.mem ==> |s.mem[v]| == PAGE_SIZE)
  }

  /** One entry a page; file pages are writable user pages that start inside their file; resident pages are whole and known. */
  ghost predicate Wf(s: Space) {
    && Distinct(s.table)
    && (forall i :: 0 <= i < |s.table| ==> FileEntryOk(s, s.table[i]))
    && (forall v :: v in s.mem ==> |s.mem[v]| == PAGE_SIZE && IndexOf(s.table, v) < |s.table|)
  }

  /** file_size_in_page. */
  function SizeInPage(length: nat, off: nat): (n: nat)
    requires off <= length
    ensures n == Min(length - off, PAGE_SIZE)
  {
    if length - off < PAGE_SIZE then length - off else PAGE_SIZE
  }

  /** The part of its file that belongs to an entry. */
  function Slice(s: Space, e: Entry): (b: seq<byte>)
    requires e.file.Some? && e.file.value in s.inodeOf && s.inodeOf[e.file.value] in s.content
    requires e.off <= |s.content[s.inodeOf[e.file.value]]|
    ensures |b| == SizeInPage(|s.content[s.inodeOf[e.file.value]]|, e.off) <= PAGE_SIZE
  {
    var c := s.content[s.inodeOf[e.file.value]];
    c[e.off..e.off + SizeInPage(|c|, e.off)]
  }

  /** page_fetch of a known page that is not resident, into a frame that holds anything. */
  function Fetched(s: Space, v: PageNo, frame: seq<byte>): Space
    requires |frame| == PAGE_SIZE && IndexOf(s.table, v) < |s.table|
    requires
      var e := s.table[IndexOf(s.table, v)];
      e.file.Some? ==>
        e.file.value in s.inodeOf && s.inodeOf[e.file.value] in s.content && e.off <= |s.content[s.inodeOf[e.file.value]]|
  {
    var e := s.table[IndexOf(s.table, v)];
    s.(mem := s.mem[v := if e.file.Some? then Splice(frame, 0, Slice(s, e)) else frame], dirty := s.dirty - {v})
  }

  /** page_fetch growing the stack. */
  function Grown(s: Space, v: PageNo, frame: seq<byte>): Space {
    s.(table := s.table + [Entry(v, None, 0, true)], mem := s.mem[v := frame], dirty := s.dirty - {v})
  }

  /** page_remove; the dirty bit of the cleared page-table entry survives. */
  function Removed(s: Space, i: nat): Space
    requires i < |s.table|
  {
    s.(table := s.table[..i] + s.table[i + 1..], mem := s.mem - {s.table[i].upage})
  }

  /** The write-back in page_unmap. A dirty bit left on a page that is not resident makes the read fault the page in. */
  function WroteBack(s: Space, i: nat): Space
    requires Loose(s) && i < |s.table| && s.table[i].file.Some?
  {
    assert Backed(s, s.table[i]);
    var e := s.table[i];
    var inode := s.inodeOf[e.file.value];
    if e.upage !in s.dirty then s
    else if e.upage in s.mem then
      s.(content := s.content[inode := Splice(s.content[inode], e.off, s.mem[e.upage][..|Slice(s, e)|])])
    else s.(dirty := s.dirty - {e.upage})
  }

  /** page_unmap. None: the assertion in pagedir_clear_page that the page is a user page failed. */
  function UnmapOutcome(s: Space, f: int): Option<Space>
    requires Loose(s)
    decreases |s.table|
  {
    var i := IndexOfFile(s.table, f);
    if i == |s.table| then Some(s)
    else if s.table[i].upage >= USER_PAGES then None
    else
      var k := IndexOf(s.table, s.table[i].upage);
      assert Loose(Removed(WroteBack(s, i), k)) by { UnmapOneKeepsLoose(s, i, k); }
      UnmapOutcome(Removed(WroteBack(s, i), k), f)
  }

  lemma UnmapOneKeepsLoose(s: Space, i: nat, k: nat)
    requires Loose(s) && i < |s.table| && s.table[i].file.Some? && k < |s.table|
    ensures Loose(Removed(WroteBack(s, i), k))
  {
    var w := WroteBack(s, i);
    forall j | 0 <= j < |s.table| ensures Backed(w, s.table[j]) {
      assert Backed(s, s.table[j]);
    }
    var r := Removed(w, k);
    forall j | 0 <= j < |r.table| ensures Backed(r, r.table[j]) {
      RemovedAt(s.table, k, j);
      assert Backed(w, r.table[j]);
    }
  }

  /** Some page of the file lies outside user space. */
  ghost predicate OutsidePage(t: seq<Entry>, f: int) {
    exists i :: 0 <= i < |t| && t[i].file == Some(f) && t[i].upage >= USER_PAGES
  }

  /** munmap's assertion fails exactly if the mapping has a page outside user space. */
  lemma {:induction false} UnmapAssertsIff(s: Space, f: int)
    requires Loose(s)
    ensures UnmapOutcome(s, f) == None <==> OutsidePage(s.table, f)
    decreases |s.table|
  {
    var i := IndexOfFile(s.table, f);
    if i < |s.table| && s.table[i].upage < USER_PAGES {
      var k := IndexOf(s.table, s.table[i].upage);
      UnmapOneKeepsLoose(s, i, k);
      OutsideRemoved(s.table, f, k);
      UnmapAssertsIff(Removed(WroteBack(s, i), k), f);
    }
  }

  lemma OutsideRemoved(t: seq<Entry>, f: int, k: nat)
    requires k < |t| && t[k].upage < USER_PAGES
    ensures OutsidePage(t[..k] + t[k + 1..], f) <==> OutsidePage(t, f)
  {
    var u := t[..k] + t[k + 1..];
    if j :| 0 <= j < |t| && t[j].file == Some(f) && t[j].upage >= USER_PAGES {
      assert u[if j < k then j else j - 1] == t[j];
    }
    if j :| 0 <= j < |u| && u[j].file == Some(f) && u[j].upage >= USER_PAGES {
      assert t[if j < k then j else j + 1] == u[j];
    }
  }

  /** page_unmap of a file whose pages are user pages, one entry a page. */
  function Unmapped(s: Space, f: int): Space
    requires Wf(s)
    decreases |s.table|
  {
    var i := IndexOfFile(s.table, f);
    if i == |s.table| then s
    else
      WfIsLoose(s);
      assert Wf(Removed(WroteBack(s, i), i)) by { UnmapOneKeepsWf(s, i); }
      Unmapped(Removed(WroteBack(s, i), i), f)
  }

  lemma WfIsLoose(s: Space)
    requires Wf(s)
    ensures Loose(s)
  {
    forall i | 0 <= i < |s.table| ensures Backed(s, s.table[i]) {
      assert FileEntryOk(s, s.table[i]);
    }
  }

  /** With user pages only, page_unmap's assertion holds throughout. */
  lemma {:induction false} UnmapOutcomeIs(s: Space, f: int)
    requires Wf(s)
    ensures Loose(s) && UnmapOutcome(s, f) == Some(Unmapped(s, f))
    decreases |s.table|
  {
    WfIsLoose(s);
    var i := IndexOfFile(s.table, f);
    if i < |s.table| {
      assert FileEntryOk(s, s.table[i]);
      assert IndexOf(s.table, s.table[i].upage) == i;
      UnmapOneKeepsWf(s, i);
      UnmapOutcomeIs(Removed(WroteBack(s, i), i), f);
    }
  }

  lemma UnmapOneKeepsWf(s: Space, i: nat)
    requires Wf(s) && i < |s.table| && s.table[i].file.Some?
    ensures Loose(s) && Wf(WroteBack(s, i)) && Wf(Removed(WroteBack(s, i), i))
  {
    WfIsLoose(s);
    var w := WroteBack(s, i);
    forall j | 0 <= j < |s.table| ensures FileEntryOk(w, s.table[j]) {
      assert FileEntryOk(s, s.table[j]);
    }
    RemoveKeepsWf(w, i);
  }

  lemma RemovedAt(t: seq<Entry>, i: nat, j: nat)
    requires i < |t| && j + 1 < |t|
    ensures (t[..i] + t[i + 1..])[j] == t[if j < i then j else j + 1]
  {
  }

  lemma RemoveKeepsDistinct(t: seq<Entry>, i: nat)
    requires Distinct(t) && i < |t|
    ensures Distinct(t[..i] + t[i + 1..])
  {
    var u := t[..i] + t[i + 1..];
    forall j, k | 0 <= j < k < |u| ensures u[j].upage != u[k].upage {
      RemovedAt(t, i, j);
      RemovedAt(t, i, k);
    }
  }

  lemma RemoveKeepsWf(s: Space, i: nat)
    requires Wf(s) && i < |s.table|
    ensures Wf(Removed(s, i))
  {
    var r := Removed(s, i);
    RemoveKeepsDistinct(s.table, i);
    forall j | 0 <= j < |r.table| ensures FileEntryOk(r, r.table[j]) {
      RemovedAt(s.table, i, j);
      assert FileEntryOk(s, r.table[j]);
    }
    forall v | v in r.mem ensures |r.mem[v]| == PAGE_SIZE && IndexOf(r.table, v) < |r.table| {
      var k := IndexOf(s.table, v);
      var j := if k < i then k else k - 1;
      RemovedAt(s.table, i, j);
      assert r.table[j].upage == v;
    }
  }

  // ---------------------------------------------------------------- mmap

  /** The largest length for which mmap's page count does not overflow an off_t. */
  const MAX_LENGTH := 0x7FFF_F000

  function PageCount(length: nat): nat { (length + (PAGE_SIZE - 1)) / PAGE_SIZE }

  /** How many pages mmap enters: the sum is an off_t, and a negative count ends both loops at once. */
  function MmapCount(length: nat): (n: nat) {
    if length + (PAGE_SIZE - 1) < 0x8000_0000 then PageCount(length) else 0
  }

  /** mmap enters all pages of a file, of any length an off_t can hold, exactly up to MAX_LENGTH. */
  lemma MmapCountIff(length: nat)
    requires length < 0x8000_0000
    ensures MmapCount(length) == PageCount(length) <==> length <= MAX_LENGTH
  {
    assert length > 0 ==> PageCount(length) > 0;
  }

  /** Page i of a mapping: a pointer, so it wraps. */
  function Upage(base: PageNo, i: nat): PageNo { (base + i) % PAGES }

  function NewEntries(g: int, base: PageNo, k: nat): (t: seq<Entry>)
    ensures |t| == k && forall i :: 0 <= i < k ==> t[i] == Entry(Upage(base, i), Some(g), i * PAGE_SIZE, true)
  {
    seq(k, i requires 0 <= i < k => Entry(Upage(base, i), Some(g), i * PAGE_SIZE, true))
  }

  /** Open file g, a new handle of the inode, with its first k pages in the table. */
  function Mmapped(s: Space, inode: int, g: int, base: PageNo, k: nat): Space {
    s.(table := s.table + NewEntries(g, base, k), inodeOf := s.inodeOf[g := inode])
  }

  /** mmap's own check of the address range. */
  ghost predicate RangeFree(t: seq<Entry>, base: PageNo, n: nat) {
    forall i :: 0 <= i < n ==> !InTable(t, Upage(base, i))
  }

  /**
   mmap does not check that the range lies below PHYS_BASE, and pagedir_clear_page asserts it: the table
   that mmap leaves is one munmap can work on exactly when the range does.
   */
  lemma MmapKeepsWfIff(s: Space, inode: int, g: int, base: PageNo)
    requires Wf(s) && inode in s.content && 0 < |s.content[inode]| < 0x8000_0000 && base != 0
    requires g !in s.inodeOf && RangeFree(s.table, base, MmapCount(|s.content[inode]|))
    ensures
      var n := MmapCount(|s.content[inode]|);
      Wf(Mmapped(s, inode, g, base, n)) <==> n == 0 || base + n <= USER_PAGES
  {
    var n := MmapCount(|s.content[inode]|);
    var r := Mmapped(s, inode, g, base, n);
    if n == 0 || base + n <= USER_PAGES {
      MmapKeepsWf(s, inode, g, base, n);
    } else {
      var i := if base >= USER_PAGES then 0 else USER_PAGES - base;
      assert r.table[|s.table| + i] == NewEntries(g, base, n)[i];
      assert !FileEntryOk(r, r.table[|s.table| + i]);
    }
  }

  /** Also for the pages a failed mmap leaves behind. */
  lemma MmapKeepsWf(s: Space, inode: int, g: int, base: PageNo, k: nat)
    requires Wf(s) && inode in s.content && base != 0 && g !in s.inodeOf
    requires k <= PageCount(|s.content[inode]|) && RangeFree(s.table, base, k) && (k == 0 || base + k <= USER_PAGES)
    ensures Wf(Mmapped(s, inode, g, base, k))
  {
    var r := Mmapped(s, inode, g, base, k);
    var t := NewEntries(g, base, k);
    forall j | 0 <= j < |r.table| ensures FileEntryOk(r, r.table[j]) {
      if j < |s.table| {
        assert FileEntryOk(s, s.table[j]);
      }
    }
    forall i, j | 0 <= i < j < |r.table| ensures r.table[i].upage != r.table[j].upage {
      if i < |s.table| <= j {
        assert r.table[j] == t[j - |s.table|];
        assert !InTable(s.table, Upage(base, j - |s.table|));
        assert IndexOf(s.table, Upage(base, j - |s.table|)) == |s.table|;
      }
    }
    forall v | v in r.mem ensures IndexOf(r.table, v) < |r.table| {
      assert r.table[IndexOf(s.table, v)].upage == v;
    }
  }

  /** munmap right after mmap fails its assertion exactly if the range does not end below PHYS_BASE. */
  lemma MunmapAssertsIff(s: Space, inode: int, g: int, base: PageNo)
    requires Wf(s) && inode in s.content && 0 < |s.content[inode]| < 0x8000_0000
    requires g !in s.inodeOf
    ensures
      var n := MmapCount(|s.content[inode]|);
      var r := Mmapped(s, inode, g, base, n);
      Loose(r) && (UnmapOutcome(r, g) == None <==> n > 0 && base + n > USER_PAGES)
  {
    hide UnmapOutcome, Loose;
    var n := MmapCount(|s.content[inode]|);
    MmapKeepsLoose(s, inode, g, base, n);
    UnmapAssertsIff(Mmapped(s, inode, g, base, n), g);
    MmapOutsideIff(s, inode, g, base, n);
  }

  /** The new entries are the only ones of their file. */
  lemma MmapOutsideIff(s: Space, inode: int, g: int, base: PageNo, n: nat)
    requires Wf(s) && g !in s.inodeOf && n <= USER_PAGES
    ensures OutsidePage(Mmapped(s, inode, g, base, n).table, g) <==> n > 0 && base + n > USER_PAGES
  {
    var t := Mmapped(s, inode, g, base, n).table;
    forall i | 0 <= i < |s.table| ensures s.table[i].file != Some(g) {
      assert FileEntryOk(s, s.table[i]);
    }
    if n > 0 && base + n > USER_PAGES {
      var i := if base >= USER_PAGES then 0 else USER_PAGES - base;
      assert t[|s.table| + i] == NewEntries(g, base, n)[i];
    }
  }

  lemma MmapKeepsLoose(s: Space, inode: int, g: int, base: PageNo, k: nat)
    requires Wf(s) && inode in s.content && g !in s.inodeOf && k <= PageCount(|s.content[inode]|)
    ensures Loose(Mmapped(s, inode, g, base, k))
  {
    var r := Mmapped(s, inode, g, base, k);
    forall j | 0 <= j < |r.table| ensures Backed(r, r.table[j]) {
      if j < |s.table| {
        assert FileEntryOk(s, s.table[j]);
      }
    }
  }

  /** A one-byte file mapped at PHYS_BASE, which mmap accepts. */
  lemma MmapAtPhysBase(s: Space)
    requires s == Space([], map[], {}, map[], map[7 := [65]])
    ensures Wf(s) && MmapCount(1) == 1 && RangeFree(s.table, 0xC000_0000 / PAGE_SIZE, 1)
    ensures
      var r := Mmapped(s, 7, 6, 0xC000_0000 / PAGE_SIZE, 1);
      Loose(r) && UnmapOutcome(r, 6) == None
  {
    MunmapAssertsIff(s, 7, 6, 0xC000_0000 / PAGE_SIZE);
  }
}
