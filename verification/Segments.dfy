/**
 Loading an ELF segment in user-programs/userprog/process.c: which program headers are accepted, the
 32-bit arithmetic that turns one into pages, and the loop that fills and installs them.
 */
module Segments {
  import opened Machine

  const PHYS_BASE := 0xC000_0000

  /** The fields of Elf32_Phdr that matter for a PT_LOAD segment. */
  datatype Phdr = Phdr(offset: uint32, vaddr: uint32, filesz: uint32, memsz: uint32)

  function Wrap(x: int): uint32 { x % UINT32_MOD }

  function PageOffset(x: int): int { x % PAGE_SIZE }

  function PageDown(x: int): int { x - x % PAGE_SIZE }

  /** ROUND_UP(x, PGSIZE) in 32-bit arithmetic. */
  function RoundUp32(x: uint32): uint32 { Wrap(Wrap(x + PAGE_SIZE - 1) / PAGE_SIZE * PAGE_SIZE) }

  predicate IsUser(addr: uint32) { addr < PHYS_BASE }

  /** validate_segment. */
  predicate ValidSegment(p: Phdr, fileLength: nat) {
    && PageOffset(p.offset) == PageOffset(p.vaddr)
    && p.offset <= fileLength
    && p.memsz >= p.filesz
    && p.memsz != 0
    && IsUser(p.vaddr)
    && IsUser(Wrap(p.vaddr + p.memsz))
    && Wrap(p.vaddr + p.memsz) >= p.vaddr
    && p.vaddr >= PAGE_SIZE
  }

  /** read_bytes and zero_bytes as load computes them. */
  function ReadBytes(p: Phdr): uint32 {
    if p.filesz > 0 then Wrap(PageOffset(p.vaddr) + p.filesz) else 0
  }

  function ZeroBytes(p: Phdr): uint32 {
    if p.filesz > 0 then Wrap(RoundUp32(Wrap(PageOffset(p.vaddr) + p.memsz)) as int - ReadBytes(p) as int)
    else RoundUp32(Wrap(PageOffset(p.vaddr) + p.memsz))
  }

  lemma RoundUpExact(x: uint32)
    requires x <= PHYS_BASE
    ensures RoundUp32(x) % PAGE_SIZE == 0 && x <= RoundUp32(x) < x + PAGE_SIZE
  {
    var q := (x + PAGE_SIZE - 1) / PAGE_SIZE;
    assert Wrap(x + PAGE_SIZE - 1) == x + PAGE_SIZE - 1;
    assert Wrap(q * PAGE_SIZE) == q * PAGE_SIZE;
  }

  /** Pages of user memory end where user memory ends. */
  lemma PagesFit(vaddr: int, memsz: int, r: int)
    requires 0 <= vaddr && vaddr + memsz < PHYS_BASE && r % PAGE_SIZE == 0
    requires PageOffset(vaddr) + memsz <= r < PageOffset(vaddr) + memsz + PAGE_SIZE
    ensures vaddr + memsz <= PageDown(vaddr) + r <= PHYS_BASE
    ensures PageDown(vaddr) % PAGE_SIZE == 0
  {
    assert PageDown(vaddr) == vaddr / PAGE_SIZE * PAGE_SIZE;
    assert r == r / PAGE_SIZE * PAGE_SIZE;
    assert PHYS_BASE == 786432 * PAGE_SIZE;
  }

  /**
   Which headers are accepted, in integers that do not wrap: the whole segment lies in user memory above
   page 0, so the two tests on the wrapped sum and the test against wrap-around come to one.
   */
  lemma ValidSegmentIff(p: Phdr, fileLength: nat)
    ensures ValidSegment(p, fileLength) <==>
              && p.offset % PAGE_SIZE == p.vaddr % PAGE_SIZE && p.offset <= fileLength
              && 0 < p.memsz && p.filesz <= p.memsz
              && PAGE_SIZE <= p.vaddr && p.vaddr + p.memsz < PHYS_BASE
  {
    var end := p.vaddr + p.memsz;
    assert Wrap(end) == if end < UINT32_MOD then end else end - UINT32_MOD;
  }

  /** validate_segment, test by test. */
  method ValidateSegment(p: Phdr, fileLength: nat) returns (ok: bool)
    ensures ok <==>
              && p.offset % PAGE_SIZE == p.vaddr % PAGE_SIZE && p.offset <= fileLength
              && 0 < p.memsz && p.filesz <= p.memsz
              && PAGE_SIZE <= p.vaddr && p.vaddr + p.memsz < PHYS_BASE
    ensures ok <==> ValidSegment(p, fileLength)
  {
    ValidSegmentIff(p, fileLength);
    if PageOffset(p.offset) != PageOffset(p.vaddr) {
      return false;
    }
    if p.offset > fileLength {
      return false;
    }
    if p.memsz < p.filesz {
      return false;
    }
    if p.memsz == 0 {
      return false;
    }
    if !IsUser(p.vaddr) {
      return false;
    }
    if !IsUser(Wrap(p.vaddr + p.memsz)) {
      return false;
    }
    if Wrap(p.vaddr + p.memsz) < p.vaddr {
      return false;
    }
    if p.vaddr < PAGE_SIZE {
      return false;
    }
    return true;
  }

  lemma NoWrapAround(p: Phdr, fileLength: nat)
    requires ValidSegment(p, fileLength)
    ensures p.vaddr + p.memsz < PHYS_BASE
  {
  }

  /**
   For an accepted header nothing wraps around: the pages cover the segment and end within user
   space, page 0 is not among them, and the assertions of load_segment hold.
   */
  lemma AcceptedHeader(p: Phdr, fileLength: nat)
    requires ValidSegment(p, fileLength)
    ensures (ReadBytes(p) + ZeroBytes(p)) % PAGE_SIZE == 0
    ensures PageDown(p.vaddr) % PAGE_SIZE == 0 && PageDown(p.offset) % PAGE_SIZE == 0
    ensures ReadBytes(p) == if p.filesz > 0 then PageOffset(p.vaddr) + p.filesz else 0
    ensures PAGE_SIZE <= PageDown(p.vaddr)
    ensures p.vaddr + p.memsz <= PageDown(p.vaddr) + ReadBytes(p) + ZeroBytes(p) <= PHYS_BASE
    ensures PageDown(p.vaddr) + ReadBytes(p) + ZeroBytes(p) < p.vaddr + p.memsz + PAGE_SIZE
  {
    NoWrapAround(p, fileLength);
    var x := PageOffset(p.vaddr) + p.memsz;
    assert 0 <= x <= PHYS_BASE && Wrap(x) == x;
    RoundUpExact(x);
    assert p.filesz > 0 ==> ReadBytes(p) == PageOffset(p.vaddr) + p.filesz;
    assert ReadBytes(p) + ZeroBytes(p) == RoundUp32(x);
    PagesFit(p.vaddr, p.memsz, RoundUp32(x));
  }

  // ---------------------------------------------------------------- the loop

  datatype UserPage = UserPage(data: seq<byte>, writable: bool)

  /** Page k of a region whose first readBytes bytes come from the file at ofs and whose others are zero. */
  function PageOf(file: seq<byte>, ofs: nat, readBytes: nat, k: nat): (r: seq<byte>)
    ensures |r| == PAGE_SIZE
  {
    seq(PAGE_SIZE, j requires 0 <= j < PAGE_SIZE =>
      var i := k * PAGE_SIZE + j;
      if i < readBytes && ofs + i < |file| then file[ofs + i] else 0)
  }

  /** Address a is the start of one of the n pages from upage on. */
  ghost predicate InRegion(upage: int, n: int, a: int) {
    upage <= a < upage + n * PAGE_SIZE && (a - upage) % PAGE_SIZE == 0
  }

  /** Page a can be installed: nothing is mapped there and a page table can be had for it. */
  ghost predicate Installable(pages: map<int, UserPage>, noTable: set<int>, a: int) {
    a !in pages && a !in noTable
  }

  /** The address space with the first n pages of the region installed, and nothing else changed. */
  ghost predicate Installed(pages: map<int, UserPage>, pages': map<int, UserPage>, file: seq<byte>, ofs: nat,
                            upage: int, readBytes: nat, writable: bool, n: nat)
  {
    && (forall a :: a in pages' <==> a in pages || InRegion(upage, n, a))
    && (forall a :: a in pages ==> pages'[a] == pages[a])
    && (forall k :: 0 <= k < n ==>
          && upage + k * PAGE_SIZE in pages'
          && pages'[upage + k * PAGE_SIZE] == UserPage(PageOf(file, ofs, readBytes, k), writable))
  }

  lemma LastPage(d: nat)
    requires d < PAGE_SIZE && d % PAGE_SIZE == 0
    ensures d == 0
  {
  }

  lemma InstalledNext(pages: map<int, UserPage>, pages': map<int, UserPage>, pages'': map<int, UserPage>, file: seq<byte>,
                      ofs: nat, upage: int, readBytes: nat, writable: bool, k: nat)
    requires Installed(pages, pages', file, ofs, upage, readBytes, writable, k)
    requires upage + k * PAGE_SIZE !in pages'
    requires pages'' == pages'[upage + k * PAGE_SIZE := UserPage(PageOf(file, ofs, readBytes, k), writable)]
    ensures Installed(pages, pages'', file, ofs, upage, readBytes, writable, k + 1)
  {
    var a := upage + k * PAGE_SIZE;
    assert (a - upage) % PAGE_SIZE == 0;
    forall b ensures InRegion(upage, k + 1, b) <==> InRegion(upage, k, b) || b == a {
      if InRegion(upage, k + 1, b) && b >= a {
        LastPage(b - a);
      }
    }
  }

  /** The page the loop fills: what could be read, padded with zeros. */
  lemma FilledPage(file: seq<byte>, ofs: nat, readBytes: nat, k: nat, got: seq<byte>, n: nat)
    requires n == Min(PAGE_SIZE, Max(0, readBytes - k * PAGE_SIZE)) && |got| == n
    requires got == FileRead(file, ofs + Min(readBytes, k * PAGE_SIZE), n)
    ensures got + Zeros(PAGE_SIZE - n) == PageOf(file, ofs, readBytes, k)
  {
  }

  /** A page of the region that could not be installed was mapped before, or has no page table. */
  lemma NotInstallable(pages: map<int, UserPage>, pages': map<int, UserPage>, noTable: set<int>, upage: int, k: nat)
    requires forall a :: a in pages' <==> a in pages || InRegion(upage, k, a)
    requires !Installable(pages', noTable, upage + k * PAGE_SIZE)
    ensures !Installable(pages, noTable, upage + k * PAGE_SIZE)
  {
  }

  class AddressSpace {
    var pages: map<int, UserPage>

    /** install_page; noTable holds the pages for which no page table can be allocated. */
    method InstallPage(upage: int, kpage: seq<byte>, writable: bool, noTable: set<int>) returns (ok: bool)
      modifies this
      ensures ok <==> Installable(old(pages), noTable, upage)
      ensures pages == if ok then old(pages)[upage := UserPage(kpage, writable)] else old(pages)
    {
      ok := upage !in pages && upage !in noTable;
      if ok {
        pages := pages[upage := UserPage(kpage, writable)];
      }
    }

    /**
     load_segment, given how many user frames are free. It succeeds exactly when there are enough of
     them, the file is long enough, and every page of the region can be installed; then each page holds
     its part of the file, zeros after it. The unsigned counters never underflow.
     */
    method LoadSegment(file: seq<byte>, ofs: nat, upage0: int, readBytes0: uint32, zeroBytes0: uint32,
                       writable: bool, frames: nat, noTable: set<int>) returns (ok: bool)
      requires (readBytes0 + zeroBytes0) % PAGE_SIZE == 0 && upage0 % PAGE_SIZE == 0 && ofs % PAGE_SIZE == 0
      modifies this
      ensures ok <==>
                var n := (readBytes0 + zeroBytes0) / PAGE_SIZE;
                && n <= frames && (readBytes0 > 0 ==> ofs + readBytes0 <= |file|)
                && forall k :: 0 <= k < n ==> Installable(old(pages), noTable, upage0 + k * PAGE_SIZE)
      ensures ok ==> Installed(old(pages), pages, file, ofs, upage0, readBytes0, writable, (readBytes0 + zeroBytes0) / PAGE_SIZE)
      ensures forall a :: a in old(pages) ==> a in pages && pages[a] == old(pages)[a]
    {
      var upage, readBytes, zeroBytes: int, free := upage0, readBytes0 as int, zeroBytes0 as int, frames;
      var pos := ofs;
      ghost var n := (readBytes0 + zeroBytes0) / PAGE_SIZE;
      ghost var k := 0;
      while readBytes > 0 || zeroBytes > 0
        invariant 0 <= k <= n && upage == upage0 + k * PAGE_SIZE && free == frames - k
        invariant readBytes >= 0 && zeroBytes >= 0 && readBytes + zeroBytes == (n - k) * PAGE_SIZE
        invariant readBytes == Max(0, readBytes0 - k * PAGE_SIZE)
        invariant pos == ofs + Min(readBytes0, k * PAGE_SIZE)
        invariant readBytes0 > 0 && k > 0 ==> pos <= |file|
        invariant forall i :: 0 <= i < k ==> Installable(old(pages), noTable, upage0 + i * PAGE_SIZE)
        invariant Installed(old(pages), pages, file, ofs, upage0, readBytes0, writable, k)
        decreases n - k
      {
        var pageReadBytes := if readBytes < PAGE_SIZE then readBytes else PAGE_SIZE;
        var pageZeroBytes := PAGE_SIZE - pageReadBytes;
        if free == 0 {
          return false;
        }
        free := free - 1;
        var got := FileRead(file, pos, pageReadBytes);
        if |got| != pageReadBytes {
          return false;
        }
        pos := pos + pageReadBytes;
        var kpage := got + Zeros(pageZeroBytes);
        FilledPage(file, ofs, readBytes0, k, got, pageReadBytes);
        ghost var before := pages;
        ok := InstallPage(upage, kpage, writable, noTable);
        if !ok {
          NotInstallable(old(pages), before, noTable, upage0, k);
          return false;
        }
        InstalledNext(old(pages), before, pages, file, ofs, upage0, readBytes0, writable, k);
        k := k + 1;
        readBytes := readBytes - pageReadBytes;
        zeroBytes := zeroBytes - pageZeroBytes;
        upage := upage + PAGE_SIZE;
      }
      ok := true;
    }
  }

  /** file_read at position pos: the bytes up to the end of the file. */
  function FileRead(file: seq<byte>, pos: nat, n: nat): (r: seq<byte>)
    ensures |r| == if pos >= |file| then 0 else Min(n, |file| - pos)
  {
    if pos >= |file| then [] else file[pos..pos + Min(n, |file| - pos)]
  }

  // ---------------------------------------------------------------- what the program sees

  ghost predicate Mapped(pages: map<int, UserPage>, addr: int) {
    PageDown(addr) in pages && |pages[PageDown(addr)].data| == PAGE_SIZE
  }

  function MemoryAt(pages: map<int, UserPage>, addr: int): byte
    requires Mapped(pages, addr)
  {
    pages[PageDown(addr)].data[PageOffset(addr)]
  }

  lemma PageOfByte(base: int, i: nat)
    requires base % PAGE_SIZE == 0
    ensures PageDown(base + i) == base + i / PAGE_SIZE * PAGE_SIZE && PageOffset(base + i) == i % PAGE_SIZE
  {
  }

  /** Byte i of an installed region. */
  lemma RegionByte(pages: map<int, UserPage>, pages': map<int, UserPage>, file: seq<byte>, ofs: nat, upage: int,
                   readBytes: nat, writable: bool, n: nat, i: nat)
    requires Installed(pages, pages', file, ofs, upage, readBytes, writable, n) && upage % PAGE_SIZE == 0
    requires i < n * PAGE_SIZE && (readBytes > 0 ==> ofs + readBytes <= |file|)
    ensures Mapped(pages', upage + i)
    ensures MemoryAt(pages', upage + i) == if i < readBytes then file[ofs + i] else 0
  {
    PageOfByte(upage, i);
    var k := i / PAGE_SIZE;
    assert pages'[upage + k * PAGE_SIZE].data == PageOf(file, ofs, readBytes, k);
    assert k * PAGE_SIZE + i % PAGE_SIZE == i;
  }

  /**
   Loading an accepted segment gives the memory image the ELF specification asks for: the first
   p_filesz bytes at p_vaddr are the file's bytes from p_offset on, and the rest up to p_memsz are zero.
   */
  lemma ElfImage(p: Phdr, file: seq<byte>, pages: map<int, UserPage>, pages': map<int, UserPage>, writable: bool, j: nat)
    requires ValidSegment(p, |file|) && j < p.memsz
    requires ReadBytes(p) > 0 ==> PageDown(p.offset) + ReadBytes(p) <= |file|
    requires Installed(pages, pages', file, PageDown(p.offset), PageDown(p.vaddr), ReadBytes(p), writable,
                       (ReadBytes(p) + ZeroBytes(p)) / PAGE_SIZE)
    ensures Mapped(pages', p.vaddr + j) && pages'[PageDown(p.vaddr + j)].writable == writable
    ensures j < p.filesz ==> p.offset + j < |file|
    ensures MemoryAt(pages', p.vaddr + j) == if j < p.filesz then file[p.offset + j] else 0
  {
    AcceptedHeader(p, |file|);
    assert PageOffset(p.offset) == PageOffset(p.vaddr) && p.filesz <= p.memsz;
    hide ValidSegment, ReadBytes, ZeroBytes, Installed;
    var i := PageOffset(p.vaddr) + j;
    assert PageDown(p.vaddr) + i == p.vaddr + j && PageDown(p.offset) + i == p.offset + j;
    RegionByte(pages, pages', file, PageDown(p.offset), PageDown(p.vaddr), ReadBytes(p), writable,
               (ReadBytes(p) + ZeroBytes(p)) / PAGE_SIZE, i);
    PageOfByte(PageDown(p.vaddr), i);
  }

  /** The pages an accepted segment needs: all those with a byte of it. */
  lemma PageCount(p: Phdr, fileLength: nat)
    requires ValidSegment(p, fileLength)
    ensures ReadBytes(p) + ZeroBytes(p) == SegmentPages(p) * PAGE_SIZE
    ensures ReadBytes(p) > 0 <==> p.filesz > 0
    ensures p.filesz > 0 ==> PageDown(p.offset) + ReadBytes(p) == p.offset + p.filesz
  {
    AcceptedHeader(p, fileLength);
    var r := ReadBytes(p) + ZeroBytes(p);
    assert PageDown(p.vaddr) == p.vaddr - PageOffset(p.vaddr);
    Pages(PageOffset(p.vaddr) + p.memsz, r);
  }

  lemma Pages(x: nat, r: nat)
    requires r % PAGE_SIZE == 0 && x <= r < x + PAGE_SIZE
    ensures r == (x + PAGE_SIZE - 1) / PAGE_SIZE * PAGE_SIZE
  {
  }

  function SegmentPages(p: Phdr): nat { (p.vaddr % PAGE_SIZE + p.memsz + PAGE_SIZE - 1) / PAGE_SIZE }

  /** The address space shows the segment: the file's bytes and, after them, zeros. */
  ghost predicate Shows(pages: map<int, UserPage>, p: Phdr, file: seq<byte>, writable: bool) {
    forall j: nat :: j < p.memsz ==> ShowsByte(pages, p, file, writable, j)
  }

  ghost predicate ShowsByte(pages: map<int, UserPage>, p: Phdr, file: seq<byte>, writable: bool, j: nat) {
    && Mapped(pages, p.vaddr + j) && pages[PageDown(p.vaddr + j)].writable == writable
    && (j < p.filesz ==> p.offset + j < |file|)
    && MemoryAt(pages, p.vaddr + j) == if j < p.filesz then file[p.offset + j] else 0
  }

  /**
   The PT_LOAD case of load. The segment is in memory exactly if its header is acceptable, the file has all
   the bytes it promises, there are frames for all its pages, and none of these is taken.
   */
  method LoadPhdr(space: AddressSpace, p: Phdr, file: seq<byte>, writable: bool, frames: nat, noTable: set<int>)
    returns (ok: bool)
    modifies space
    ensures ok <==>
              && ValidSegment(p, |file|) && (p.filesz > 0 ==> p.offset + p.filesz <= |file|)
              && SegmentPages(p) <= frames
              && forall k :: 0 <= k < SegmentPages(p) ==>
                   Installable(old(space.pages), noTable, PageDown(p.vaddr) + k * PAGE_SIZE)
    ensures ok ==> Shows(space.pages, p, file, writable)
    ensures forall a :: a in old(space.pages) ==> a in space.pages && space.pages[a] == old(space.pages)[a]
  {
    hide ValidSegment, ReadBytes, ZeroBytes, SegmentPages, Installable, Installed, Shows;
    var valid := ValidateSegment(p, |file|);
    if !valid {
      return false;
    }
    AcceptedHeader(p, |file|);
    PageCount(p, |file|);
    ok := space.LoadSegment(file, PageDown(p.offset), PageDown(p.vaddr), ReadBytes(p), ZeroBytes(p), writable, frames, noTable);
    if ok {
      SegmentShows(p, file, old(space.pages), space.pages, writable);
    }
  }

  lemma SegmentShows(p: Phdr, file: seq<byte>, pages: map<int, UserPage>, pages': map<int, UserPage>, writable: bool)
    requires ValidSegment(p, |file|)
    requires ReadBytes(p) > 0 ==> PageDown(p.offset) + ReadBytes(p) <= |file|
    requires Installed(pages, pages', file, PageDown(p.offset), PageDown(p.vaddr), ReadBytes(p), writable,
                       (ReadBytes(p) + ZeroBytes(p)) / PAGE_SIZE)
    ensures Shows(pages', p, file, writable)
  {
    hide ValidSegment, Installed, ReadBytes, ZeroBytes;
    forall j: nat | j < p.memsz ensures ShowsByte(pages', p, file, writable, j) {
      ElfImage(p, file, pages, pages', writable, j);
    }
  }
}
