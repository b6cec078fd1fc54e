/**
 virtual-memory/vm/page.c with mmap and munmap of virtual-memory/userprog/syscall.c, updating a process's
 page list, memory and files in place. Each method is tied to the functions of module MappedPages.
 */
module UserMemory {
  import opened Machine
  import opened MappedPages
  import MappedRuns

  datatype MmapResult = Failed | Exits | Mapped(g: int)

  /** Panics: an assertion of the kernel failed. */
  datatype FetchResult = Refused | Loaded | Panics

  /** stack_growth: uaddr at the pushes' addresses or above the stack pointer. */
  predicate StackGrowth(uaddr: nat, esp: int) {
    uaddr == esp - 4 || uaddr == esp - 32 || uaddr >= esp
  }

  /** Writing back what was just read changes nothing. */
  lemma WriteBackUnread(c: seq<byte>, off: nat, size: nat, frame: seq<byte>)
    requires off + size <= |c| && size <= |frame|
    ensures Splice(c, off, Splice(frame, 0, c[off..off + size])[..size]) == c
  {
    var loaded := Splice(frame, 0, c[off..off + size]);
    assert loaded[..size] == c[off..off + size];
  }

  lemma UpageInjective(base: PageNo, i: nat, j: nat)
    requires i < j < PAGES
    ensures Upage(base, i) != Upage(base, j)
  {
  }

  /** Entering the next page of a mapping. */
  lemma NewEntriesNext(g: int, base: PageNo, k: nat)
    ensures NewEntries(g, base, k + 1) == NewEntries(g, base, k) + [Entry(Upage(base, k), Some(g), k * PAGE_SIZE, true)]
  {
  }

  /** The pages entered so far do not include the next one. */
  lemma StillFree(t: seq<Entry>, g: int, base: PageNo, n: nat, k: nat)
    requires RangeFree(t, base, n) && k < n <= PAGES
    ensures !InTable(t + NewEntries(g, base, k), Upage(base, k))
  {
    assert !InTable(t, Upage(base, k));
    forall j | 0 <= j < k ensures NewEntries(g, base, k)[j].upage != Upage(base, k) {
      UpageInjective(base, j, k);
    }
  }

  lemma FirstIs(t: seq<Entry>, i: nat)
    requires Distinct(t) && i < |t|
    ensures IndexOf(t, t[i].upage) == i
  {
  }

  /** page_unmap with nothing left of the file, and with a page outside user space next. */
  lemma UnmapOutcomeStarts(s: Space, f: int)
    requires Loose(s)
    ensures
      var i := IndexOfFile(s.table, f);
      && (i == |s.table| ==> UnmapOutcome(s, f) == Some(s))
      && (i < |s.table| && s.table[i].upage >= USER_PAGES ==> UnmapOutcome(s, f) == None)
  {
  }

  /** One round of page_unmap leaves its outcome to the remaining rounds. */
  lemma UnmapOutcomeNext(s: Space, f: int, r: Space)
    requires Loose(s) && Distinct(s.table)
    requires
      var i := IndexOfFile(s.table, f);
      i < |s.table| && s.table[i].upage < USER_PAGES && r == Removed(WroteBack(s, i), i)
    ensures Loose(r) && UnmapOutcome(r, f) == UnmapOutcome(s, f)
  {
    var i := IndexOfFile(s.table, f);
    FirstIs(s.table, i);
    UnmapOneKeepsLoose(s, i, i);
  }

  class Process {
    var table: seq<Entry>
    var mem: map<PageNo, seq<byte>>
    var dirty: set<PageNo>
    var inodeOf: map<int, int>
    var content: map<int, seq<byte>>

    ghost function State(): Space reads this { Space(table, mem, dirty, inodeOf, content) }

    method FindUpage(v: PageNo) returns (i: nat)
      ensures i == IndexOf(table, v)
    {
      i := 0;
      while i < |table| && table[i].upage != v
        invariant i <= |table| && forall j :: 0 <= j < i ==> table[j].upage != v
      {
        i := i + 1;
      }
    }

    method FindFile(f: int) returns (i: nat)
      ensures i == IndexOfFile(table, f)
    {
      i := 0;
      while i < |table| && table[i].file != Some(f)
        invariant i <= |table| && forall j :: 0 <= j < i ==> table[j].file != Some(f)
      {
        i := i + 1;
      }
    }

    method PageInTable(v: PageNo) returns (found: bool)
      ensures found <==> InTable(table, v)
      ensures found <==> v != 0 && exists i :: 0 <= i < |table| && table[i].upage == v
    {
      found := false;
      if v != 0 {
        var i := FindUpage(v);
        found := i < |table|;
      }
    }

    /** page_alloc; memory says whether malloc has any. */
    method PageAlloc(v: PageNo, writable: bool, memory: bool) returns (ok: bool)
      modifies this`table
      ensures ok <==> !InTable(old(table), v) && memory
      ensures table == if ok then old(table) + [Entry(v, None, 0, writable)] else old(table)
    {
      var found := PageInTable(v);
      ok := !found && memory;
      if ok {
        table := table + [Entry(v, None, 0, writable)];
      }
    }

    method PageSetFile(v: PageNo, g: int, off: nat, memory: bool) returns (ok: bool)
      modifies this`table
      ensures ok <==> !InTable(old(table), v) && memory
      ensures table == if ok then old(table) + [Entry(v, Some(g), off, true)] else old(table)
    {
      ok := PageAlloc(v, true, memory);
      if ok {
        var last := |table| - 1;
        table := table[last := table[last].(file := Some(g), off := off)];
      }
    }

    /** The first loop of sys_mmap. */
    method RangeIsFree(base: PageNo, n: nat) returns (free: bool)
      ensures free <==> RangeFree(table, base, n)
      ensures free <==> forall i, k :: 0 <= i < n && 0 <= k < |table| && table[k].upage == Upage(base, i) ==> table[k].upage == 0
    {
      free := true;
      for i := 0 to n
        invariant RangeFree(table, base, i)
        invariant forall j, k :: 0 <= j < i && 0 <= k < |table| && table[k].upage == Upage(base, j) ==> table[k].upage == 0
      {
        var found := PageInTable(Upage(base, i));
        if found {
          assert InTable(table, Upage(base, i));
          assert table[IndexOf(table, Upage(base, i))].upage == Upage(base, i);
          return false;
        }
      }
    }

    /** The second loop of sys_mmap; what it entered before running out of memory stays. */
    method EnterPages(g: int, base: PageNo, n: nat, memory: nat) returns (ok: bool)
      requires RangeFree(table, base, n) && n <= PAGES
      modifies this`table
      ensures ok <==> n <= memory
      ensures table == old(table) + NewEntries(g, base, Min(memory, n))
    {
      for i := 0 to n
        invariant i <= memory && table == old(table) + NewEntries(g, base, i)
      {
        StillFree(old(table), g, base, n, i);
        NewEntriesNext(g, base, i);
        var entered := PageSetFile(Upage(base, i), g, i * PAGE_SIZE, i < memory);
        if !entered {
          return false;
        }
      }
      ok := true;
    }

    /** sys_mmap: f is the descriptor's file, reopened what file_reopen gives, memory how many pages malloc has room for. */
    method SysMmap(fd: int, addr: uint32, f: Option<int>, reopened: Option<int>, memory: nat, descriptor: bool)
      returns (r: MmapResult)
      requires f.Some? ==> f.value in inodeOf && inodeOf[f.value] in content && |content[inodeOf[f.value]]| < 0x8000_0000
      requires reopened.Some? ==> reopened.value !in inodeOf
      modifies this`table, this`inodeOf
      ensures
        if fd == 0 || fd == 1 || addr == 0 || addr % PAGE_SIZE != 0 then r == Failed && State() == old(State())
        else if f == None then r == Exits && State() == old(State())
        else
          var inode := old(inodeOf)[f.value];
          var n := MmapCount(|content[inode]|);
          var base: PageNo := addr / PAGE_SIZE;
          if |content[inode]| == 0 || !RangeFree(old(table), base, n) || reopened == None then r == Failed && State() == old(State())
          else
            && State() == Mmapped(old(State()), inode, reopened.value, base, Min(memory, n))
            && r == if memory < n || !descriptor then Failed else Mapped(reopened.value)
      ensures
        r.Mapped? <==>
          && fd != 0 && fd != 1 && addr != 0 && addr % PAGE_SIZE == 0 && f.Some? && reopened.Some? && descriptor
          && var n := MmapCount(|content[old(inodeOf)[f.value]]|);
             && 0 < |content[old(inodeOf)[f.value]]| && n <= memory
             && forall i, k :: 0 <= i < n && 0 <= k < |old(table)| && old(table)[k].upage == Upage(addr / PAGE_SIZE, i) ==>
                  old(table)[k].upage == 0
    {
      r := Failed;
      if fd == 0 || fd == 1 || addr == 0 || addr % PAGE_SIZE != 0 {
        return;
      }
      if f == None {
        r := Exits;
        return;
      }
      var inode := inodeOf[f.value];
      if |content[inode]| == 0 {
        return;
      }
      var n := MmapCount(|content[inode]|);
      var base: PageNo := addr / PAGE_SIZE;
      var free := RangeIsFree(base, n);
      if !free || reopened == None {
        return;
      }
      inodeOf := inodeOf[reopened.value := inode];
      var entered := EnterPages(reopened.value, base, n, memory);
      if !entered {
        return;
      }
      if descriptor {
        r := Mapped(reopened.value);
      }
    }

    /** frame_alloc: pagedir_set_page installs the frame with clear bits. */
    method FrameAlloc(v: PageNo, frame: seq<byte>)
      requires v !in mem
      modifies this`mem, this`dirty
      ensures mem == old(mem)[v := frame] && dirty == old(dirty) - {v}
    {
      mem := mem[v := frame];
      dirty := dirty - {v};
    }

    /** page_set_frame of a writable frame. */
    method PageSetFrame(v: PageNo)
      requires IndexOf(table, v) < |table| ==> table[IndexOf(table, v)].writable
      modifies this`table
      ensures table == if IndexOf(old(table), v) < |old(table)| then old(table) else old(table) + [Entry(v, None, 0, true)]
    {
      var i := FindUpage(v);
      if i == |table| {
        var ok := PageAlloc(v, true, true);
        assert ok;
      }
    }

    /** page_write_data, for a page that was just given a frame. */
    method PageWriteData(v: PageNo)
      requires v in mem && |mem[v]| == PAGE_SIZE && v !in dirty
      requires
        var i := IndexOf(table, v);
        i < |table| && table[i].file.Some? ==>
          && table[i].file.value in inodeOf && inodeOf[table[i].file.value] in content
          && table[i].off <= |content[inodeOf[table[i].file.value]]|
      modifies this`mem, this`dirty
      ensures dirty == old(dirty)
      ensures
        var i := IndexOf(table, v);
        if i < |table| && table[i].file.Some? then
          mem == old(mem)[v := Splice(old(mem)[v], 0, Slice(old(State()), table[i]))]
        else mem == old(mem)
    {
      var i := FindUpage(v);
      if i < |table| && table[i].file.Some? {
        var e := table[i];
        var c := content[inodeOf[e.file.value]];
        var size := SizeInPage(|c|, e.off);
        mem := mem[v := Splice(mem[v], 0, c[e.off..e.off + size])];
        dirty := dirty + {v};
        dirty := dirty - {v};
      }
    }

    /** The last branch of page_fetch. */
    method FetchKnown(v: PageNo, frame: seq<byte>)
      requires |frame| == PAGE_SIZE && v !in mem && IndexOf(table, v) < |table|
      requires Backed(State(), table[IndexOf(table, v)]) && table[IndexOf(table, v)].writable
      modifies this`table, this`mem, this`dirty
      ensures Backed(old(State()), old(table)[IndexOf(old(table), v)])
      ensures State() == Fetched(old(State()), v, frame)
    {
      FrameAlloc(v, frame);
      PageSetFrame(v);
      PageWriteData(v);
    }

    /** page_fetch; esp is None for the null pointer. */
    method PageFetch(uaddr: uint32, esp: Option<int>, write: bool, frame: seq<byte>) returns (r: FetchResult)
      requires |frame| == PAGE_SIZE && Loose(State())
      modifies this`table, this`mem, this`dirty
      ensures
        var v: PageNo := uaddr / PAGE_SIZE;
        var i := IndexOf(old(table), v);
        var entered := i < |old(table)|;
        if v >= USER_PAGES then r == Refused
        else if !InTable(old(table), v) then
          if esp == None || !(uaddr == esp.value - 4 || uaddr == esp.value - 32 || uaddr >= esp.value) then r == Refused
          else if v in old(mem) || (entered && !old(table)[i].writable) then r == Panics
          else if entered then r == Loaded && State() == old(State()).(mem := old(mem)[v := frame], dirty := old(dirty) - {v})
          else r == Loaded && State() == Grown(old(State()), v, frame)
        else if write && !old(table)[i].writable then r == Refused
        else if v in old(mem) || !old(table)[i].writable then r == Panics
        else r == Loaded && Backed(old(State()), old(table)[i]) && State() == Fetched(old(State()), v, frame)
      ensures r == Refused ==> State() == old(State())
      ensures
        var v: PageNo := uaddr / PAGE_SIZE;
        r == Loaded && IndexOf(old(table), v) == |old(table)| ==>
          table == old(table) + [Entry(v, None, 0, true)] && mem == old(mem)[v := frame] && v !in dirty
    {
      var v: PageNo := uaddr / PAGE_SIZE;
      r := Refused;
      if v >= USER_PAGES {
        return;
      }
      var known := PageInTable(v);
      var i := FindUpage(v);
      if !known {
        if esp == None || !StackGrowth(uaddr, esp.value) {
          return;
        }
        if v in mem || (i < |table| && !table[i].writable) {
          r := Panics;
          return;
        }
        FrameAlloc(v, frame);
        PageSetFrame(v);
        r := Loaded;
      } else if write && !table[i].writable {
        return;
      } else if v in mem || !table[i].writable {
        r := Panics;
      } else {
        assert Backed(State(), table[i]);
        FetchKnown(v, frame);
        r := Loaded;
      }
    }

    method PageRemove(v: PageNo)
      requires IndexOf(table, v) < |table| && v < USER_PAGES
      modifies this`table, this`mem
      ensures State() == Removed(old(State()), IndexOf(old(table), v))
    {
      var i := FindUpage(v);
      table := table[..i] + table[i + 1..];
      mem := mem - {v};
    }

    /** The write-back of one page; reading it may fault it in. */
    method WriteBack(i: nat, frame: seq<byte>)
      requires Loose(State()) && |frame| == PAGE_SIZE && i < |table| && table[i].file.Some?
      requires 0 < table[i].upage < USER_PAGES && IndexOf(table, table[i].upage) == i
      modifies this`table, this`mem, this`dirty, this`content
      ensures table == old(table) && inodeOf == old(inodeOf)
      ensures State().(mem := mem - {table[i].upage}) ==
              WroteBack(old(State()), i).(mem := old(mem) - {table[i].upage})
    {
      var e := table[i];
      assert Backed(State(), e);
      if e.upage in dirty {
        var inode := inodeOf[e.file.value];
        var c := content[inode];
        var size := SizeInPage(|c|, e.off);
        if e.upage !in mem {
          var r := PageFetch(e.upage * PAGE_SIZE, None, false, frame);
          WriteBackUnread(c, e.off, size, frame);
        }
        content := content[inode := Splice(c, e.off, mem[e.upage][..size])];
      }
    }

    /** One round of page_unmap. */
    method UnmapOne(i: nat, frame: seq<byte>)
      requires Loose(State()) && Distinct(table) && |frame| == PAGE_SIZE
      requires i < |table| && table[i].file.Some? && 0 < table[i].upage < USER_PAGES
      modifies this`table, this`mem, this`dirty, this`content
      ensures Loose(old(State())) && State() == Removed(WroteBack(old(State()), i), i)
      ensures Loose(State()) && Distinct(table) && table == old(table)[..i] + old(table)[i + 1..]
      ensures inodeOf == old(inodeOf)
    {
      FirstIs(table, i);
      UnmapOneKeepsLoose(State(), i, i);
      RemoveKeepsDistinct(table, i);
      var v := table[i].upage;
      WriteBack(i, frame);
      PageRemove(v);
    }

    /** page_unmap; asserted: pagedir_clear_page met a page outside user space. */
    method PageUnmap(f: int, frame: seq<byte>) returns (asserted: bool)
      requires Loose(State()) && Distinct(table) && |frame| == PAGE_SIZE
      requires forall i :: 0 <= i < |table| && table[i].file == Some(f) ==> table[i].upage != 0
      modifies this`table, this`mem, this`dirty, this`content
      ensures UnmapOutcome(old(State()), f) == if asserted then None else Some(State())
      ensures Wf(old(State())) ==> !asserted && State() == Unmapped(old(State()), f)
    {
      hide Wf, UnmapOutcome, Unmapped, Backed;
      asserted := false;
      if Wf(State()) {
        UnmapOutcomeIs(State(), f);
      }
      var i := FindFile(f);
      while i < |table|
        invariant i == IndexOfFile(table, f) && Loose(State()) && Distinct(table) && inodeOf == old(inodeOf)
        invariant forall j :: 0 <= j < |table| && table[j].file == Some(f) ==> table[j].upage != 0
        invariant UnmapOutcome(State(), f) == UnmapOutcome(old(State()), f)
        decreases |table|
      {
        ghost var before := State();
        UnmapOutcomeStarts(before, f);
        var v := table[i].upage;
        if v >= USER_PAGES {
          return true;
        }
        FirstIs(table, i);
        UnmapOne(i, frame);
        UnmapOutcomeNext(before, f, State());
        i := FindFile(f);
      }
      UnmapOutcomeStarts(State(), f);
    }

    /** sys_munmap: f is the descriptor's file. */
    method SysMunmap(f: Option<int>, frame: seq<byte>) returns (asserted: bool)
      requires Loose(State()) && Distinct(table) && |frame| == PAGE_SIZE
      requires f.Some? ==> forall i :: 0 <= i < |table| && table[i].file == f ==> table[i].upage != 0
      modifies this
      ensures f == None ==> !asserted && State() == old(State())
      ensures f.Some? && asserted ==> UnmapOutcome(old(State()), f.value) == None
      ensures f.Some? && !asserted ==>
                UnmapOutcome(old(State()), f.value) == Some(State().(inodeOf := old(inodeOf))) &&
                inodeOf == old(inodeOf) - {f.value}
      ensures f.Some? && Wf(old(State())) ==> !asserted && State() == MappedRuns.Munmapped(old(State()), f.value)
    {
      asserted := false;
      if f == None {
        return;
      }
      asserted := PageUnmap(f.value, frame);
      if !asserted {
        inodeOf := inodeOf - {f.value};
      }
    }
  }
}
