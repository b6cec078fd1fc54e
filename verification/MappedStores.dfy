/** From a store through a mapping to the file: a run of module MappedRuns for every file and every byte of it. */
module MappedStores {
  import opened Machine
  import opened Reachability
  import opened MappedPages
  import opened MappedRuns

  ghost function Steps(): (World, World) -> bool { (x: World, y: World) => MappedRuns.Step(x, y) }

  /** Inode's file can be mapped at base under handle g. */
  ghost predicate CanMap(w: World, inode: int, g: int, base: PageNo) {
    && Inv(w) && inode in w.s.content && 0 < |w.s.content[inode]| <= MAX_LENGTH && Sole(w, inode) && g !in w.s.inodeOf
    && 0 < base && base + PageCount(|w.s.content[inode]|) <= USER_PAGES
    && forall i :: 0 <= i < |w.s.table| ==>
         !(base <= w.s.table[i].upage < base + PageCount(|w.s.content[inode]|))
  }

  lemma MapStep(w: World, inode: int, g: int, base: PageNo) returns (r: World)
    requires CanMap(w, inode, g, base)
    ensures MappedRuns.Step(w, r) && Inv(r) && r.views == w.views[g := View(base, w.s.content[inode])]
    ensures r.s == Mmapped(w.s, inode, g, base, PageCount(|w.s.content[inode]|))
  {
    assert RangeFree(w.s.table, base, PageCount(|w.s.content[inode]|));
    assert Enabled(w, Mmap(inode, g, base));
    r := Apply(w, Mmap(inode, g, base));
    StepKeeps(w, Mmap(inode, g, base));
  }

  /** The page of the mapping with byte k is listed, under the new handle, and not resident. */
  lemma PageIsListed(w: World, inode: int, g: int, base: PageNo, r: World, k: nat)
    requires CanMap(w, inode, g, base) && k < |w.s.content[inode]|
    requires r.s == Mmapped(w.s, inode, g, base, PageCount(|w.s.content[inode]|)) && Wf(r.s)
    ensures
      var v := base + k / PAGE_SIZE;
      && 0 < v < USER_PAGES && InTable(r.s.table, v) && v !in r.s.mem
      && r.s.table[IndexOf(r.s.table, v)].file == Some(g) && r.s.table[IndexOf(r.s.table, v)].writable
  {
    var n, i := PageCount(|w.s.content[inode]|), k / PAGE_SIZE;
    var v: PageNo := base + i;
    assert i < n;
    var t := NewEntries(g, base, n);
    assert r.s.table[|w.s.table| + i] == t[i] && t[i].upage == v;
    assert IndexOf(w.s.table, v) == |w.s.table|;
    assert IndexOf(r.s.table, v) >= |w.s.table|;
  }

  lemma FaultAndStore(w: World, g: int, v: PageNo, o: nat, b: byte, frame: seq<byte>) returns (m: World, r: World)
    requires Inv(w) && InTable(w.s.table, v) && v !in w.s.mem && |frame| == PAGE_SIZE && o < PAGE_SIZE && g in w.views
    requires w.s.table[IndexOf(w.s.table, v)].writable
    ensures MappedRuns.Step(w, m) && MappedRuns.Step(m, r) && Inv(r) && g in r.views && r.views[g] == Overlaid(w.views[g], v, o, b)
    ensures r.views.Keys == w.views.Keys && r.s.content == w.s.content && r.s.inodeOf == w.s.inodeOf
  {
    m := Faults(w, v, frame);
    hide Inv, Overlaid;
    r := Stores(m, v, o, b);
  }

  lemma Faults(w: World, v: PageNo, frame: seq<byte>) returns (m: World)
    requires Inv(w) && InTable(w.s.table, v) && v !in w.s.mem && |frame| == PAGE_SIZE
    ensures MappedRuns.Step(w, m) && Inv(m) && m.views == w.views && v in m.s.mem
    ensures m.s.table == w.s.table && m.s.content == w.s.content && m.s.inodeOf == w.s.inodeOf
  {
    assert Enabled(w, Fault(v, frame));
    m := Apply(w, Fault(v, frame));
    StepKeeps(w, Fault(v, frame));
  }

  lemma Stores(w: World, v: PageNo, o: nat, b: byte) returns (r: World)
    requires Inv(w) && v in w.s.mem && o < PAGE_SIZE && InTable(w.s.table, v) && w.s.table[IndexOf(w.s.table, v)].writable
    ensures MappedRuns.Step(w, r) && Inv(r) && r.views.Keys == w.views.Keys
    ensures forall g :: g in w.views ==> r.views[g] == Overlaid(w.views[g], v, o, b)
    ensures r.s.content == w.s.content && r.s.inodeOf == w.s.inodeOf
  {
    assert Enabled(w, UserStore(v, o, b));
    r := Apply(w, UserStore(v, o, b));
    StepKeeps(w, UserStore(v, o, b));
  }

  /**
   For every file that can be mapped and every byte of it: mapping it, faulting in the page, storing and
   unmapping is a run, and leaves the file with that one byte changed, every other file as it was, the handle
   gone and no page of it listed.
   */
  lemma StoreReachesFile(w: World, inode: int, g: int, base: PageNo, k: nat, b: byte, frame: seq<byte>) returns (r: World)
    requires CanMap(w, inode, g, base) && k < |w.s.content[inode]| && |frame| == PAGE_SIZE
    ensures Reaches(Steps(), w, 4, r)
    ensures
      var c: seq<byte> := w.s.content[inode][k := b];
      r.s.content == w.s.content[inode := c]
    ensures r.s.inodeOf == w.s.inodeOf && r.views.Keys == w.views.Keys - {g}
    ensures IndexOfFile(r.s.table, g) == |r.s.table|
  {
    hide MappedRuns.Inv, MappedRuns.Step, UnmapDone;
    var a := MapStep(w, inode, g, base);
    assert Wf(a.s) by { InvIsWf(a); }
    PageIsListed(w, inode, g, base, a, k);
    var m, c := FaultAndStore(a, g, base + k / PAGE_SIZE, k % PAGE_SIZE, b, frame);
    r := Unmaps(c, g);
    Stored4(w, a, c, r, inode, g, base, k, b);
    Four(w, a, m, c, r);
  }

  lemma InvIsWf(w: World)
    requires Inv(w)
    ensures Wf(w.s)
  {
  }

  lemma Unmaps(w: World, g: int) returns (r: World)
    requires Inv(w) && g in w.views
    ensures MappedRuns.Step(w, r) && Wf(w.s) && Handle(w.s, g) && UnmapDone(w.s, g, w.views[g], Unmapped(w.s, g))
    ensures r == World(Munmapped(w.s, g), w.views - {g})
  {
    assert Live(w.s, g, w.views[g]);
    UnmapWritesView(w.s, g, w.views[g]);
    assert Enabled(w, Munmap(g));
    r := Apply(w, Munmap(g));
  }

  lemma Stored4(w: World, a: World, c: World, r: World, inode: int, g: int, base: PageNo, k: nat, b: byte)
    requires inode in w.s.content && k < |w.s.content[inode]| && g !in w.s.inodeOf && base + k / PAGE_SIZE < PAGES
    requires a.s == Mmapped(w.s, inode, g, base, PageCount(|w.s.content[inode]|))
    requires a.views == w.views[g := View(base, w.s.content[inode])]
    requires g in c.views && c.views[g] == Overlaid(a.views[g], base + k / PAGE_SIZE, k % PAGE_SIZE, b)
    requires c.views.Keys == a.views.Keys && c.s.content == a.s.content && c.s.inodeOf == a.s.inodeOf
    requires Wf(c.s) && Handle(c.s, g) && UnmapDone(c.s, g, c.views[g], Unmapped(c.s, g))
    requires r == World(Munmapped(c.s, g), c.views - {g})
    ensures
      var c: seq<byte> := w.s.content[inode][k := b];
      r.s.content == w.s.content[inode := c]
    ensures r.s.inodeOf == w.s.inodeOf && r.views.Keys == w.views.Keys - {g}
    ensures IndexOfFile(r.s.table, g) == |r.s.table|
  {
    assert (k / PAGE_SIZE) * PAGE_SIZE + k % PAGE_SIZE == k;
    var bytes: seq<byte> := w.s.content[inode][k := b];
    assert c.views[g].bytes == bytes && c.s.inodeOf[g] == inode;
    assert forall x :: x in w.s.content && x != inode ==> r.s.content[x] == w.s.content[x];
    assert r.s.content == w.s.content[inode := bytes];
  }

  lemma Four(w: World, a: World, m: World, c: World, r: World)
    requires MappedRuns.Step(w, a) && MappedRuns.Step(a, m) && MappedRuns.Step(m, c) && MappedRuns.Step(c, r)
    ensures Reaches(Steps(), w, 4, r)
  {
    hide MappedRuns.Step;
    assert Reaches(Steps(), w, 0, w);
    ThenStep(Steps(), w, 0, w, a);
    ThenStep(Steps(), w, 1, a, m);
    ThenStep(Steps(), w, 2, m, c);
    ThenStep(Steps(), w, 3, c, r);
  }
}
