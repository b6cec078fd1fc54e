/**
 Runs of a process that maps files: memory always shows each mapped file overlaid with the stores made
 since, and munmap leaves the file with exactly those bytes.
 */
module MappedRuns {
  import opened Machine
  import opened Reachability
  import opened MappedPages

  /** What a mapping promises to show: the bytes at pages base, base + 1, and so on. */
  datatype View = View(base: PageNo, bytes: seq<byte>)

  function PageOf(view: View, k: nat): int { view.base + k / PAGE_SIZE }

  ghost predicate Holds(t: seq<Entry>, g: int, p: int) {
    exists i :: 0 <= i < |t| && t[i].upage == p && t[i].file == Some(g)
  }

  ghost predicate Handle(s: Space, g: int) { g in s.inodeOf && s.inodeOf[g] in s.content }

  /** Byte k: resident memory shows it, and unless memory holds it dirty, so does the file. */
  ghost predicate ByteOk(s: Space, g: int, view: View, k: nat)
    requires Wf(s) && Handle(s, g) && k < |view.bytes| == |s.content[s.inodeOf[g]]|
  {
    var p := PageOf(view, k);
    && (Holds(s.table, g, p) && p in s.mem ==> s.mem[p][k % PAGE_SIZE] == view.bytes[k])
    && (!(Holds(s.table, g, p) && p in s.mem && p in s.dirty) ==> s.content[s.inodeOf[g]][k] == view.bytes[k])
  }

  ghost predicate Placed(view: View, e: Entry) {
    && view.base <= e.upage < view.base + PageCount(|view.bytes|)
    && e.off == (e.upage - view.base) * PAGE_SIZE
  }

  /** True from mmap until the end of munmap. */
  ghost predicate Showing(s: Space, g: int, view: View)
    requires Wf(s)
  {
    && Handle(s, g) && |view.bytes| == |s.content[s.inodeOf[g]]|
    && (forall i :: 0 <= i < |s.table| && s.table[i].file == Some(g) ==> Placed(view, s.table[i]))
    && (forall k :: 0 <= k < |view.bytes| ==> ByteOk(s, g, view, k))
  }

  // ---------------------------------------------------------------- munmap

  /** The entries of other files and of no file, in order. */
  function Without(t: seq<Entry>, g: int): seq<Entry> {
    if t == [] then [] else (if t[0].file == Some(g) then [] else [t[0]]) + Without(t[1..], g)
  }

  lemma {:induction false} WithoutDropped(t: seq<Entry>, g: int, i: nat)
    requires i < |t| && t[i].file == Some(g)
    ensures Without(t[..i] + t[i + 1..], g) == Without(t, g)
  {
    if i == 0 {
      assert t[..0] + t[1..] == t[1..];
    } else {
      WithoutDropped(t[1..], g, i - 1);
      var u := t[..i] + t[i + 1..];
      assert u[0] == t[0] && u[1..] == t[1..][..i - 1] + t[1..][i..];
    }
  }

  lemma {:induction false} WithoutNothing(t: seq<Entry>, g: int)
    requires IndexOfFile(t, g) == |t|
    ensures Without(t, g) == t
  {
    if t != [] {
      WithoutNothing(t[1..], g);
      assert t == [t[0]] + t[1..];
    }
  }

  /** What page_unmap leaves alone while it works on g. */
  ghost predicate OthersKept(s: Space, g: int, r: Space)
    requires Handle(s, g)
  {
    && Without(r.table, g) == Without(s.table, g) && r.inodeOf == s.inodeOf
    && r.content.Keys == s.content.Keys
    && (forall x :: x in s.content && x != s.inodeOf[g] ==> r.content[x] == s.content[x])
    && (forall v :: v in r.mem ==> v in s.mem && r.mem[v] == s.mem[v])
    && (forall v :: v in s.mem && !Holds(s.table, g, v) ==> v in r.mem)
    && (forall v: PageNo :: !Holds(s.table, g, v) ==> !Holds(r.table, g, v) && (v in r.dirty <==> v in s.dirty))
  }

  /** Whether another page of the mapping is in the table does not depend on entry i. */
  lemma HoldsElsewhere(t: seq<Entry>, g: int, i: nat, p: int)
    requires Distinct(t) && i < |t| && t[i].file == Some(g)
    ensures Holds(t[..i] + t[i + 1..], g, p) <==> Holds(t, g, p) && p != t[i].upage
  {
    var u := t[..i] + t[i + 1..];
    if j :| 0 <= j < |t| && t[j].upage == p && t[j].file == Some(g) && p != t[i].upage {
      assert u[if j < i then j else j - 1] == t[j];
    }
    if j :| 0 <= j < |u| && u[j].upage == p && u[j].file == Some(g) {
      assert t[if j < i then j else j + 1] == u[j];
    }
  }

  lemma UnmapOneShows(s: Space, g: int, view: View, i: nat, r: Space)
    requires Wf(s) && Showing(s, g, view) && i < |s.table| && s.table[i].file == Some(g)
    requires r == Removed(WroteBack(s, i), i) && Wf(r)
    ensures Showing(r, g, view)
  {
    var e := s.table[i];
    assert Placed(view, e) && FileEntryOk(s, e);
    forall j | 0 <= j < |r.table| && r.table[j].file == Some(g) ensures Placed(view, r.table[j]) {
      assert r.table[j] == s.table[if j < i then j else j + 1];
    }
    forall k | 0 <= k < |view.bytes| ensures ByteOk(r, g, view, k) {
      assert ByteOk(s, g, view, k);
      HoldsElsewhere(s.table, g, i, PageOf(view, k));
      if PageOf(view, k) == e.upage {
        assert Holds(s.table, g, e.upage);
        assert k == e.off + k % PAGE_SIZE;
      }
    }
  }

  lemma UnmapOneKeepsOthers(s: Space, g: int, i: nat, r: Space)
    requires Wf(s) && Handle(s, g) && i < |s.table| && s.table[i].file == Some(g)
    requires r == Removed(WroteBack(s, i), i)
    ensures OthersKept(s, g, r)
  {
    WithoutDropped(s.table, g, i);
    assert Holds(s.table, g, s.table[i].upage);
    forall v: PageNo | !Holds(s.table, g, v) ensures !Holds(r.table, g, v) {
      HoldsElsewhere(s.table, g, i, v);
    }
  }

  lemma OthersKeptTwice(s: Space, g: int, r: Space, q: Space)
    requires Handle(s, g) && OthersKept(s, g, r) && Handle(r, g) && OthersKept(r, g, q)
    ensures OthersKept(s, g, q)
  {
    forall v | v in s.mem && !Holds(s.table, g, v) ensures v in q.mem {
      assert !Holds(r.table, g, v);
    }
  }

  /** What page_unmap must achieve. */
  ghost predicate UnmapDone(s: Space, g: int, view: View, q: Space)
    requires Handle(s, g)
  {
    && Wf(q) && OthersKept(s, g, q)
    && q.table == Without(s.table, g) && IndexOfFile(q.table, g) == |q.table|
    && q.content[s.inodeOf[g]] == view.bytes
  }

  lemma UnmapDoneAtEnd(s: Space, g: int, view: View)
    requires Wf(s) && Showing(s, g, view) && IndexOfFile(s.table, g) == |s.table|
    ensures UnmapDone(s, g, view, s)
  {
    WithoutNothing(s.table, g);
    forall k | 0 <= k < |view.bytes| ensures s.content[s.inodeOf[g]][k] == view.bytes[k] {
      assert ByteOk(s, g, view, k);
    }
  }

  lemma UnmapDoneBefore(s: Space, g: int, r: Space, view: View, q: Space)
    requires Handle(s, g) && OthersKept(s, g, r) && Handle(r, g) && UnmapDone(r, g, view, q)
    ensures UnmapDone(s, g, view, q)
  {
    OthersKeptTwice(s, g, r, q);
  }

  /** page_unmap stops, leaves no page of the file, writes the promised bytes and touches nothing else. */
  lemma {:induction false} UnmapWritesView(s: Space, g: int, view: View)
    requires Wf(s) && Showing(s, g, view)
    ensures UnmapDone(s, g, view, Unmapped(s, g))
    decreases |s.table|
  {
    var i := IndexOfFile(s.table, g);
    if i == |s.table| {
      UnmapDoneAtEnd(s, g, view);
    } else {
      var r := Removed(WroteBack(s, i), i);
      UnmapOneKeepsWf(s, i);
      UnmapOneShows(s, g, view, i, r);
      UnmapOneKeepsOthers(s, g, i, r);
      UnmapWritesView(r, g, view);
      UnmapDoneBefore(s, g, r, view, Unmapped(r, g));
    }
  }

  // ---------------------------------------------------------------- runs

  datatype World = World(s: Space, views: map<int, View>)

  /** f: what mmap's file is; g: the handle file_reopen gives; k: pages entered before memory ran out. */
  datatype Op =
    | Mmap(inode: int, g: int, base: PageNo)
    | MmapFails(inode: int, g: int, base: PageNo, k: nat)
    | Fault(v: PageNo, frame: seq<byte>)
    | GrowStack(v: PageNo, frame: seq<byte>)
    | UserStore(v: PageNo, o: nat, b: byte)
    | Munmap(g: int)
    | FileWrite(inode: int, c: seq<byte>)

  /** Every page of a live mapping is in the table. */
  ghost predicate Complete(s: Space, g: int, view: View) {
    && 0 < view.base && view.base + PageCount(|view.bytes|) <= USER_PAGES
    && forall p :: view.base <= p < view.base + PageCount(|view.bytes|) ==> Holds(s.table, g, p)
  }

  ghost predicate Live(s: Space, g: int, view: View)
    requires Wf(s)
  {
    Showing(s, g, view) && Complete(s, g, view)
  }

  ghost predicate Sole(w: World, inode: int) {
    forall g :: g in w.views ==> g in w.s.inodeOf && w.s.inodeOf[g] != inode
  }

  ghost predicate Inv(w: World) {
    && Wf(w.s)
    && (forall g :: g in w.views ==> Live(w.s, g, w.views[g]))
    && (forall g, h :: g in w.views && h in w.views && w.s.inodeOf[g] == w.s.inodeOf[h] ==> g == h)
  }

  /** The view after a user store of b at offset o of page v. */
  function Overlaid(view: View, v: PageNo, o: nat, b: byte): View {
    var k := (v - view.base) * PAGE_SIZE + o;
    if 0 <= k < |view.bytes| then view.(bytes := view.bytes[k := b]) else view
  }

  function Stored(s: Space, v: PageNo, o: nat, b: byte): Space
    requires v in s.mem && o < |s.mem[v]|
  {
    var page: seq<byte> := s.mem[v][o := b];
    s.(mem := s.mem[v := page], dirty := s.dirty + {v})
  }

  /** file_close of the handle after page_unmap. */
  function Munmapped(s: Space, g: int): Space
    requires Wf(s)
  {
    var q := Unmapped(s, g);
    q.(inodeOf := q.inodeOf - {g})
  }

  ghost predicate Enabled(w: World, op: Op)
    requires Wf(w.s)
  {
    match op
    case Mmap(inode, g, base) =>
      && inode in w.s.content && 0 < |w.s.content[inode]| <= MAX_LENGTH && base != 0 && g !in w.s.inodeOf && Sole(w, inode)
      && RangeFree(w.s.table, base, PageCount(|w.s.content[inode]|))
      && base + PageCount(|w.s.content[inode]|) <= USER_PAGES
    case MmapFails(inode, g, base, k) =>
      && inode in w.s.content && base != 0 && g !in w.s.inodeOf
      && k <= PageCount(|w.s.content[inode]|) && RangeFree(w.s.table, base, k) && base + k <= USER_PAGES
    case Fault(v, frame) => InTable(w.s.table, v) && v !in w.s.mem && |frame| == PAGE_SIZE
    case GrowStack(v, frame) =>
      IndexOf(w.s.table, v) == |w.s.table| && v < USER_PAGES && |frame| == PAGE_SIZE
    case UserStore(v, o, b) => v in w.s.mem && o < PAGE_SIZE && w.s.table[IndexOf(w.s.table, v)].writable
    case Munmap(g) => g in w.views
    case FileWrite(inode, c) => inode in w.s.content && Sole(w, inode) && |w.s.content[inode]| <= |c|
  }

  ghost function Apply(w: World, op: Op): World
    requires Wf(w.s) && Enabled(w, op)
  {
    match op
    case Mmap(inode, g, base) =>
      World(Mmapped(w.s, inode, g, base, PageCount(|w.s.content[inode]|)), w.views[g := View(base, w.s.content[inode])])
    case MmapFails(inode, g, base, k) => World(Mmapped(w.s, inode, g, base, k), w.views)
    case Fault(v, frame) =>
      assert FileEntryOk(w.s, w.s.table[IndexOf(w.s.table, v)]);
      World(Fetched(w.s, v, frame), w.views)
    case GrowStack(v, frame) => World(Grown(w.s, v, frame), w.views)
    case UserStore(v, o, b) =>
      World(Stored(w.s, v, o, b), map g | g in w.views :: Overlaid(w.views[g], v, o, b))
    case Munmap(g) => World(Munmapped(w.s, g), w.views - {g})
    case FileWrite(inode, c) => World(w.s.(content := w.s.content[inode := c]), w.views)
  }

  ghost predicate Step(w: World, w': World) {
    Wf(w.s) && exists op: Op :: Enabled(w, op) && w' == Apply(w, op)
  }

  // ---------------------------------------------------------------- one step at a time

  lemma PageOfInRange(view: View, k: nat)
    requires k < |view.bytes|
    ensures view.base <= PageOf(view, k) < view.base + PageCount(|view.bytes|)
    ensures (PageOf(view, k) - view.base) * PAGE_SIZE + k % PAGE_SIZE == k
  {
  }

  /** Two files never hold the same page. */
  lemma HoldsOnce(t: seq<Entry>, g: int, h: int, p: int)
    requires Distinct(t) && Holds(t, g, p) && Holds(t, h, p)
    ensures g == h
  {
    var i :| 0 <= i < |t| && t[i].upage == p && t[i].file == Some(g);
    var j :| 0 <= j < |t| && t[j].upage == p && t[j].file == Some(h);
    assert !(i < j) && !(j < i);
  }

  /** New entries of another handle leave a mapping alone. */
  lemma MmappedKeepsLive(s: Space, inode: int, h: int, base: PageNo, n: nat, g: int, view: View, r: Space)
    requires Wf(s) && Live(s, g, view) && h !in s.inodeOf && r == Mmapped(s, inode, h, base, n) && Wf(r)
    ensures Live(r, g, view)
  {
    forall p ensures Holds(r.table, g, p) <==> Holds(s.table, g, p) {
      if i :| 0 <= i < |s.table| && s.table[i].upage == p && s.table[i].file == Some(g) {
        assert r.table[i] == s.table[i];
      }
    }
    forall k | 0 <= k < |view.bytes| ensures ByteOk(r, g, view, k) {
      assert ByteOk(s, g, view, k);
    }
  }

  /** The entries mmap adds are the only ones of its handle, and cover the file page by page. */
  lemma MmappedEntries(s: Space, inode: int, g: int, base: PageNo, n: nat, r: Space)
    requires Wf(s) && g !in s.inodeOf && base + n <= USER_PAGES && r == Mmapped(s, inode, g, base, n)
    ensures forall i :: 0 <= i < |r.table| && r.table[i].file == Some(g) ==>
              base <= r.table[i].upage < base + n && r.table[i].off == (r.table[i].upage - base) * PAGE_SIZE
    ensures forall p :: base <= p < base + n ==> Holds(r.table, g, p)
  {
    forall i | 0 <= i < |s.table| ensures s.table[i].file != Some(g) {
      assert FileEntryOk(s, s.table[i]);
    }
    forall p | base <= p < base + n ensures Holds(r.table, g, p) {
      assert r.table[|s.table| + (p - base)].upage == p;
    }
  }

  /** A fresh mapping shows the file. */
  lemma MmappedIsLive(s: Space, inode: int, g: int, base: PageNo, n: nat, r: Space)
    requires Wf(s) && inode in s.content && g !in s.inodeOf && base != 0 && n == PageCount(|s.content[inode]|)
    requires RangeFree(s.table, base, n) && base + n <= USER_PAGES
    requires r == Mmapped(s, inode, g, base, n) && Wf(r)
    ensures Live(r, g, View(base, s.content[inode]))
  {
    var view := View(base, s.content[inode]);
    MmappedEntries(s, inode, g, base, n, r);
    forall k | 0 <= k < |view.bytes| ensures ByteOk(r, g, view, k) {
      PageOfInRange(view, k);
      assert !InTable(s.table, Upage(base, k / PAGE_SIZE));
    }
  }

  /** A fault loads exactly the bytes the mapping promises. */
  lemma FetchedKeepsLive(s: Space, v: PageNo, frame: seq<byte>, g: int, view: View, r: Space)
    requires Wf(s) && Live(s, g, view) && InTable(s.table, v) && v !in s.mem && |frame| == PAGE_SIZE
    requires FileEntryOk(s, s.table[IndexOf(s.table, v)]) && r == Fetched(s, v, frame) && Wf(r)
    ensures Live(r, g, view)
  {
    var e := s.table[IndexOf(s.table, v)];
    forall k | 0 <= k < |view.bytes| ensures ByteOk(r, g, view, k) {
      assert ByteOk(s, g, view, k);
      if PageOf(view, k) == v && Holds(s.table, g, v) {
        FetchedByte(s, v, frame, g, view, k, r);
      }
    }
  }

  lemma FetchedByte(s: Space, v: PageNo, frame: seq<byte>, g: int, view: View, k: nat, r: Space)
    requires Wf(s) && Live(s, g, view) && v !in s.mem && |frame| == PAGE_SIZE
    requires Holds(s.table, g, v) && k < |view.bytes| && PageOf(view, k) == v
    requires
      var i := IndexOf(s.table, v);
      i < |s.table| && FileEntryOk(s, s.table[i]) && r == Fetched(s, v, frame)
    ensures r.mem[v][k % PAGE_SIZE] == view.bytes[k]
  {
    var i := IndexOf(s.table, v);
    var j :| 0 <= j < |s.table| && s.table[j].upage == v && s.table[j].file == Some(g);
    assert i == j by { assert !(i < j) && !(j < i); }
    assert Placed(view, s.table[i]);
    assert ByteOk(s, g, view, k);
    PageOfInRange(view, k);
  }

  lemma FetchedKeepsWf(s: Space, v: PageNo, frame: seq<byte>, r: Space)
    requires Wf(s) && IndexOf(s.table, v) < |s.table| && |frame| == PAGE_SIZE
    requires FileEntryOk(s, s.table[IndexOf(s.table, v)]) && r == Fetched(s, v, frame)
    ensures Wf(r)
  {
    forall j | 0 <= j < |r.table| ensures FileEntryOk(r, r.table[j]) {
      assert FileEntryOk(s, s.table[j]);
    }
  }

  lemma GrownKeepsWf(s: Space, v: PageNo, frame: seq<byte>, r: Space)
    requires Wf(s) && IndexOf(s.table, v) == |s.table| && |frame| == PAGE_SIZE && r == Grown(s, v, frame)
    ensures Wf(r)
  {
    forall j | 0 <= j < |r.table| ensures FileEntryOk(r, r.table[j]) {
      if j < |s.table| {
        assert FileEntryOk(s, s.table[j]);
      }
    }
    forall u | u in r.mem ensures |r.mem[u]| == PAGE_SIZE && IndexOf(r.table, u) < |r.table| {
      var j := IndexOf(s.table, u);
      assert r.table[j].upage == u;
    }
  }

  lemma GrownKeeps(s: Space, v: PageNo, frame: seq<byte>, r: Space)
    requires Wf(s) && IndexOf(s.table, v) == |s.table| && |frame| == PAGE_SIZE && r == Grown(s, v, frame)
    ensures Wf(r)
    ensures forall g, view :: Live(s, g, view) ==> Live(r, g, view)
  {
    hide Live;
    GrownKeepsWf(s, v, frame, r);
    forall g, view | Live(s, g, view) ensures Live(r, g, view) {
      GrownKeepsLive(s, v, frame, g, view, r);
    }
  }

  lemma GrownKeepsLive(s: Space, v: PageNo, frame: seq<byte>, g: int, view: View, r: Space)
    requires Wf(s) && IndexOf(s.table, v) == |s.table| && r == Grown(s, v, frame) && Wf(r) && Live(s, g, view)
    ensures Live(r, g, view)
  {
    forall p ensures Holds(r.table, g, p) <==> Holds(s.table, g, p) {
      if i :| 0 <= i < |s.table| && s.table[i].upage == p && s.table[i].file == Some(g) {
        assert r.table[i] == s.table[i];
      }
    }
    forall k | 0 <= k < |view.bytes| ensures ByteOk(r, g, view, k) {
      assert ByteOk(s, g, view, k);
    }
  }

  lemma StoredByte(s: Space, v: PageNo, o: nat, b: byte, g: int, view: View, r: Space, view': View, k: nat)
    requires Wf(s) && Live(s, g, view) && v in s.mem && o < PAGE_SIZE && r == Stored(s, v, o, b) && Wf(r)
    requires k < |view.bytes| && view' == Overlaid(view, v, o, b)
    ensures ByteOk(r, g, view', k)
  {
    assert ByteOk(s, g, view, k);
    PageOfInRange(view, k);
    assert Holds(s.table, g, PageOf(view, k));
    assert (v - view.base) * PAGE_SIZE + o == k <==> v == PageOf(view, k) && o == k % PAGE_SIZE;
  }

  /** A store reaches the view of the mapping it falls in, and no other. */
  lemma StoredKeepsLive(s: Space, v: PageNo, o: nat, b: byte, g: int, view: View, r: Space)
    requires Wf(s) && Live(s, g, view) && v in s.mem && o < PAGE_SIZE && r == Stored(s, v, o, b) && Wf(r)
    ensures Live(r, g, Overlaid(view, v, o, b))
  {
    var view' := Overlaid(view, v, o, b);
    forall i | 0 <= i < |r.table| && r.table[i].file == Some(g) ensures Placed(view', r.table[i]) {
      assert Placed(view, s.table[i]);
    }
    forall k | 0 <= k < |view'.bytes| ensures ByteOk(r, g, view', k) {
      StoredByte(s, v, o, b, g, view, r, view', k);
    }
  }

  lemma StoredKeepsWf(s: Space, v: PageNo, o: nat, b: byte, r: Space)
    requires Wf(s) && v in s.mem && o < PAGE_SIZE && r == Stored(s, v, o, b)
    ensures Wf(r)
  {
    forall j | 0 <= j < |r.table| ensures FileEntryOk(r, r.table[j]) {
      assert FileEntryOk(s, s.table[j]);
    }
  }

  /** Unmapping one file leaves a mapping of another alone. */
  lemma MunmappedKeepsLive(s: Space, h: int, hview: View, q: Space, r: Space, g: int, view: View)
    requires Wf(s) && Live(s, g, view) && Live(s, h, hview) && g != h && s.inodeOf[g] != s.inodeOf[h]
    requires UnmapDone(s, h, hview, q) && r == q.(inodeOf := q.inodeOf - {h}) && Wf(r)
    ensures Live(r, g, view)
  {
    forall i | 0 <= i < |r.table| && r.table[i].file == Some(g) ensures Placed(view, r.table[i]) {
      WithoutKeepsEntry(s.table, h, r.table[i]);
    }
    forall p | view.base <= p < view.base + PageCount(|view.bytes|) ensures Holds(r.table, g, p) {
      OthersHold(s.table, g, h, p);
    }
    forall k | 0 <= k < |view.bytes| ensures ByteOk(r, g, view, k) {
      assert ByteOk(s, g, view, k);
      PageOfInRange(view, k);
      if Holds(s.table, h, PageOf(view, k)) {
        HoldsOnce(s.table, g, h, PageOf(view, k));
      }
      var p: PageNo := PageOf(view, k);
      assert !Holds(s.table, h, p);
    }
  }

  lemma {:induction false} WithoutKeepsEntry(t: seq<Entry>, g: int, e: Entry)
    ensures e in Without(t, g) <==> e in t && e.file != Some(g)
  {
    if t != [] {
      WithoutKeepsEntry(t[1..], g, e);
      assert e in t <==> e == t[0] || e in t[1..];
    }
  }

  lemma OthersHold(t: seq<Entry>, g: int, h: int, p: int)
    requires Holds(t, g, p) && g != h
    ensures Holds(Without(t, h), g, p)
  {
    var i :| 0 <= i < |t| && t[i].upage == p && t[i].file == Some(g);
    WithoutKeepsEntry(t, h, t[i]);
    var j :| 0 <= j < |Without(t, h)| && Without(t, h)[j] == t[i];
  }

  lemma MunmappedKeepsWf(s: Space, g: int, view: View, q: Space, r: Space)
    requires Wf(s) && Handle(s, g) && UnmapDone(s, g, view, q) && r == q.(inodeOf := q.inodeOf - {g})
    ensures Wf(r)
  {
    forall j | 0 <= j < |r.table| ensures FileEntryOk(r, r.table[j]) {
      assert FileEntryOk(q, q.table[j]);
    }
  }

  lemma FileWriteKeeps(s: Space, inode: int, c: seq<byte>, r: Space)
    requires Wf(s) && inode in s.content && |s.content[inode]| <= |c| && r == s.(content := s.content[inode := c])
    ensures Wf(r)
    ensures forall g, view :: Live(s, g, view) && s.inodeOf[g] != inode ==> Live(r, g, view)
  {
    forall j | 0 <= j < |r.table| ensures FileEntryOk(r, r.table[j]) {
      assert FileEntryOk(s, s.table[j]);
    }
    forall g, view | Live(s, g, view) && s.inodeOf[g] != inode ensures Live(r, g, view) {
      forall k | 0 <= k < |view.bytes| ensures ByteOk(r, g, view, k) {
        assert ByteOk(s, g, view, k);
      }
    }
  }

  lemma MmapStep(w: World, op: Op, r: World)
    requires Inv(w) && Enabled(w, op) && r == Apply(w, op) && op.Mmap?
    ensures Inv(r)
  {
    var n := PageCount(|w.s.content[op.inode]|);
    MmapKeepsWf(w.s, op.inode, op.g, op.base, n);
    forall g | g in r.views ensures Live(r.s, g, r.views[g]) {
      if g == op.g {
        MmappedIsLive(w.s, op.inode, op.g, op.base, n, r.s);
      } else {
        MmappedKeepsLive(w.s, op.inode, op.g, op.base, n, g, w.views[g], r.s);
      }
    }
  }

  lemma MmapFailsStep(w: World, op: Op, r: World)
    requires Inv(w) && Enabled(w, op) && r == Apply(w, op) && op.MmapFails?
    ensures Inv(r)
  {
    MmapKeepsWf(w.s, op.inode, op.g, op.base, op.k);
    forall g | g in r.views ensures Live(r.s, g, r.views[g]) {
      MmappedKeepsLive(w.s, op.inode, op.g, op.base, op.k, g, w.views[g], r.s);
    }
  }

  lemma FaultStep(w: World, op: Op, r: World)
    requires Inv(w) && Enabled(w, op) && r == Apply(w, op) && op.Fault?
    ensures Inv(r)
  {
    assert FileEntryOk(w.s, w.s.table[IndexOf(w.s.table, op.v)]);
    FetchedKeepsWf(w.s, op.v, op.frame, r.s);
    forall g | g in r.views ensures Live(r.s, g, r.views[g]) {
      FetchedKeepsLive(w.s, op.v, op.frame, g, w.views[g], r.s);
    }
  }

  lemma StoreStep(w: World, op: Op, r: World)
    requires Inv(w) && Enabled(w, op) && r == Apply(w, op) && op.UserStore?
    ensures Inv(r)
  {
    StoredKeepsWf(w.s, op.v, op.o, op.b, r.s);
    forall g | g in r.views ensures Live(r.s, g, r.views[g]) {
      StoredKeepsLive(w.s, op.v, op.o, op.b, g, w.views[g], r.s);
    }
  }

  lemma MunmapStep(w: World, g: int, r: World)
    requires Inv(w) && g in w.views && r == Apply(w, Munmap(g))
    ensures Inv(r) && UnmapDone(w.s, g, w.views[g], Unmapped(w.s, g))
  {
    var view := w.views[g];
    UnmapWritesView(w.s, g, view);
    var q := Unmapped(w.s, g);
    MunmappedKeepsWf(w.s, g, view, q, r.s);
    forall h | h in r.views ensures Live(r.s, h, r.views[h]) {
      MunmappedKeepsLive(w.s, g, view, q, r.s, h, w.views[h]);
    }
  }

  /** Every operation keeps every mapping's promise. */
  lemma StepKeeps(w: World, op: Op)
    requires Inv(w) && Enabled(w, op)
    ensures Inv(Apply(w, op))
  {
    var r := Apply(w, op);
    match op
    case Mmap(_, _, _) => MmapStep(w, op, r);
    case MmapFails(_, _, _, _) => MmapFailsStep(w, op, r);
    case Fault(_, _) => FaultStep(w, op, r);
    case GrowStack(v, frame) => GrownKeeps(w.s, v, frame, r.s);
    case UserStore(_, _, _) => StoreStep(w, op, r);
    case Munmap(g) => MunmapStep(w, g, r);
    case FileWrite(inode, c) => FileWriteKeeps(w.s, inode, c, r.s);
  }

  lemma StepKeepsInv(a: World, b: World)
    requires Inv(a) && Step(a, b)
    ensures Inv(b)
  {
    var op: Op :| Enabled(a, op) && b == Apply(a, op);
    StepKeeps(a, op);
  }

  lemma RunsKeepViews(a: World, n: nat, b: World)
    requires Inv(a) && Reaches((x, y) => Step(x, y), a, n, b)
    ensures Inv(b)
  {
    forall x: World, y: World | Inv(x) && Step(x, y) ensures Inv(y) {
      StepKeepsInv(x, y);
    }
    RunsKeep((x, y) => Step(x, y), x => Inv(x), a, n, b);
  }

  /** A process with nothing mapped: its pages belong to no file. */
  ghost predicate Start(w: World) {
    Wf(w.s) && w.views == map[] && forall i :: 0 <= i < |w.s.table| ==> w.s.table[i].file == None
  }

  /** What a user load of offset o of page v returns, after the fault if there is one. */
  function Loads(s: Space, v: PageNo, o: nat, frame: seq<byte>): byte
    requires Wf(s) && IndexOf(s.table, v) < |s.table| && |frame| == PAGE_SIZE && o < PAGE_SIZE
  {
    assert FileEntryOk(s, s.table[IndexOf(s.table, v)]);
    if v in s.mem then s.mem[v][o] else Fetched(s, v, frame).mem[v][o]
  }

  /**
   Over every run, a load from a mapped file gives the file's bytes at mmap overlaid with the stores since,
   whatever the frame held, and munmap then leaves the file with exactly those bytes, no page of it, and
   every other page and file as they were.
   */
  lemma RunsShowFiles(a: World, n: nat, w: World, g: int, k: nat, frame: seq<byte>)
    requires Start(a) && Reaches((x, y) => Step(x, y), a, n, w)
    requires g in w.views && k < |w.views[g].bytes| && |frame| == PAGE_SIZE
    ensures Wf(w.s) && 0 < PageOf(w.views[g], k) < USER_PAGES && IndexOf(w.s.table, PageOf(w.views[g], k)) < |w.s.table|
    ensures Loads(w.s, PageOf(w.views[g], k), k % PAGE_SIZE, frame) == w.views[g].bytes[k]
    ensures Handle(w.s, g) && |w.s.content[w.s.inodeOf[g]]| == |w.views[g].bytes|
    ensures UnmapDone(w.s, g, w.views[g], Unmapped(w.s, g))
  {
    RunsKeepViews(a, n, w);
    var view := w.views[g];
    PageOfInRange(view, k);
    var v: PageNo := PageOf(view, k);
    assert Holds(w.s.table, g, v);
    assert ByteOk(w.s, g, view, k);
    assert FileEntryOk(w.s, w.s.table[IndexOf(w.s.table, v)]);
    if v !in w.s.mem {
      FetchedByte(w.s, v, frame, g, view, k, Fetched(w.s, v, frame));
    }
    UnmapWritesView(w.s, g, view);
  }
}
